/**
 * Every run of registrations, removals and flushes keeps the server's books and the client's view.
 */
module GdbusRuns {
  import opened Lists
  import opened Wrappers
  import opened GdbusObjects
  import opened GdbusCore
  import opened GdbusTree

  // ---------- Counting registrations ----------

  // The interfaces that were registered by a call and not by the server itself.
  function Registered(s: seq<Name>): nat {
    if s == [] then 0 else (if Builtin(s[0]) then 0 else 1) + Registered(s[1..])
  }

  lemma {:induction false} RegisteredNext(s: seq<Name>, n: Name)
    ensures Registered(s + [n]) == Registered(s) + if Builtin(n) then 0 else 1
  {
    if s == [] {
      assert s + [n] == [n] && [n][1..] == [];
    } else {
      assert (s + [n])[1..] == s[1..] + [n];
      RegisteredNext(s[1..], n);
    }
  }

  lemma {:induction false} RegisteredLess(s: seq<Name>, n: Name)
    requires n in s
    ensures Registered(Without(s, n)) == Registered(s) - if Builtin(n) then 0 else 1
  {
    if s[0] != n {
      RegisteredLess(s[1..], n);
      var t := Without(s, n);
      assert t[1..] == Without(s[1..], n);
    }
  }

  lemma {:induction false} NoneRegistered(s: seq<Name>)
    requires Registered(s) == 0
    ensures forall n :: n in s ==> Builtin(n)
  {
    if s != [] {
      NoneRegistered(s[1..]);
    }
  }

  // ---------- The invariant ----------

  // The object is held by its registrations and by owed calls still under way.
  ghost predicate Live(p: Path, o: Object, owed: nat, exact: bool) {
    && o.refcount == Registered(o.interfaces) + owed && o.refcount >= 1
    && Introspectable in o.interfaces
    && (forall n :: n in o.removed ==> !Builtin(n))
    && (exact ==> forall n :: n in o.removed ==> n !in o.added)
    && (p == ROOT ==> ObjectManager in o.interfaces)
  }

  // The books of every object, owing owed references to p.
  ghost predicate Books(t: Table, p: Path, owed: nat, exact: bool) {
    p in t && forall q :: q in t ==> Live(q, t[q], if q == p then owed else 0, exact)
  }

  ghost predicate FullBut(s: State, p: Path, owed: nat, exact: bool) {
    Core(s, exact) && Nested(s.table) && Books(s.table, p, owed, exact)
  }

  ghost predicate Full(s: State, exact: bool) {
    FullBut(s, ROOT, 0, exact)
  }

  lemma BooksUpdate(t: Table, p: Path, owed: nat, o: Object, now: nat, exact: bool)
    requires Books(t, p, owed, exact) && Live(p, o, now, exact)
    ensures Books(t[p := o], p, now, exact)
  {
  }

  lemma NestedUpdate(t: Table, p: Path, o: Object)
    requires Nested(t) && p in t && o.parent == t[p].parent && o.objects == t[p].objects
    ensures Nested(t[p := o])
  {
    NestedDepends(t, t[p := o]);
  }

  // ---------- Interfaces ----------

  lemma AddedObject(s: State, p: Path, n: Name)
    requires p in s.table
    ensures var o, r := s.table[p], AddInterface(s, p, n);
            && p in r.table && r.table == s.table[p := r.table[p]]
            && r.table[p].parent == o.parent && r.table[p].objects == o.objects
            && r.table[p].interfaces == o.interfaces + [n] && r.table[p].refcount == o.refcount
            && r.table[p].removed == o.removed && (r.table[p].added == o.added || r.table[p].added == o.added + [n])
  {
  }

  lemma AddLive(p: Path, o: Object, o': Object, n: Name, owed: nat, now: nat, exact: bool)
    requires Live(p, o, owed, exact) && (exact ==> n !in o.removed) && owed == now + (if Builtin(n) then 0 else 1)
    requires o'.interfaces == o.interfaces + [n] && o'.refcount == o.refcount && o'.removed == o.removed
    requires o'.added == o.added || o'.added == o.added + [n]
    ensures Live(p, o', now, exact)
  {
    RegisteredNext(o.interfaces, n);
  }

  lemma AddFull(s: State, p: Path, n: Name, owed: nat, now: nat, exact: bool)
    requires FullBut(s, p, owed, exact) && n !in s.table[p].interfaces && (exact ==> n !in s.table[p].removed)
    requires owed == now + if Builtin(n) then 0 else 1
    ensures FullBut(AddInterface(s, p, n), p, now, exact)
  {
    var o, r := s.table[p], AddInterface(s, p, n);
    AddedCore(s, p, n, exact);
    AddedObject(s, p, n);
    AddLive(p, o, r.table[p], n, owed, now, exact);
    BooksUpdate(s.table, p, owed, r.table[p], now, exact);
    NestedUpdate(s.table, p, r.table[p]);
  }

  lemma RemovedObject(s: State, p: Path, n: Name)
    requires p in s.table && n in s.table[p].interfaces
    ensures var o, r := s.table[p], RemoveInterface(s, p, n);
            && p in r.table && r.table == s.table[p := r.table[p]]
            && r.table[p].parent == o.parent && r.table[p].objects == o.objects
            && r.table[p].interfaces == Without(o.interfaces, n) && r.table[p].refcount == o.refcount
            && (if n in o.added then r.table[p].added == Without(o.added, n) && r.table[p].removed == o.removed
                else r.table[p].added == o.added && (r.table[p].removed == o.removed || r.table[p].removed == [n] + o.removed))
  {
  }

  lemma RemoveLive(p: Path, o: Object, o': Object, n: Name, owed: nat, exact: bool)
    requires Live(p, o, owed, exact) && !Builtin(n) && n in o.interfaces && (p == ROOT ==> n != ObjectManager)
    requires NoDup(o.interfaces) && NoDup(o.added)
    requires o'.interfaces == Without(o.interfaces, n) && o'.refcount == o.refcount
    requires if n in o.added then o'.added == Without(o.added, n) && o'.removed == o.removed
             else o'.added == o.added && (o'.removed == o.removed || o'.removed == [n] + o.removed)
    ensures Live(p, o', owed + 1, exact)
  {
    RegisteredLess(o.interfaces, n);
    WithoutMembers(o.interfaces, n);
    WithoutMembers(o.added, n);
  }

  lemma RemoveFull(s: State, p: Path, n: Name, owed: nat, exact: bool)
    requires FullBut(s, p, owed, exact) && n in s.table[p].interfaces && !Builtin(n) && (p == ROOT ==> n != ObjectManager)
    ensures FullBut(RemoveInterface(s, p, n), p, owed + 1, exact)
  {
    var o, r := s.table[p], RemoveInterface(s, p, n);
    RemovedCore(s, p, n, exact);
    RemovedObject(s, p, n);
    assert ObjectOk(p, o);
    RemoveLive(p, o, r.table[p], n, owed, exact);
    BooksUpdate(s.table, p, owed, r.table[p], owed + 1, exact);
    NestedUpdate(s.table, p, r.table[p]);
  }

  // ---------- References ----------

  lemma RefOld(s: State, p: Path, exact: bool)
    requires Full(s, exact) && p in s.table
    ensures FullBut(ObjectRef(s, p), p, 1, exact)
  {
    var o, r := s.table[p], ObjectRef(s, p);
    assert Live(p, o, 0, exact);
    CoreUpdate(s, r, p, r.table[p], exact);
    BooksUpdate(s.table, p, 0, r.table[p], 1, exact);
    NestedUpdate(s.table, p, r.table[p]);
  }

  lemma CreatedObjects(s: State, p: Path, q: Path)
    requires p !in s.table && p != ROOT && q in s.table && forall c :: c in s.table ==> ObjectOk(c, s.table[c])
    ensures var t := WithChild(s.table, p, q); forall c :: c in t ==> ObjectOk(c, t[c])
  {
    assert ObjectOk(q, s.table[q]);
  }

  lemma CreatedMirror(s: State, p: Path, q: Path, exact: bool)
    requires MirrorOk(s, exact) && p !in s.table && q in s.table
    ensures MirrorOk(s.(table := WithChild(s.table, p, q)), exact)
  {
  }

  lemma CreatedCore(s: State, p: Path, q: Path, exact: bool)
    requires Core(s, exact) && p !in s.table && p != ROOT && q in s.table
    ensures Core(s.(table := WithChild(s.table, p, q)), exact)
  {
    CreatedObjects(s, p, q);
    CreatedMirror(s, p, q, exact);
  }

  lemma NewBooks(t: Table, p: Path, q: Path, o: Object, exact: bool)
    requires Books(t, ROOT, 0, exact) && p !in t && q in t && Live(p, o, 1, exact)
    ensures Books(WithChild(t, p, q)[p := o], p, 1, exact)
  {
  }

  lemma NewObject(s: State, p: Path, exact: bool)
    requires p in s.table && s.table[p].(parent := None) == NEW_OBJECT && p != ROOT
    ensures Live(p, AddInterface(s, p, Introspectable).table[p], 1, exact)
  {
    RegisteredNext([], Introspectable);
  }

  lemma RefNew(s: State, p: Path, exact: bool)
    requires Full(s, exact) && p !in s.table && NoneBelow(s.table, p)
    ensures FullBut(ObjectRef(s, p), p, 1, exact)
  {
    AdoptNew(s.table, p);
    CreatedNested(s.table, p);
    var q := Nearest(s.table, p).value;
    CreatedCore(s, p, q, exact);
    var s1 := s.(table := WithChild(s.table, p, q));
    var r := ObjectRef(s, p);
    assert r == AddInterface(s1, p, Introspectable);
    AddedCore(s1, p, Introspectable, exact);
    AddedObject(s1, p, Introspectable);
    NestedUpdate(s1.table, p, r.table[p]);
    NewObject(s1, p, exact);
    NewBooks(s.table, p, q, r.table[p], exact);
  }

  lemma Settles(s: State, p: Path, exact: bool)
    requires FullBut(s, p, 0, exact)
    ensures Full(s, exact)
  {
    assert Live(p, s.table[p], 0, exact);
  }

  lemma UnrefKeeps(s: State, p: Path, exact: bool)
    requires FullBut(s, p, 1, exact) && s.table[p].refcount > 1
    ensures Full(ObjectUnref(s, p), exact)
  {
    var o, r := s.table[p], ObjectUnref(s, p);
    assert Live(p, o, 1, exact);
    CoreUpdate(s, r, p, r.table[p], exact);
    BooksUpdate(s.table, p, 1, r.table[p], 0, exact);
    NestedUpdate(s.table, p, r.table[p]);
    Settles(r, p, exact);
  }

  // ---------- The last reference ----------

  lemma {:induction false} SomeRegistered(s: seq<Name>, n: Name)
    requires n in s && !Builtin(n)
    ensures Registered(s) >= 1
  {
    if s[0] != n {
      SomeRegistered(s[1..], n);
    }
  }

  // A removal leaves the rest of the object in place.
  ghost predicate Smaller(s: State, r: State, p: Path, n: Name) {
    && p in s.table && p in r.table && r.table == s.table[p := r.table[p]]
    && r.table[p].parent == s.table[p].parent && r.table[p].objects == s.table[p].objects
    && forall m :: m in r.table[p].interfaces <==> m in s.table[p].interfaces && m != n
  }

  lemma RemoveSmaller(s: State, p: Path, n: Name, exact: bool)
    requires Core(s, exact) && p in s.table
    ensures Smaller(s, RemoveInterface(s, p, n), p, n)
  {
    assert ObjectOk(p, s.table[p]);
    if n in s.table[p].interfaces {
      RemovedObject(s, p, n);
      WithoutMembers(s.table[p].interfaces, n);
    }
  }

  // The object with neither reference nor interface, about to go.
  function Stripped(s: State, p: Path): State
    requires p in s.table
  {
    RemoveInterface(RemoveInterface(Put(s, p, s.table[p].(refcount := 0)), p, Introspectable), p, Properties)
  }

  lemma StripOne(s: State, p: Path, n: Name, exact: bool)
    requires Core(s, exact) && Nested(s.table) && p in s.table
    ensures var r := RemoveInterface(s, p, n); Core(r, exact) && Nested(r.table) && Smaller(s, r, p, n)
  {
    var r := RemoveInterface(s, p, n);
    RemovedCore(s, p, n, exact);
    RemoveSmaller(s, p, n, exact);
    NestedUpdate(s.table, p, r.table[p]);
  }

  lemma NoCount(s: State, p: Path, exact: bool)
    requires Core(s, exact) && Nested(s.table) && p in s.table
    ensures var r := Put(s, p, s.table[p].(refcount := 0)); Core(r, exact) && Nested(r.table)
  {
    var r := Put(s, p, s.table[p].(refcount := 0));
    assert ObjectOk(p, s.table[p]);
    CoreUpdate(s, r, p, r.table[p], exact);
    NestedUpdate(s.table, p, r.table[p]);
  }

  lemma EmptyOrNot(s: seq<Name>)
    ensures s == [] || exists n :: n in s
  {
    if s != [] {
      assert s[0] in s;
    }
  }

  lemma BothGone(t: Table, s: State, r: State, u: State, p: Path)
    requires Smaller(s, r, p, Introspectable) && Smaller(r, u, p, Properties)
    requires p in t && s.table == t[p := s.table[p]]
    requires forall n :: n in s.table[p].interfaces ==> Builtin(n)
    ensures u.table == t[p := u.table[p]] && u.table[p].interfaces == []
    ensures u.table[p].parent == s.table[p].parent
  {
    EmptyOrNot(u.table[p].interfaces);
  }

  lemma StrippedBare(s: State, p: Path, exact: bool)
    requires Core(s, exact) && Nested(s.table) && p in s.table && Registered(s.table[p].interfaces) == 0
    ensures var r := Stripped(s, p);
            && Core(r, exact) && Nested(r.table) && p in r.table && r.table == s.table[p := r.table[p]]
            && r.table[p].interfaces == [] && r.table[p].parent == s.table[p].parent
  {
    var s1 := Put(s, p, s.table[p].(refcount := 0));
    NoCount(s, p, exact);
    StripOne(s1, p, Introspectable, exact);
    StripOne(RemoveInterface(s1, p, Introspectable), p, Properties, exact);
    NoneRegistered(s.table[p].interfaces);
    BothGone(s.table, s1, RemoveInterface(s1, p, Introspectable), Stripped(s, p), p);
  }

  lemma DeletedCore(s: State, p: Path, exact: bool)
    requires Core(s, exact) && p in s.table
    requires s.table[p].interfaces == [] && s.table[p].removed == [] && !s.table[p].queued
    ensures Core(s.(table := s.table - {p}), exact)
  {
    var r := s.(table := s.table - {p});
    forall c | c in r.table ensures ObjectOk(c, r.table[c]) {
      assert ObjectOk(c, s.table[c]);
    }
    forall n ensures (p, n) !in View(s.bus) {
    }
  }

  lemma UnlinkedCore(s: State, p: Path, exact: bool)
    requires Core(s, exact) && p in s.table && p != ROOT
    ensures var r := s.(table := Unlinked(s.table, p));
            Core(r, exact) && r.table.Keys == s.table.Keys
  {
    match s.table[p].parent
    case None =>
    case Some(q) =>
      if q in s.table {
        assert ObjectOk(q, s.table[q]);
        var r := s.(table := Unlinked(s.table, p));
        CoreUpdate(s, r, q, r.table[q], exact);
      }
  }

  lemma ProcessedBare(s: State, p: Path, exact: bool)
    requires Core(s, exact) && p in s.table && p != ROOT && s.table[p].interfaces == []
    ensures var r := if s.table[p].queued then ProcessChanges(s, p) else s;
            && Core(r, exact) && p in r.table && r.table == s.table[p := r.table[p]]
            && r.table[p].interfaces == [] && r.table[p].removed == [] && !r.table[p].queued
            && r.table[p].objects == s.table[p].objects
  {
    var o := s.table[p];
    assert ObjectOk(p, o);
    if o.queued {
      assert !Conflict(o);
      ProcessedCore(s, p, exact);
    }
  }

  lemma OrphanedNone(t: Table, p: Path)
    requires p in t && t[p].objects == []
    ensures Orphaned(t, p) == t
  {
  }

  lemma UnlinkedSelf(t: Table, p: Path)
    requires Nested(t) && p in t && p != ROOT
    ensures p in Unlinked(t, p) && Unlinked(t, p)[p] == t[p]
  {
    assert Placed(t, p);
    NearestIsAbove(t, p);
  }

  lemma DestroyedCore(s: State, p: Path, exact: bool)
    requires Core(s, exact) && Nested(s.table) && p in s.table && p != ROOT && s.table[p].objects == []
    requires s.table[p].interfaces == []
    ensures Core(Destroy(s, p), exact) && Destroy(s, p).table == WithoutChild(s.table, p)
  {
    UnlinkedCore(s, p, exact);
    UnlinkedSelf(s.table, p);
    var s1 := s.(table := Unlinked(s.table, p));
    ProcessedBare(s1, p, exact);
    var s2 := if s1.table[p].queued then ProcessChanges(s1, p) else s1;
    OrphanedNone(s2.table, p);
    DeletedCore(s2, p, exact);
    assert s2.table - {p} == s1.table - {p};
  }

  lemma DeletedBooks(t: Table, p: Path, owed: nat, o: Object, exact: bool)
    requires Books(t, p, owed, exact) && p != ROOT && ROOT in t && o.parent == t[p].parent
    ensures Books(WithoutChild(t[p := o], p), ROOT, 0, exact)
  {
    var u := WithoutChild(t[p := o], p);
    forall q | q in u ensures Live(q, u[q], 0, exact) {
      assert Live(q, t[q], 0, exact);
    }
  }

  lemma LastUnref(s: State, p: Path)
    requires p in s.table && s.table[p].refcount == 1
    requires var r := Stripped(s, p); p in r.table && Adopt(r.table, p).0 == r.table
    ensures ObjectUnref(s, p) == Destroy(Stripped(s, p), p)
  {
    var r := Stripped(s, p);
    assert r.(table := r.table) == r;
  }

  lemma BareDestroyed(r: State, p: Path, exact: bool)
    requires Core(r, exact) && Nested(r.table) && p in r.table && p != ROOT && NoneBelow(r.table, p)
    requires r.table[p].interfaces == []
    ensures var u := Destroy(r, p); Core(u, exact) && Nested(u.table) && u.table == WithoutChild(r.table, p)
    ensures Adopt(r.table, p).0 == r.table
  {
    NoChildren(r.table, p);
    DeletedNested(r.table, p);
    DestroyedCore(r, p, exact);
    AdoptNothing(r.table, p);
  }

  lemma LastIsNotRoot(p: Path, o: Object, exact: bool)
    requires Live(p, o, 1, exact) && o.refcount == 1
    ensures p != ROOT && Registered(o.interfaces) == 0
  {
    if p == ROOT {
      SomeRegistered(o.interfaces, ObjectManager);
    }
  }

  lemma Destroyed(s: State, p: Path, exact: bool) returns (o: Object)
    requires Core(s, exact) && Nested(s.table) && p in s.table && p != ROOT && NoneBelow(s.table, p)
    requires s.table[p].refcount == 1 && Registered(s.table[p].interfaces) == 0
    ensures o.parent == s.table[p].parent
    ensures var u := ObjectUnref(s, p); Core(u, exact) && Nested(u.table) && u.table == WithoutChild(s.table[p := o], p)
  {
    var r := Stripped(s, p);
    StrippedBare(s, p, exact);
    BareDestroyed(r, p, exact);
    LastUnref(s, p);
    o := r.table[p];
  }

  lemma UnrefDestroys(s: State, p: Path, exact: bool)
    requires FullBut(s, p, 1, exact) && s.table[p].refcount == 1 && NoneBelow(s.table, p)
    ensures Full(ObjectUnref(s, p), exact) && p !in ObjectUnref(s, p).table
  {
    LastIsNotRoot(p, s.table[p], exact);
    var o := Destroyed(s, p, exact);
    DeletedBooks(s.table, p, 1, o, exact);
  }
}
