/**
 * The interface list of every object, name by name and in order, read off the calls alone: the server's own
 * Introspectable comes with the object, its Properties with the first accepted registration that has properties,
 * and both go with the last thing held.
 */
module GdbusLists {
  import opened Lists
  import opened GdbusObjects
  import opened GdbusCore
  import opened GdbusTree
  import opened GdbusRuns
  import opened GdbusMirror
  import opened GdbusManaged
  import opened GdbusHeld
  import opened GdbusPhases

  // ---------- From the calls ----------

  predicate AcceptedAt(held: Proxies, c: Call, p: Path) {
    c.RegisterCall? && c.path == p && c.usable && (p, c.name) !in held
  }

  // The list at p after one more call; empty when there is nothing at p.
  function NextList(list: seq<Name>, held: Proxies, c: Call, p: Path): seq<Name> {
    if AcceptedAt(held, c, p) then
      (if list == [] then [Introspectable] else list) + [c.name]
      + (if c.properties && Properties !in list then [Properties] else [])
    else if c.UnregisterCall? && c.path == p && (p, c.name) in held then
      if HeldAt(held, p) == {c.name} then [] else Without(list, c.name)
    else list
  }

  function ListFrom(list: seq<Name>, held: Proxies, calls: seq<Call>, p: Path): seq<Name>
    decreases |calls|
  {
    if calls == [] then list else ListFrom(NextList(list, held, calls[0], p), Hold(held, calls[0]), calls[1..], p)
  }

  function ListOf(calls: seq<Call>, p: Path): seq<Name> {
    ListFrom(if p == ROOT then [Introspectable, ObjectManager] else [], {(ROOT, ObjectManager)}, calls, p)
  }

  // ---------- From the table ----------

  function ListAt(t: Table, p: Path): seq<Name> {
    if p in t then t[p].interfaces else []
  }

  ghost predicate SameLists(t: Table, u: Table) {
    forall p :: ListAt(t, p) == ListAt(u, p)
  }

  ghost predicate ListsBut(t: Table, u: Table, p: Path, list: seq<Name>) {
    ListAt(u, p) == list && forall q :: q != p ==> ListAt(u, q) == ListAt(t, q)
  }

  lemma NewLists(s: State, p: Path)
    requires Nested(s.table) && NoneBelow(s.table, p) && p !in s.table
    ensures ListsBut(s.table, ObjectRef(s, p).table, p, [Introspectable])
  {
    AdoptNew(s.table, p);
    var q := Nearest(s.table, p).value;
    AddedObject(s.(table := WithChild(s.table, p, q)), p, Introspectable);
  }

  lemma OldLists(s: State, p: Path)
    requires p in s.table
    ensures ListsBut(s.table, ObjectRef(s, p).table, p, s.table[p].interfaces)
  {
  }

  function FirstList(t: Table, p: Path): seq<Name> {
    if p in t then t[p].interfaces else [Introspectable]
  }

  lemma RefOnlyLists(s: State, p: Path, exact: bool)
    requires Full(s, exact) && (p !in s.table ==> NoneBelow(s.table, p))
    ensures ListsBut(s.table, ObjectRef(s, p).table, p, FirstList(s.table, p))
  {
    if p in s.table {
      OldLists(s, p);
    } else {
      NewLists(s, p);
    }
  }

  lemma RefCount(s: State, p: Path, exact: bool)
    requires Full(s, exact) && (p !in s.table ==> NoneBelow(s.table, p))
    ensures ObjectRef(s, p).table[p].refcount == 1 <==> p !in s.table
    ensures ObjectRef(s, p).table[p].refcount == 1 ==> NoneBelow(ObjectRef(s, p).table, p)
  {
    if p in s.table {
      assert Live(p, s.table[p], 0, exact);
    } else {
      NewCount(s, p);
    }
    RefLast(s, p);
    RefKeys(s, p);
  }

  lemma RefLists(s: State, p: Path, exact: bool) returns (r: State)
    requires Full(s, exact) && (p !in s.table ==> NoneBelow(s.table, p))
    ensures r == ObjectRef(s, p) && FullBut(r, p, 1, exact) && (r.table[p].refcount == 1 ==> NoneBelow(r.table, p))
    ensures r.table[p].refcount == 1 <==> p !in s.table
    ensures ListsBut(s.table, r.table, p, FirstList(s.table, p))
  {
    r := ObjectRef(s, p);
    RefObject(s, p, exact);
    RefCount(s, p, exact);
    RefOnlyLists(s, p, exact);
  }

  lemma NewCount(s: State, p: Path)
    requires Nested(s.table) && NoneBelow(s.table, p) && p !in s.table
    ensures ObjectRef(s, p).table[p].refcount == 1
  {
    AdoptNew(s.table, p);
    var q := Nearest(s.table, p).value;
    AddedObject(s.(table := WithChild(s.table, p, q)), p, Introspectable);
  }

  lemma AddLists(s: State, p: Path, n: Name)
    requires p in s.table
    ensures ListsBut(s.table, AddInterface(s, p, n).table, p, s.table[p].interfaces + [n])
  {
    AddedObject(s, p, n);
  }

  lemma RemoveLists(s: State, p: Path, n: Name)
    requires p in s.table && n in s.table[p].interfaces
    ensures ListsBut(s.table, RemoveInterface(s, p, n).table, p, Without(s.table[p].interfaces, n))
  {
    RemovedObject(s, p, n);
  }

  // A reference given up: the list goes with the last one.
  lemma UnrefLists(s: State, p: Path, exact: bool)
    requires FullBut(s, p, 1, exact) && (s.table[p].refcount == 1 ==> NoneBelow(s.table, p))
    ensures ListsBut(s.table, ObjectUnref(s, p).table, p, if s.table[p].refcount == 1 then [] else s.table[p].interfaces)
  {
    assert Live(p, s.table[p], 1, exact);
    if s.table[p].refcount == 1 {
      LastIsNotRoot(p, s.table[p], exact);
      var o := Destroyed(s, p, exact);
      GoneLists(s.table, p, o);
    }
  }

  lemma GoneLists(t: Table, p: Path, o: Object)
    requires p in t && o.parent == t[p].parent
    ensures ListsBut(t, WithoutChild(t[p := o], p), p, [])
  {
  }

  // ---------- One call ----------

  lemma RefusedLists(s: State, p: Path, exact: bool)
    requires Full(s, exact) && (p !in s.table ==> NoneBelow(s.table, p))
    ensures SameLists(s.table, ObjectUnref(ObjectRef(s, p), p).table)
  {
    var r := RefLists(s, p, exact);
    UnrefLists(r, p, exact);
    BackAgain(s.table, r.table, ObjectUnref(r, p).table, p);
  }

  lemma BackAgain(t: Table, r: Table, u: Table, p: Path)
    requires ListsBut(t, r, p, FirstList(t, p))
    requires ListsBut(r, u, p, ListAt(t, p))
    ensures SameLists(t, u)
  {
    forall q ensures ListAt(t, q) == ListAt(u, q) {
      if q != p {
        assert ListAt(r, q) == ListAt(t, q);
      }
    }
  }

  lemma AcceptedLists(r: State, p: Path, n: Name, properties: bool) returns (u: State)
    requires p in r.table && n != Properties
    ensures var a := AddInterface(r, p, n);
            u == if properties && Properties !in a.table[p].interfaces then AddInterface(a, p, Properties) else a
    ensures ListsBut(r.table, u.table, p, r.table[p].interfaces + [n]
              + if properties && Properties !in r.table[p].interfaces then [Properties] else [])
  {
    AddLists(r, p, n);
    u := AddInterface(r, p, n);
    if properties && Properties !in u.table[p].interfaces {
      AddLists(u, p, Properties);
      u := AddInterface(u, p, Properties);
    }
  }

  lemma ListsChain(t: Table, r: Table, u: Table, p: Path, first: seq<Name>, list: seq<Name>)
    requires ListsBut(t, r, p, first) && ListsBut(r, u, p, list)
    ensures ListsBut(t, u, p, list)
  {
    forall q | q != p ensures ListAt(u, q) == ListAt(t, q) {
      assert ListAt(r, q) == ListAt(t, q);
    }
  }

  lemma RefOffered(s: State, p: Path, n: Name, r: Table)
    requires ListsBut(s.table, r, p, FirstList(s.table, p)) && p in r && !Builtin(n)
    ensures n in r[p].interfaces <==> Offers(s.table, p, n)
  {
    assert ListAt(r, p) == r[p].interfaces;
  }

  lemma AcceptedRegister(s: State, c: Call, r: State)
    requires c.RegisterCall? && r == ObjectRef(s, c.path) && ListsBut(s.table, r.table, c.path, FirstList(s.table, c.path))
    requires c.usable && c.name !in r.table[c.path].interfaces && !Builtin(c.name)
    ensures ListsBut(s.table, Step(s, c).table, c.path, FirstList(s.table, c.path) + [c.name]
              + if c.properties && Properties !in FirstList(s.table, c.path) then [Properties] else [])
  {
    var u := AcceptedLists(r, c.path, c.name, c.properties);
    assert r.table[c.path].interfaces == FirstList(s.table, c.path);
    assert u == Step(s, c);
    ListsChain(s.table, r.table, u.table, c.path, FirstList(s.table, c.path), ListAt(u.table, c.path));
  }

  lemma RegisterLists(s: State, held: Proxies, c: Call, exact: bool)
    requires c.RegisterCall? && Full(s, exact) && MayRegister(s, c.path, c.name, exact) && Matches(s.table, held)
    ensures ListsBut(s.table, Step(s, c).table, c.path, NextList(ListAt(s.table, c.path), held, c, c.path))
  {
    var p, n := c.path, c.name;
    var r := RefLists(s, p, exact);
    RefOffered(s, p, n, r.table);
    assert (p, n) in held <==> Offers(s.table, p, n);
    if n in r.table[p].interfaces || !c.usable {
      RefusedLists(s, p, exact);
      assert Step(s, c) == ObjectUnref(ObjectRef(s, p), p);
    } else {
      AcceptedRegister(s, c, r);
      SameNext(s, held, c, exact);
    }
  }

  lemma SameNext(s: State, held: Proxies, c: Call, exact: bool)
    requires Full(s, exact) && c.RegisterCall? && AcceptedAt(held, c, c.path)
    ensures NextList(ListAt(s.table, c.path), held, c, c.path) == FirstList(s.table, c.path) + [c.name]
              + if c.properties && Properties !in FirstList(s.table, c.path) then [Properties] else []
  {
    if c.path in s.table {
      assert Live(c.path, s.table[c.path], 0, exact);
    }
  }

  lemma RemovedFull(s: State, p: Path, n: Name, exact: bool) returns (r: State)
    requires Full(s, exact) && MayUnregister(s, p, n) && p in s.table && n in s.table[p].interfaces
    ensures r == RemoveInterface(s, p, n) && FullBut(r, p, 1, exact) && (r.table[p].refcount == 1 ==> NoneBelow(r.table, p))
  {
    r := RemoveInterface(s, p, n);
    Owes(s, p, exact);
    RemoveFull(s, p, n, 0, exact);
    RemovedBelow(s, p, n);
  }

  lemma RemovedStep(s: State, held: Proxies, p: Path, n: Name, exact: bool) returns (r: State)
    requires Full(s, exact) && MayUnregister(s, p, n) && Matches(s.table, held) && Offers(s.table, p, n)
    ensures r == RemoveInterface(s, p, n) && FullBut(r, p, 1, exact) && (r.table[p].refcount == 1 ==> NoneBelow(r.table, p))
    ensures r.table[p].refcount == 1 <==> HeldAt(held, p) == {n}
    ensures ListsBut(s.table, r.table, p, Without(s.table[p].interfaces, n)) && r.table[p].interfaces == Without(s.table[p].interfaces, n)
  {
    r := RemovedFull(s, p, n, exact);
    LastHeld(s, held, p, n, exact);
    RemovedObject(s, p, n);
    RemoveLists(s, p, n);
  }

  lemma UnregisterLists(s: State, held: Proxies, c: Call, exact: bool)
    requires c.UnregisterCall? && Full(s, exact) && MayUnregister(s, c.path, c.name) && Matches(s.table, held)
    ensures ListsBut(s.table, Step(s, c).table, c.path, NextList(ListAt(s.table, c.path), held, c, c.path))
  {
    var p, n := c.path, c.name;
    assert (p, n) in held <==> Offers(s.table, p, n);
    if p in s.table && n in s.table[p].interfaces {
      var list := Without(s.table[p].interfaces, n);
      var r := RemovedStep(s, held, p, n, exact);
      UnrefLists(r, p, exact);
      var next := if r.table[p].refcount == 1 then [] else list;
      ListsChain(s.table, r.table, ObjectUnref(r, p).table, p, list, next);
      assert Step(s, c) == ObjectUnref(r, p);
    }
  }

  lemma StepLists(s: State, held: Proxies, c: Call, p: Path, exact: bool)
    requires Full(s, exact) && Legal(s, c, exact) && Matches(s.table, held)
    ensures ListAt(Step(s, c).table, p) == NextList(ListAt(s.table, p), held, c, p)
  {
    match c
    case RegisterCall(_, _, _, _) => RegisterLists(s, held, c, exact);
    case UnregisterCall(_, _) => UnregisterLists(s, held, c, exact);
    case FlushCall =>
      if Flushable(s) {
        FlushInterfaces(s);
      }
    case IdleCall(_) =>
  }

  // ---------- Every run ----------

  lemma {:induction false} RunLists(s: State, held: Proxies, calls: seq<Call>, p: Path, exact: bool)
    requires Full(s, exact) && LegalRun(s, calls, exact) && Matches(s.table, held)
    ensures ListAt(Run(s, calls).table, p) == ListFrom(ListAt(s.table, p), held, calls, p)
    decreases |calls|
  {
    if calls != [] {
      StepLists(s, held, calls[0], p, exact);
      StepHolds(s, held, calls[0], exact);
      StepFull(s, calls[0], exact);
      RunLists(Step(s, calls[0]), Hold(held, calls[0]), calls[1..], p, exact);
    }
  }

  // The interfaces of every object are those the calls have left it with, in the order they came.
  lemma ListsInEveryRun(calls: seq<Call>, p: Path)
    requires LegalRun(START, calls, false)
    ensures ListAt(Run(START, calls).table, p) == ListOf(calls, p)
  {
    StartFull(false);
    RunLists(START, {(ROOT, ObjectManager)}, calls, p, false);
  }

  // ---------- The server's own interfaces ----------

  // Call i is an accepted registration at p that has properties, and something has been held at p ever since.
  ghost predicate GivenSince(calls: seq<Call>, p: Path, i: nat) {
    && i < |calls| && AcceptedAt(Held(calls[..i]), calls[i], p) && calls[i].properties
    && forall j: nat :: i < j <= |calls| ==> HeldAt(Held(calls[..j]), p) != {}
  }

  ghost predicate Given(calls: seq<Call>, p: Path) {
    exists i: nat :: GivenSince(calls, p, i)
  }

  ghost predicate NamesOnly(calls: seq<Call>) {
    forall i :: 0 <= i < |calls| && (calls[i].RegisterCall? || calls[i].UnregisterCall?) ==> !Builtin(calls[i].name)
  }

  lemma HeldOf(calls: seq<Call>, c: Call)
    ensures Held(calls + [c]) == Hold(Held(calls), c)
  {
    HeldNext({(ROOT, ObjectManager)}, calls, c);
  }

  lemma {:induction false} ListNext(list: seq<Name>, held: Proxies, calls: seq<Call>, c: Call, p: Path)
    ensures ListFrom(list, held, calls + [c], p) == NextList(ListFrom(list, held, calls, p), HoldAll(held, calls), c, p)
    decreases |calls|
  {
    if calls == [] {
      assert calls + [c] == [c] && [c][1..] == [];
    } else {
      assert (calls + [c])[1..] == calls[1..] + [c];
      ListNext(NextList(list, held, calls[0], p), Hold(held, calls[0]), calls[1..], c, p);
    }
  }

  lemma GivenBefore(calls: seq<Call>, c: Call, p: Path, i: nat)
    requires i < |calls|
    ensures GivenSince(calls + [c], p, i) <==> GivenSince(calls, p, i) && HeldAt(Held(calls + [c]), p) != {}
  {
    var all := calls + [c];
    assert all[..i] == calls[..i] && all[..|all|] == all;
    forall j: nat | j <= |calls| ensures all[..j] == calls[..j] {
    }
    if GivenSince(all, p, i) {
      forall j: nat | i < j <= |calls| ensures HeldAt(Held(calls[..j]), p) != {} {
        assert all[..j] == calls[..j];
      }
    }
    if GivenSince(calls, p, i) && HeldAt(Held(all), p) != {} {
      forall j: nat | i < j <= |all| ensures HeldAt(Held(all[..j]), p) != {} {
        if j <= |calls| {
          assert all[..j] == calls[..j];
        }
      }
    }
  }

  lemma GivenNow(calls: seq<Call>, c: Call, p: Path)
    ensures GivenSince(calls + [c], p, |calls|) <==>
            AcceptedAt(Held(calls), c, p) && c.properties && HeldAt(Held(calls + [c]), p) != {}
  {
    var all := calls + [c];
    assert all[..|calls|] == calls && all[..|all|] == all;
  }

  lemma GivenNext(calls: seq<Call>, c: Call, p: Path)
    ensures Given(calls + [c], p) <==>
            (Given(calls, p) || (AcceptedAt(Held(calls), c, p) && c.properties)) && HeldAt(Held(calls + [c]), p) != {}
  {
    var all := calls + [c];
    GivenNow(calls, c, p);
    if i: nat :| GivenSince(all, p, i) {
      if i < |calls| {
        GivenBefore(calls, c, p, i);
      }
    }
    if i: nat :| GivenSince(calls, p, i) {
      GivenBefore(calls, c, p, i);
    }
  }

  lemma GivenIsHeld(calls: seq<Call>, p: Path)
    requires Given(calls, p)
    ensures HeldAt(Held(calls), p) != {}
  {
    assert calls[..|calls|] == calls;
  }

  lemma {:induction false} WithoutOther(s: seq<Name>, n: Name, m: Name)
    requires n != m
    ensures m in Without(s, n) <==> m in s
  {
    if s != [] && s[0] != n {
      WithoutOther(s[1..], n, m);
      assert s == [s[0]] + s[1..];
    } else if s != [] {
      assert s == [n] + s[1..];
    }
  }

  // What one call does to the holdings at p.
  lemma HeldAtNext(held: Proxies, c: Call, p: Path)
    ensures AcceptedAt(held, c, p) ==> HeldAt(Hold(held, c), p) != {}
    ensures c.UnregisterCall? && c.path == p && (p, c.name) in held ==>
            (HeldAt(Hold(held, c), p) == {} <==> HeldAt(held, p) == {c.name})
    ensures !AcceptedAt(held, c, p) && !(c.UnregisterCall? && c.path == p && (p, c.name) in held) ==>
            HeldAt(Hold(held, c), p) == HeldAt(held, p)
  {
    if AcceptedAt(held, c, p) {
      assert (p, c.name) in Hold(held, c);
      assert c.name in HeldAt(Hold(held, c), p);
    } else if c.UnregisterCall? && c.path == p && (p, c.name) in held {
      assert HeldAt(Hold(held, c), p) == HeldAt(held, p) - {c.name};
      assert c.name in HeldAt(held, p);
    }
  }

  lemma NextHasProperties(list: seq<Name>, held: Proxies, c: Call, p: Path)
    requires (c.RegisterCall? || c.UnregisterCall?) ==> !Builtin(c.name)
    requires Properties in list ==> HeldAt(held, p) != {}
    ensures Properties in NextList(list, held, c, p) <==>
            (Properties in list || (AcceptedAt(held, c, p) && c.properties)) && HeldAt(Hold(held, c), p) != {}
  {
    HeldAtNext(held, c, p);
    if c.UnregisterCall? {
      WithoutOther(list, c.name, Properties);
    }
  }

  lemma {:induction false} PropertiesIffGiven(calls: seq<Call>, p: Path)
    requires NamesOnly(calls)
    ensures Properties in ListOf(calls, p) <==> Given(calls, p)
  {
    if calls != [] {
      var n := |calls| - 1;
      var before, c := calls[..n], calls[n];
      assert calls == before + [c];
      PropertiesIffGiven(before, p);
      ListNext(if p == ROOT then [Introspectable, ObjectManager] else [], {(ROOT, ObjectManager)}, before, c, p);
      if Given(before, p) {
        GivenIsHeld(before, p);
      }
      NextHasProperties(ListOf(before, p), Held(before), c, p);
      GivenNext(before, c, p);
      HeldOf(before, c);
    }
  }

  lemma {:induction false} FirstInList(list: seq<Name>, held: Proxies, calls: seq<Call>, p: Path)
    requires NamesOnly(calls) && (list == [] || list[0] == Introspectable)
    ensures var now := ListFrom(list, held, calls, p); now == [] || now[0] == Introspectable
    decreases |calls|
  {
    if calls != [] {
      FirstInList(NextList(list, held, calls[0], p), Hold(held, calls[0]), calls[1..], p);
    }
  }

  lemma {:induction false} LegalNames(s: State, calls: seq<Call>, exact: bool)
    requires LegalRun(s, calls, exact)
    ensures NamesOnly(calls)
    decreases |calls|
  {
    if calls != [] {
      LegalNames(Step(s, calls[0]), calls[1..], exact);
    }
  }

  // Every object has Introspectable, before all else. It has Properties exactly when a registration with
  // properties was accepted there and something has been held there ever since.
  lemma BuiltinsInEveryRun(calls: seq<Call>, p: Path)
    requires LegalRun(START, calls, false) && p in Run(START, calls).table
    ensures var list := Run(START, calls).table[p].interfaces;
            list != [] && list[0] == Introspectable && (Properties in list <==> Given(calls, p))
  {
    ListsInEveryRun(calls, p);
    LegalNames(START, calls, false);
    PropertiesIffGiven(calls, p);
    FirstInList(if p == ROOT then [Introspectable, ObjectManager] else [], {(ROOT, ObjectManager)}, calls, p);
    RunMatches(calls, false);
    assert Live(p, Run(START, calls).table[p], 0, false);
  }
}
