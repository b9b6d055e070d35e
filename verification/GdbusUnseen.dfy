/**
 * What is said on the bus at all: an interface is mentioned exactly if it is held when its object is
 * looked at, so one that comes and goes between two flushes is never seen.
 */
module GdbusUnseen {
  import opened Lists
  import opened Wrappers
  import opened GdbusObjects
  import opened GdbusCore
  import opened GdbusTree
  import opened GdbusRuns
  import opened GdbusMirror
  import opened GdbusManaged
  import opened GdbusHeld

  predicate Mentions(x: Signal, p: Path, n: Name) {
    x.path == p && n in x.names
  }

  // Some signal from position k on, of either kind, names the interface n of p.
  predicate Mentioned(bus: seq<Signal>, k: nat, p: Path, n: Name) {
    exists i :: k <= i < |bus| && Mentions(bus[i], p, n)
  }

  // A call that looks at the object p: a flush, or its own idle callback.
  predicate Tells(c: Call, p: Path) {
    p != ROOT && (c == FlushCall || c == IdleCall(p))
  }

  // Some call that looks at p comes while n is held there.
  predicate HeldWhenTold(held: Proxies, calls: seq<Call>, p: Path, n: Name)
    decreases |calls|
  {
    calls != []
    && ((Tells(calls[0], p) && (p, n) in held) || HeldWhenTold(Hold(held, calls[0]), calls[1..], p, n))
  }

  // ---------- The history of one interface ----------

  ghost predicate ToldOf(o: Object, n: Name) {
    n in o.removed || (n in o.interfaces && n !in o.added)
  }

  // The interface has been mentioned exactly if told, and is not mentioned for the first time when removed.
  ghost predicate History(s: State, k: nat, p: Path, n: Name, told: bool) {
    k <= |s.bus| && (Mentioned(s.bus, k, p, n) <==> told)
    && (p == ROOT ==> !told) && (p != ROOT && p in s.table && ToldOf(s.table[p], n) ==> told)
  }

  lemma SameHistory(s: State, r: State, k: nat, p: Path, n: Name, told: bool)
    requires History(s, k, p, n, told) && r.bus == s.bus
    requires p in r.table ==> ToldOf(r.table[p], n) ==> p in s.table && ToldOf(s.table[p], n)
    ensures History(r, k, p, n, told)
  {
  }

  lemma AddHistory(s: State, q: Path, m: Name, k: nat, p: Path, n: Name, told: bool)
    requires q in s.table && ObjectOk(q, s.table[q]) && History(s, k, p, n, told)
    ensures History(AddInterface(s, q, m), k, p, n, told)
  {
    if p != ROOT {
      SameHistory(s, AddInterface(s, q, m), k, p, n, told);
    }
  }

  lemma RemoveHistory(s: State, q: Path, m: Name, k: nat, p: Path, n: Name, told: bool)
    requires q in s.table && ObjectOk(q, s.table[q]) && History(s, k, p, n, told)
    ensures History(RemoveInterface(s, q, m), k, p, n, told)
  {
    if m in s.table[q].interfaces {
      WithoutMembers(s.table[q].interfaces, m);
      WithoutMembers(s.table[q].added, m);
    }
  }

  lemma MentionedMore(bus: seq<Signal>, more: seq<Signal>, k: nat, p: Path, n: Name)
    requires k <= |bus|
    ensures Mentioned(bus + more, k, p, n) <==> Mentioned(bus, k, p, n) || Mentioned(more, 0, p, n)
  {
    var all := bus + more;
    if i :| k <= i < |bus| && Mentions(bus[i], p, n) {
      assert Mentions(all[i], p, n);
    }
    if i :| 0 <= i < |more| && Mentions(more[i], p, n) {
      assert Mentions(all[|bus| + i], p, n);
    }
    if i :| k <= i < |all| && Mentions(all[i], p, n) && i >= |bus| {
      assert Mentions(more[i - |bus|], p, n);
    }
  }

  lemma MentionedOne(x: Signal, p: Path, n: Name)
    ensures Mentioned([x], 0, p, n) <==> Mentions(x, p, n)
  {
    assert [x][0] == x;
  }

  lemma MentionedAnnounced(q: Path, o: Object, p: Path, n: Name)
    ensures Mentioned(Announced(q, o), 0, p, n) <==> q != ROOT && q == p && (n in o.added || n in o.removed)
  {
    if q != ROOT {
      MentionedMore(AddedSignal(q, o.added), RemovedSignal(q, o.removed), 0, p, n);
      MentionedOne(InterfacesAdded(q, o.added), p, n);
      MentionedOne(InterfacesRemoved(q, o.removed), p, n);
    }
  }

  // Looking at an object mentions what it then has, if that was not mentioned before.
  lemma ProcessHistory(s: State, q: Path, k: nat, p: Path, n: Name, told: bool)
    requires q in s.table && ObjectOk(q, s.table[q]) && History(s, k, p, n, told)
    ensures History(ProcessChanges(s, q), k, p, n, told || (p != ROOT && q == p && n in s.table[p].interfaces))
  {
    MentionedMore(s.bus, Announced(q, s.table[q]), k, p, n);
    MentionedAnnounced(q, s.table[q], p, n);
  }

  // ---------- References ----------

  lemma RefHistory(s: State, q: Path, k: nat, p: Path, n: Name, told: bool)
    requires q in s.table || (Nested(s.table) && NoneBelow(s.table, q) && q != ROOT)
    requires !Builtin(n) && History(s, k, p, n, told)
    ensures History(ObjectRef(s, q), k, p, n, told)
  {
    if q in s.table {
      SameHistory(s, ObjectRef(s, q), k, p, n, told);
    } else {
      AdoptNew(s.table, q);
      var s1 := s.(table := WithChild(s.table, q, Nearest(s.table, q).value));
      SameHistory(s, s1, k, p, n, told);
      assert ObjectRef(s, q) == AddInterface(s1, q, Introspectable);
      NewHistory(s1, q, k, p, n, told);
    }
  }

  lemma NewHistory(s: State, q: Path, k: nat, p: Path, n: Name, told: bool)
    requires q in s.table && s.table[q].(parent := None) == NEW_OBJECT && q != ROOT
    requires !Builtin(n) && History(s, k, p, n, told)
    ensures History(AddInterface(s, q, Introspectable), k, p, n, told)
  {
    var r := AddInterface(s, q, Introspectable);
    AddedObject(s, q, Introspectable);
    SameHistory(s, r, k, p, n, told);
  }

  lemma StrippedHistory(s: State, q: Path, exact: bool, k: nat, p: Path, n: Name, told: bool)
    requires Core(s, exact) && Nested(s.table) && q in s.table && History(s, k, p, n, told)
    ensures History(Stripped(s, q), k, p, n, told)
  {
    var s1 := Put(s, q, s.table[q].(refcount := 0));
    SameHistory(s, s1, k, p, n, told);
    NoCount(s, q, exact);
    assert ObjectOk(q, s1.table[q]);
    RemoveHistory(s1, q, Introspectable, k, p, n, told);
    StripOne(s1, q, Introspectable, exact);
    var s2 := RemoveInterface(s1, q, Introspectable);
    assert ObjectOk(q, s2.table[q]);
    RemoveHistory(s2, q, Properties, k, p, n, told);
  }

  // An object that goes has no interface left to mention, only removals.
  lemma BareHistory(s: State, q: Path, k: nat, p: Path, n: Name, told: bool)
    requires q in s.table && ObjectOk(q, s.table[q]) && s.table[q].interfaces == [] && History(s, k, p, n, told)
    ensures var r := if s.table[q].queued then ProcessChanges(s, q) else s;
            q in r.table && History(r.(table := Orphaned(r.table, q) - {q}), k, p, n, told)
  {
    ProcessHistory(s, q, k, p, n, told);
    var r := if s.table[q].queued then ProcessChanges(s, q) else s;
    SameHistory(r, r.(table := Orphaned(r.table, q) - {q}), k, p, n, told);
  }

  lemma DestroyHistory(s: State, q: Path, exact: bool, k: nat, p: Path, n: Name, told: bool)
    requires Core(s, exact) && Nested(s.table) && q in s.table && q != ROOT && s.table[q].interfaces == []
    requires History(s, k, p, n, told)
    ensures History(Destroy(s, q), k, p, n, told)
  {
    UnlinkedSelf(s.table, q);
    var s1 := s.(table := Unlinked(s.table, q));
    SameHistory(s, s1, k, p, n, told);
    assert ObjectOk(q, s.table[q]);
    BareHistory(s1, q, k, p, n, told);
  }

  lemma LastHistory(s: State, q: Path, exact: bool, k: nat, p: Path, n: Name, told: bool)
    requires FullBut(s, q, 1, exact) && s.table[q].refcount == 1 && NoneBelow(s.table, q) && History(s, k, p, n, told)
    ensures History(ObjectUnref(s, q), k, p, n, told)
  {
    LastIsNotRoot(q, s.table[q], exact);
    StrippedBare(s, q, exact);
    BareDestroyed(Stripped(s, q), q, exact);
    LastUnref(s, q);
    StrippedHistory(s, q, exact, k, p, n, told);
    DestroyHistory(Stripped(s, q), q, exact, k, p, n, told);
  }

  lemma UnrefHistory(s: State, q: Path, exact: bool, k: nat, p: Path, n: Name, told: bool)
    requires FullBut(s, q, 1, exact) && (s.table[q].refcount == 1 ==> NoneBelow(s.table, q)) && History(s, k, p, n, told)
    ensures History(ObjectUnref(s, q), k, p, n, told)
  {
    assert Live(q, s.table[q], 1, exact);
    if s.table[q].refcount == 1 {
      LastHistory(s, q, exact, k, p, n, told);
    } else {
      SameHistory(s, ObjectUnref(s, q), k, p, n, told);
    }
  }

  // ---------- Calls ----------

  lemma RefusedHistory(s: State, q: Path, exact: bool, k: nat, p: Path, n: Name, told: bool)
    requires Full(s, exact) && (q !in s.table ==> NoneBelow(s.table, q)) && !Builtin(n) && History(s, k, p, n, told)
    ensures History(ObjectUnref(ObjectRef(s, q), q), k, p, n, told)
  {
    RefHistory(s, q, k, p, n, told);
    RefObject(s, q, exact);
    if q in s.table {
      assert Live(q, s.table[q], 0, exact);
    }
    RefLast(s, q);
    UnrefHistory(ObjectRef(s, q), q, exact, k, p, n, told);
  }

  lemma AcceptedHistory(s: State, q: Path, m: Name, properties: bool, exact: bool, k: nat, p: Path, n: Name, told: bool)
    requires FullBut(s, q, 1, exact) && m !in s.table[q].interfaces && History(s, k, p, n, told)
    ensures var r := AddInterface(s, q, m);
            History(if properties && Properties !in r.table[q].interfaces then AddInterface(r, q, Properties) else r,
                    k, p, n, told)
  {
    assert ObjectOk(q, s.table[q]);
    AddHistory(s, q, m, k, p, n, told);
    AddedCore(s, q, m, exact);
    var r := AddInterface(s, q, m);
    if properties && Properties !in r.table[q].interfaces {
      assert ObjectOk(q, r.table[q]);
      AddHistory(r, q, Properties, k, p, n, told);
    }
  }

  lemma RegisterHistory(s: State, q: Path, m: Name, usable: bool, properties: bool, exact: bool,
                        k: nat, p: Path, n: Name, told: bool)
    requires Full(s, exact) && MayRegister(s, q, m, exact) && !Builtin(n) && History(s, k, p, n, told)
    ensures History(Register(s, q, m, usable, properties).0, k, p, n, told)
  {
    var r := ObjectRef(s, q);
    if m in r.table[q].interfaces || !usable {
      RefusedHistory(s, q, exact, k, p, n, told);
    } else {
      RefHistory(s, q, k, p, n, told);
      RefObject(s, q, exact);
      AcceptedHistory(r, q, m, properties, exact, k, p, n, told);
    }
  }

  lemma UnregisterHistory(s: State, q: Path, m: Name, exact: bool, k: nat, p: Path, n: Name, told: bool)
    requires Full(s, exact) && MayUnregister(s, q, m) && History(s, k, p, n, told)
    ensures History(Unregister(s, q, m).0, k, p, n, told)
  {
    if q in s.table && m in s.table[q].interfaces {
      assert ObjectOk(q, s.table[q]);
      RemoveHistory(s, q, m, k, p, n, told);
      Owes(s, q, exact);
      RemoveFull(s, q, m, 0, exact);
      RemovedBelow(s, q, m);
      UnrefHistory(RemoveInterface(s, q, m), q, exact, k, p, n, told);
    }
  }

  lemma {:induction false} FlushHistory(s: State, k: nat, p: Path, n: Name, told: bool)
    requires Waiting(s) && History(s, k, p, n, told)
    ensures History(Flush(s), k, p, n, told || (p != ROOT && p in s.pending && n in s.table[p].interfaces))
    decreases |s.pending|
  {
    if s.pending != [] {
      var q := s.pending[0];
      assert ObjectOk(q, s.table[q]);
      ProcessHistory(s, q, k, p, n, told);
      WaitingNext(s);
      FlushHistory(ProcessChanges(s, q), k, p, n, told || (p != ROOT && q == p && n in s.table[p].interfaces));
    }
  }

  // An object that does not wait has nothing left to mention.
  lemma QuietHistory(s: State, k: nat, p: Path, n: Name, told: bool)
    requires p != ROOT && p in s.table && ObjectOk(p, s.table[p]) && !s.table[p].queued && History(s, k, p, n, told)
    ensures n in s.table[p].interfaces ==> told
  {
  }

  lemma FlushCallHistory(s: State, exact: bool, k: nat, p: Path, n: Name, told: bool)
    requires Full(s, exact) && History(s, k, p, n, told)
    ensures Flushable(s) && History(Flush(s), k, p, n, told || (p != ROOT && p in s.table && n in s.table[p].interfaces))
  {
    FlushHistory(s, k, p, n, told);
    if p != ROOT && p in s.table && p !in s.pending {
      QuietHistory(s, k, p, n, told);
    }
  }

  lemma IdleHistory(s: State, q: Path, exact: bool, k: nat, p: Path, n: Name, told: bool)
    requires Full(s, exact) && History(s, k, p, n, told)
    ensures History(Step(s, IdleCall(q)), k, p, n,
                    told || (p != ROOT && q == p && p in s.table && n in s.table[p].interfaces))
  {
    if q in s.table {
      assert ObjectOk(q, s.table[q]);
      ProcessHistory(s, q, k, p, n, told);
      if p != ROOT && q == p && !s.table[p].queued {
        QuietHistory(s, k, p, n, told);
      }
    }
  }

  lemma StepHistory(s: State, c: Call, k: nat, p: Path, n: Name, told: bool)
    requires Full(s, false) && Legal(s, c, false) && !Builtin(n) && History(s, k, p, n, told)
    ensures History(Step(s, c), k, p, n, told || (Tells(c, p) && Offers(s.table, p, n)))
  {
    match c
    case RegisterCall(q, m, usable, properties) => RegisterHistory(s, q, m, usable, properties, false, k, p, n, told);
    case UnregisterCall(q, m) => UnregisterHistory(s, q, m, false, k, p, n, told);
    case FlushCall => FlushCallHistory(s, false, k, p, n, told);
    case IdleCall(q) => IdleHistory(s, q, false, k, p, n, told);
  }

  // ---------- Every run ----------

  lemma {:induction false} RunHistory(s: State, held: Proxies, calls: seq<Call>, k: nat, p: Path, n: Name, told: bool)
    requires Full(s, false) && LegalRun(s, calls, false) && Matches(s.table, held)
    requires !Builtin(n) && History(s, k, p, n, told)
    ensures History(Run(s, calls), k, p, n, told || HeldWhenTold(held, calls, p, n))
    decreases |calls|
  {
    if calls != [] {
      StepHistory(s, calls[0], k, p, n, told);
      StepHolds(s, held, calls[0], false);
      StepFull(s, calls[0], false);
      RunHistory(Step(s, calls[0]), Hold(held, calls[0]), calls[1..], k, p, n,
                 told || (Tells(calls[0], p) && (p, n) in held));
    }
  }

  // From any state in which the client has not been told of the interface: whatever is called, a signal
  // mentions it if and only if it is held at some flush or idle call of its object.
  lemma SeenIffHeldWhenTold(s: State, held: Proxies, calls: seq<Call>, p: Path, n: Name)
    requires Full(s, false) && LegalRun(s, calls, false) && Matches(s.table, held) && !Builtin(n)
    requires p in s.table && p != ROOT ==> !ToldOf(s.table[p], n)
    ensures |s.bus| <= |Run(s, calls).bus|
    ensures Mentioned(Run(s, calls).bus, |s.bus|, p, n) <==> HeldWhenTold(held, calls, p, n)
  {
    RunHistory(s, held, calls, |s.bus|, p, n, false);
  }

  // So from the start, in every run, by its calls alone.
  lemma SeenInEveryRun(calls: seq<Call>, p: Path, n: Name)
    requires LegalRun(START, calls, false) && !Builtin(n)
    ensures Mentioned(Run(START, calls).bus, 0, p, n) <==> HeldWhenTold({(ROOT, ObjectManager)}, calls, p, n)
  {
    StartFull(false);
    SeenIffHeldWhenTold(START, {(ROOT, ObjectManager)}, calls, p, n);
  }

  lemma AcceptedKeeps(s: State, p: Path, n: Name, properties: bool)
    requires p in s.table
    ensures var r := AddInterface(s, p, n);
            var u := if properties && Properties !in r.table[p].interfaces then AddInterface(r, p, Properties) else r;
            u.table.Keys == s.table.Keys && u.table[p].refcount == s.table[p].refcount
  {
  }

  // What was registered may be removed.
  lemma RegisteredMayGo(s: State, p: Path, n: Name, properties: bool)
    requires Full(s, false) && MayRegister(s, p, n, false) && !Offers(s.table, p, n)
    ensures MayUnregister(Register(s, p, n, true, properties).0, p, n)
  {
    assert ROOT in s.table && Live(ROOT, s.table[ROOT], 0, false);
    if p in s.table {
      assert Live(p, s.table[p], 0, false);
    }
    RefLast(s, p);
    RefOffers(s, p);
    assert n !in ObjectRef(s, p).table[p].interfaces;
    AcceptedKeeps(ObjectRef(s, p), p, n, properties);
  }

  lemma UnheldFlush(s: State, k: nat, p: Path, n: Name)
    requires Full(s, false) && !Builtin(n) && !Offers(s.table, p, n) && History(s, k, p, n, false)
    ensures Flushable(s) && !Mentioned(Flush(s).bus, k, p, n)
  {
    FlushCallHistory(s, false, k, p, n, false);
  }

  // An interface registered, removed again, and then flushed is in no signal sent since.
  lemma NeverSeen(s: State, p: Path, n: Name, properties: bool)
    requires Full(s, false) && MayRegister(s, p, n, false)
    requires p in s.table ==> n !in s.table[p].interfaces && n !in s.table[p].removed
    ensures var (r, ok) := Register(s, p, n, true, properties);
            var (u, gone) := Unregister(r, p, n);
            ok && gone && Flushable(u) && !Mentioned(Flush(u).bus, |s.bus|, p, n)
  {
    var k := |s.bus|;
    var r := Register(s, p, n, true, properties).0;
    RegisterHolds(s, p, n, true, properties, false);
    RegisterFull(s, p, n, true, properties, false);
    RegisterHistory(s, p, n, true, properties, false, k, p, n, false);
    RegisteredMayGo(s, p, n, properties);
    UnregisterHolds(r, p, n, false);
    UnregisterFull(r, p, n, false);
    UnregisterHistory(r, p, n, false, k, p, n, false);
    UnheldFlush(Unregister(r, p, n).0, k, p, n);
  }
}
