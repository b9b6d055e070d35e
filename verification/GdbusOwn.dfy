/**
 * What the bus tells of the server's own interfaces, Introspectable and Properties. They get no proxy, so the
 * client's view says nothing of them; here every name in every signal counts.
 */
module GdbusOwn {
  import opened Lists
  import opened GdbusObjects
  import opened GdbusCore
  import opened GdbusTree
  import opened GdbusRuns
  import opened GdbusMirror
  import opened GdbusHeld
  import opened GdbusLists

  // The last signal that names n at p has added it.
  predicate Heard(bus: seq<Signal>, p: Path, n: Name) {
    if bus == [] then false
    else
      var last := bus[|bus| - 1];
      if last.path == p && n in last.names then last.InterfacesAdded? else Heard(bus[..|bus| - 1], p, n)
  }

  lemma HeardNext(bus: seq<Signal>, signal: Signal, p: Path, n: Name)
    ensures Heard(bus + [signal], p, n) <==>
            if signal.path == p && n in signal.names then signal.InterfacesAdded? else Heard(bus, p, n)
  {
    assert (bus + [signal])[..|bus|] == bus;
  }

  lemma HeardAnnounced(bus: seq<Signal>, q: Path, o: Object, p: Path, n: Name)
    ensures Heard(bus + Announced(q, o), p, n) <==>
            if q == p && p != ROOT then (Heard(bus, p, n) || n in o.added) && n !in o.removed else Heard(bus, p, n)
  {
    if q == ROOT {
      assert bus + Announced(q, o) == bus;
    } else {
      HeardAdded(bus, q, o.added, p, n);
      HeardRemoved(bus + AddedSignal(q, o.added), q, o.removed, p, n);
      assert bus + Announced(q, o) == bus + AddedSignal(q, o.added) + RemovedSignal(q, o.removed);
    }
  }

  lemma HeardAdded(bus: seq<Signal>, q: Path, names: seq<Name>, p: Path, n: Name)
    ensures Heard(bus + AddedSignal(q, names), p, n) <==> Heard(bus, p, n) || (q == p && n in names)
  {
    if names == [] {
      assert bus + AddedSignal(q, names) == bus;
    } else {
      HeardNext(bus, InterfacesAdded(q, names), p, n);
    }
  }

  lemma HeardRemoved(bus: seq<Signal>, q: Path, names: seq<Name>, p: Path, n: Name)
    ensures Heard(bus + RemovedSignal(q, names), p, n) <==> Heard(bus, p, n) && !(q == p && n in names)
  {
    if names == [] {
      assert bus + RemovedSignal(q, names) == bus;
    } else {
      HeardNext(bus, InterfacesRemoved(q, names), p, n);
    }
  }

  // ---------- The invariant, for one name of one object ----------

  datatype Status = Status(has: bool, added: bool, removed: bool)

  ghost function StatusOf(t: Table, p: Path, n: Name): Status {
    if p in t then Status(n in t[p].interfaces, n in t[p].added, n in t[p].removed) else Status(false, false, false)
  }

  // It has been told and not untold.
  ghost predicate Knows(s: State, p: Path, n: Name) {
    var x := StatusOf(s.table, p, n);
    Heard(s.bus, p, n) <==> p != ROOT && ((x.has && !x.added) || x.removed)
  }

  // No removal waits.
  ghost predicate Steady(s: State, p: Path, n: Name) {
    Knows(s, p, n) && !StatusOf(s.table, p, n).removed
  }

  lemma SameKnows(s: State, r: State, p: Path, n: Name)
    requires Knows(s, p, n) && r.bus == s.bus && StatusOf(r.table, p, n) == StatusOf(s.table, p, n)
    ensures Knows(r, p, n)
  {
  }

  lemma AddKnows(s: State, q: Path, m: Name, p: Path, n: Name)
    requires q in s.table && ObjectOk(q, s.table[q]) && m !in s.table[q].interfaces && Knows(s, p, n)
    ensures Knows(AddInterface(s, q, m), p, n)
    ensures StatusOf(AddInterface(s, q, m).table, p, n).removed == StatusOf(s.table, p, n).removed
  {
  }

  lemma RemovedStatus(s: State, q: Path, m: Name, p: Path, n: Name)
    requires q in s.table && ObjectOk(q, s.table[q]) && m in s.table[q].interfaces
    ensures var x, y := StatusOf(s.table, p, n), StatusOf(RemoveInterface(s, q, m).table, p, n);
            if p != q || n != m then y == x
            else !y.has && !y.added && (p != ROOT ==> y.removed == (x.removed || !x.added))
  {
    RemovedObject(s, q, m);
    WithoutMembers(s.table[q].interfaces, m);
    WithoutMembers(s.table[q].added, m);
  }

  lemma RemoveKnows(s: State, q: Path, m: Name, p: Path, n: Name)
    requires q in s.table && ObjectOk(q, s.table[q]) && Knows(s, p, n)
    ensures Knows(RemoveInterface(s, q, m), p, n)
    ensures n != m ==> StatusOf(RemoveInterface(s, q, m).table, p, n) == StatusOf(s.table, p, n)
  {
    if m in s.table[q].interfaces {
      RemovedStatus(s, q, m, p, n);
      assert RemoveInterface(s, q, m).bus == s.bus;
    }
  }

  lemma ProcessKnows(s: State, q: Path, p: Path, n: Name)
    requires q in s.table && ObjectOk(q, s.table[q]) && Knows(s, p, n)
    requires q == p && n in s.table[q].removed ==> n !in s.table[q].interfaces
    ensures Knows(ProcessChanges(s, q), p, n)
    ensures q != p ==> StatusOf(ProcessChanges(s, q).table, p, n) == StatusOf(s.table, p, n)
    ensures q == p && p != ROOT ==> !StatusOf(ProcessChanges(s, q).table, p, n).removed
  {
    HeardAnnounced(s.bus, q, s.table[q], p, n);
  }

  // ---------- References ----------

  lemma NewSteady(s: State, q: Path, p: Path, n: Name)
    requires q in s.table && ObjectOk(q, s.table[q]) && s.table[q].interfaces == [] && Steady(s, p, n)
    ensures Steady(AddInterface(s, q, Introspectable), p, n)
  {
    AddKnows(s, q, Introspectable, p, n);
  }

  lemma ChildKnows(s: State, q: Path, above: Path, p: Path, n: Name)
    requires q !in s.table && q != ROOT && above in s.table && Steady(s, p, n)
    ensures var s1 := s.(table := WithChild(s.table, q, above));
            Steady(s1, p, n) && ObjectOk(q, s1.table[q]) && s1.table[q].interfaces == []
  {
    SameKnows(s, s.(table := WithChild(s.table, q, above)), p, n);
  }

  lemma RefSteady(s: State, q: Path, p: Path, n: Name)
    requires q in s.table || (Nested(s.table) && NoneBelow(s.table, q) && q != ROOT)
    requires Steady(s, p, n)
    ensures Steady(ObjectRef(s, q), p, n)
  {
    if q in s.table {
      SameKnows(s, ObjectRef(s, q), p, n);
    } else {
      AdoptNew(s.table, q);
      var above := Nearest(s.table, q).value;
      var s1 := s.(table := WithChild(s.table, q, above));
      ChildKnows(s, q, above, p, n);
      assert ObjectRef(s, q) == AddInterface(s1, q, Introspectable);
      NewSteady(s1, q, p, n);
    }
  }

  lemma StrippedKnows(s: State, q: Path, exact: bool, p: Path, n: Name)
    requires Core(s, exact) && Nested(s.table) && q in s.table && Knows(s, p, n)
    ensures Knows(Stripped(s, q), p, n)
  {
    var s1 := Put(s, q, s.table[q].(refcount := 0));
    SameKnows(s, s1, p, n);
    NoCount(s, q, exact);
    assert ObjectOk(q, s1.table[q]);
    RemoveKnows(s1, q, Introspectable, p, n);
    StripOne(s1, q, Introspectable, exact);
    var s2 := RemoveInterface(s1, q, Introspectable);
    assert ObjectOk(q, s2.table[q]);
    RemoveKnows(s2, q, Properties, p, n);
  }

  // An object without interfaces goes, and is known by nothing.
  lemma GoneStatus(t: Table, q: Path, p: Path, n: Name)
    requires q in t
    ensures StatusOf(Orphaned(t, q) - {q}, p, n) == if p == q then Status(false, false, false) else StatusOf(t, p, n)
  {
  }

  lemma GoneKnows(r: State, q: Path, p: Path, n: Name)
    requires q in r.table && r.table[q].interfaces == [] && r.table[q].removed == [] && Knows(r, p, n)
    ensures Knows(r.(table := Orphaned(r.table, q) - {q}), p, n)
  {
    GoneStatus(r.table, q, p, n);
  }

  lemma DeleteKnows(s: State, q: Path, p: Path, n: Name) returns (r: State)
    requires q in s.table && q != ROOT && ObjectOk(q, s.table[q]) && s.table[q].interfaces == [] && Knows(s, p, n)
    ensures r == (if s.table[q].queued then ProcessChanges(s, q) else s) && q in r.table
    ensures Knows(r.(table := Orphaned(r.table, q) - {q}), p, n)
  {
    ProcessKnows(s, q, p, n);
    r := if s.table[q].queued then ProcessChanges(s, q) else s;
    GoneKnows(r, q, p, n);
  }

  lemma DestroyKnows(s: State, q: Path, p: Path, n: Name)
    requires Nested(s.table) && q in s.table && q != ROOT && ObjectOk(q, s.table[q]) && s.table[q].interfaces == [] && Knows(s, p, n)
    ensures Knows(Destroy(s, q), p, n)
  {
    UnlinkedSelf(s.table, q);
    var s1 := s.(table := Unlinked(s.table, q));
    SameKnows(s, s1, p, n);
    var r := DeleteKnows(s1, q, p, n);
  }

  lemma LastKnows(s: State, q: Path, exact: bool, p: Path, n: Name)
    requires FullBut(s, q, 1, exact) && s.table[q].refcount == 1 && NoneBelow(s.table, q) && Knows(s, p, n)
    ensures Knows(ObjectUnref(s, q), p, n)
  {
    LastIsNotRoot(q, s.table[q], exact);
    StrippedBare(s, q, exact);
    BareDestroyed(Stripped(s, q), q, exact);
    LastUnref(s, q);
    StrippedKnows(s, q, exact, p, n);
    assert ObjectOk(q, Stripped(s, q).table[q]);
    DestroyKnows(Stripped(s, q), q, p, n);
  }

  lemma UnrefSteady(s: State, q: Path, exact: bool, p: Path, n: Name)
    requires FullBut(s, q, 1, exact) && (s.table[q].refcount == 1 ==> NoneBelow(s.table, q)) && Steady(s, p, n)
    ensures Steady(ObjectUnref(s, q), p, n)
  {
    assert Live(q, s.table[q], 1, exact);
    if s.table[q].refcount == 1 {
      LastKnows(s, q, exact, p, n);
      LastIsNotRoot(q, s.table[q], exact);
      var o := Destroyed(s, q, exact);
      GoneRemoved(s.table, q, o, p, n);
    } else {
      SameKnows(s, ObjectUnref(s, q), p, n);
    }
  }

  lemma GoneRemoved(t: Table, q: Path, o: Object, p: Path, n: Name)
    requires q in t && o.parent == t[q].parent && !StatusOf(t, p, n).removed
    ensures !StatusOf(WithoutChild(t[q := o], q), p, n).removed
  {
  }

  // ---------- Calls ----------

  lemma RefusedSteady(s: State, q: Path, exact: bool, p: Path, n: Name)
    requires Full(s, exact) && (q !in s.table ==> NoneBelow(s.table, q)) && Steady(s, p, n)
    ensures Steady(ObjectUnref(ObjectRef(s, q), q), p, n)
  {
    var r := RefLists(s, q, exact);
    RootThere(s, exact);
    RefSteady(s, q, p, n);
    UnrefSteady(r, q, exact, p, n);
  }

  lemma RootThere(s: State, exact: bool)
    requires Full(s, exact)
    ensures ROOT in s.table
  {
  }

  lemma AcceptedSteady(r: State, q: Path, m: Name, properties: bool, exact: bool, p: Path, n: Name)
    requires FullBut(r, q, 1, exact) && m !in r.table[q].interfaces && !Builtin(m) && Steady(r, p, n)
    ensures var a := AddInterface(r, q, m);
            Steady(if properties && Properties !in a.table[q].interfaces then AddInterface(a, q, Properties) else a, p, n)
  {
    assert ObjectOk(q, r.table[q]);
    AddKnows(r, q, m, p, n);
    var a := AddInterface(r, q, m);
    AddedCore(r, q, m, exact);
    assert ObjectOk(q, a.table[q]);
    if properties && Properties !in a.table[q].interfaces {
      AddKnows(a, q, Properties, p, n);
    }
  }

  lemma RegisterSteady(s: State, c: Call, exact: bool, p: Path, n: Name)
    requires c.RegisterCall? && Full(s, exact) && MayRegister(s, c.path, c.name, exact) && Steady(s, p, n)
    ensures Steady(Step(s, c), p, n)
  {
    var r := RefLists(s, c.path, exact);
    if c.name in r.table[c.path].interfaces || !c.usable {
      RefusedSteady(s, c.path, exact, p, n);
    } else {
      RootThere(s, exact);
      RefSteady(s, c.path, p, n);
      AcceptedSteady(r, c.path, c.name, c.properties, exact, p, n);
    }
  }

  lemma UnregisterSteady(s: State, c: Call, exact: bool, p: Path, n: Name)
    requires c.UnregisterCall? && Full(s, exact) && MayUnregister(s, c.path, c.name) && Steady(s, p, n) && Builtin(n)
    ensures Steady(Step(s, c), p, n)
  {
    var q, m := c.path, c.name;
    if q in s.table && m in s.table[q].interfaces {
      assert ObjectOk(q, s.table[q]);
      RemoveKnows(s, q, m, p, n);
      Owes(s, q, exact);
      RemoveFull(s, q, m, 0, exact);
      RemovedBelow(s, q, m);
      UnrefSteady(RemoveInterface(s, q, m), q, exact, p, n);
    }
  }

  lemma ProcessSteady(s: State, q: Path, p: Path, n: Name)
    requires q in s.table && ObjectOk(q, s.table[q]) && Steady(s, p, n)
    ensures Steady(ProcessChanges(s, q), p, n)
  {
    ProcessKnows(s, q, p, n);
  }

  lemma {:induction false} FlushSteady(s: State, p: Path, n: Name)
    requires Flushable(s) && (forall q :: q in s.pending ==> ObjectOk(q, s.table[q])) && Steady(s, p, n)
    ensures Steady(Flush(s), p, n)
    decreases |s.pending|
  {
    if s.pending != [] {
      var q := s.pending[0];
      ProcessFirst(s);
      assert q in s.pending;
      ProcessSteady(s, q, p, n);
      FlushSteady(ProcessChanges(s, q), p, n);
    }
  }

  lemma StepSteady(s: State, c: Call, exact: bool, p: Path, n: Name)
    requires Full(s, exact) && Legal(s, c, exact) && Steady(s, p, n) && Builtin(n)
    ensures Steady(Step(s, c), p, n)
  {
    match c
    case RegisterCall(_, _, _, _) => RegisterSteady(s, c, exact, p, n);
    case UnregisterCall(_, _) => UnregisterSteady(s, c, exact, p, n);
    case FlushCall =>
      if Flushable(s) {
        FlushSteady(s, p, n);
      }
    case IdleCall(q) =>
      if q in s.table && s.table[q].queued {
        assert ObjectOk(q, s.table[q]);
        ProcessSteady(s, q, p, n);
      }
  }

  lemma {:induction false} RunSteady(s: State, calls: seq<Call>, exact: bool, p: Path, n: Name)
    requires Full(s, exact) && LegalRun(s, calls, exact) && Steady(s, p, n) && Builtin(n)
    ensures Steady(Run(s, calls), p, n)
    decreases |calls|
  {
    if calls != [] {
      StepSteady(s, calls[0], exact, p, n);
      StepFull(s, calls[0], exact);
      RunSteady(Step(s, calls[0]), calls[1..], exact, p, n);
    }
  }

  // Whenever nothing waits, the bus has told of Introspectable and Properties exactly the objects that have
  // them, but for the manager's.
  lemma OwnToldInEveryRun(calls: seq<Call>, p: Path, n: Name)
    requires LegalRun(START, calls, false) && Run(START, calls).pending == [] && Builtin(n)
    ensures var s := Run(START, calls);
            Heard(s.bus, p, n) <==> p != ROOT && p in s.table && n in s.table[p].interfaces
  {
    StartFull(false);
    RunSteady(START, calls, false, p, n);
    RunMatches(calls, false);
    QuietObjects(Run(START, calls), false);
  }
}
