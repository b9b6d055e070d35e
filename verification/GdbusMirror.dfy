/**
 * Runs of the object server: registering, removing and flushing, in any order a careful caller may
 * choose, keeps references, waiting list, tree and client in step.
 */
module GdbusMirror {
  import opened GdbusObjects
  import opened GdbusCore
  import opened GdbusTree
  import opened GdbusRuns

  datatype Call = RegisterCall(path: Path, name: Name, usable: bool, properties: bool)
                | UnregisterCall(path: Path, name: Name)
                | FlushCall
                | IdleCall(path: Path)

  ghost function Step(s: State, c: Call): State {
    match c
    case RegisterCall(p, n, usable, properties) => Register(s, p, n, usable, properties).0
    case UnregisterCall(p, n) => Unregister(s, p, n).0
    case FlushCall => if Flushable(s) then Flush(s) else s
    case IdleCall(p) => if p in s.table && s.table[p].queued then ProcessChanges(s, p) else s
  }

  // Parents before children; for an exact client, not the name of an interface whose removal is still to
  // be announced.
  ghost predicate MayRegister(s: State, p: Path, n: Name, exact: bool) {
    !Builtin(n) && if p in s.table then (exact ==> n !in s.table[p].removed) else NoneBelow(s.table, p)
  }

  // Children before parents, and neither the server's own interfaces nor the manager.
  ghost predicate MayUnregister(s: State, p: Path, n: Name) {
    !Builtin(n) && !(p == ROOT && n == ObjectManager)
    && (p in s.table && s.table[p].refcount == 1 ==> NoneBelow(s.table, p))
  }

  ghost predicate Legal(s: State, c: Call, exact: bool) {
    match c
    case RegisterCall(p, n, _, _) => MayRegister(s, p, n, exact)
    case UnregisterCall(p, n) => MayUnregister(s, p, n)
    case FlushCall => true
    case IdleCall(_) => true
  }

  ghost predicate LegalRun(s: State, calls: seq<Call>, exact: bool)
    decreases calls
  {
    calls == [] || (Legal(s, calls[0], exact) && LegalRun(Step(s, calls[0]), calls[1..], exact))
  }

  ghost function Run(s: State, calls: seq<Call>): State
    decreases calls
  {
    if calls == [] then s else Run(Step(s, calls[0]), calls[1..])
  }

  // ---------- One call ----------

  lemma Owes(s: State, p: Path, exact: bool)
    requires Full(s, exact) && p in s.table
    ensures FullBut(s, p, 0, exact)
  {
  }

  lemma RefObject(s: State, p: Path, exact: bool)
    requires Full(s, exact) && (p !in s.table ==> NoneBelow(s.table, p))
    ensures FullBut(ObjectRef(s, p), p, 1, exact)
  {
    if p in s.table {
      RefOld(s, p, exact);
    } else {
      RefNew(s, p, exact);
    }
  }

  // A reference that was just taken keeps what it found.
  lemma RefKeys(s: State, p: Path)
    ensures ObjectRef(s, p).table.Keys == s.table.Keys + {p}
    ensures p in s.table ==> ObjectRef(s, p).table[p] == s.table[p].(refcount := s.table[p].refcount + 1)
  {
    if p !in s.table {
      AdoptKeeps(s.table[p := NEW_OBJECT], p);
    }
  }

  lemma RefRemoved(s: State, p: Path, exact: bool)
    requires Full(s, exact) && p !in s.table && NoneBelow(s.table, p)
    ensures ObjectRef(s, p).table[p].removed == []
  {
    AdoptNew(s.table, p);
  }

  lemma UnrefFull(s: State, p: Path, exact: bool)
    requires FullBut(s, p, 1, exact) && (s.table[p].refcount == 1 ==> NoneBelow(s.table, p))
    ensures Full(ObjectUnref(s, p), exact)
  {
    assert Live(p, s.table[p], 1, exact);
    if s.table[p].refcount > 1 {
      UnrefKeeps(s, p, exact);
    } else {
      UnrefDestroys(s, p, exact);
    }
  }

  lemma RefLast(s: State, p: Path)
    requires if p in s.table then s.table[p].refcount >= 1 else NoneBelow(s.table, p)
    ensures ObjectRef(s, p).table[p].refcount == 1 ==> NoneBelow(ObjectRef(s, p).table, p)
  {
    RefKeys(s, p);
  }

  lemma RefusedFull(s: State, p: Path, exact: bool)
    requires Full(s, exact) && (p !in s.table ==> NoneBelow(s.table, p))
    ensures Full(ObjectUnref(ObjectRef(s, p), p), exact)
  {
    RefObject(s, p, exact);
    if p in s.table {
      assert Live(p, s.table[p], 0, exact);
    }
    RefLast(s, p);
    UnrefFull(ObjectRef(s, p), p, exact);
  }

  lemma AcceptedFull(s: State, p: Path, n: Name, properties: bool, exact: bool)
    requires FullBut(s, p, 1, exact) && !Builtin(n) && n !in s.table[p].interfaces && (exact ==> n !in s.table[p].removed)
    ensures var r := AddInterface(s, p, n);
            Full(if properties && Properties !in r.table[p].interfaces then AddInterface(r, p, Properties) else r, exact)
  {
    var r := AddInterface(s, p, n);
    AddFull(s, p, n, 1, 0, exact);
    if properties && Properties !in r.table[p].interfaces {
      assert Live(p, r.table[p], 0, exact);
      AddFull(r, p, Properties, 0, 0, exact);
      Settles(AddInterface(r, p, Properties), p, exact);
    } else {
      Settles(r, p, exact);
    }
  }

  lemma RegisterFull(s: State, p: Path, n: Name, usable: bool, properties: bool, exact: bool)
    requires Full(s, exact) && MayRegister(s, p, n, exact)
    ensures Full(Register(s, p, n, usable, properties).0, exact)
  {
    var r := ObjectRef(s, p);
    if n in r.table[p].interfaces || !usable {
      RefusedFull(s, p, exact);
    } else {
      RefObject(s, p, exact);
      RefKeys(s, p);
      if p !in s.table {
        RefRemoved(s, p, exact);
      }
      AcceptedFull(r, p, n, properties, exact);
    }
  }

  lemma RemovedBelow(s: State, p: Path, n: Name)
    requires p in s.table && n in s.table[p].interfaces && (s.table[p].refcount == 1 ==> NoneBelow(s.table, p))
    ensures var r := RemoveInterface(s, p, n); p in r.table && (r.table[p].refcount == 1 ==> NoneBelow(r.table, p))
  {
    RemovedObject(s, p, n);
  }

  lemma UnregisterFull(s: State, p: Path, n: Name, exact: bool)
    requires Full(s, exact) && MayUnregister(s, p, n)
    ensures Full(Unregister(s, p, n).0, exact)
  {
    if p in s.table && n in s.table[p].interfaces {
      Owes(s, p, exact);
      RemoveFull(s, p, n, 0, exact);
      RemovedBelow(s, p, n);
      UnrefFull(RemoveInterface(s, p, n), p, exact);
    }
  }

  lemma NoConflicts(s: State)
    requires Full(s, true)
    ensures forall p :: p in s.table ==> !Conflict(s.table[p])
  {
    forall p | p in s.table ensures !Conflict(s.table[p]) {
      assert Live(p, s.table[p], 0, true);
    }
  }

  lemma SettledBooks(t: Table, u: Table, exact: bool)
    requires Books(t, ROOT, 0, exact) && u.Keys == t.Keys
    requires forall p :: p in t ==> u[p] == t[p] || u[p] == Settled(p, t[p])
    ensures Books(u, ROOT, 0, exact)
  {
    forall p | p in u ensures Live(p, u[p], 0, exact) {
      assert Live(p, t[p], 0, exact);
    }
  }

  lemma SettledNested(t: Table, u: Table)
    requires Nested(t) && u.Keys == t.Keys
    requires forall p :: p in t ==> u[p] == t[p] || u[p] == Settled(p, t[p])
    ensures Nested(u)
  {
    NestedDepends(t, u);
  }

  lemma FlushFull(s: State, exact: bool)
    requires Full(s, exact)
    ensures Flushable(s) && Full(Flush(s), exact) && Flush(s).pending == []
  {
    if exact {
      NoConflicts(s);
    }
    FlushedCore(s, exact);
    SettledBooks(s.table, Flush(s).table, exact);
    SettledNested(s.table, Flush(s).table);
  }

  lemma IdleFull(s: State, p: Path, exact: bool)
    requires Full(s, exact) && p in s.table
    ensures Full(ProcessChanges(s, p), exact)
  {
    if exact {
      NoConflicts(s);
    }
    ProcessedCore(s, p, exact);
    SettledBooks(s.table, ProcessChanges(s, p).table, exact);
    SettledNested(s.table, ProcessChanges(s, p).table);
  }

  lemma StepFull(s: State, c: Call, exact: bool)
    requires Full(s, exact) && Legal(s, c, exact)
    ensures Full(Step(s, c), exact)
  {
    match c
    case RegisterCall(p, n, usable, properties) => RegisterFull(s, p, n, usable, properties, exact);
    case UnregisterCall(p, n) => UnregisterFull(s, p, n, exact);
    case FlushCall => FlushFull(s, exact);
    case IdleCall(p) => if p in s.table && s.table[p].queued { IdleFull(s, p, exact); }
  }

  // ---------- Every run ----------

  lemma StartFull(exact: bool)
    ensures Full(START, exact)
  {
    assert Registered([Introspectable, ObjectManager]) == 1 by {
      assert [Introspectable, ObjectManager][1..] == [ObjectManager];
    }
  }

  lemma {:induction false} RunFull(s: State, calls: seq<Call>, exact: bool)
    requires Full(s, exact) && LegalRun(s, calls, exact)
    ensures Full(Run(s, calls), exact)
    decreases calls
  {
    if calls != [] {
      StepFull(s, calls[0], exact);
      RunFull(Step(s, calls[0]), calls[1..], exact);
    }
  }

  lemma {:induction false} RunNext(s: State, calls: seq<Call>, c: Call, exact: bool)
    ensures Run(s, calls + [c]) == Step(Run(s, calls), c)
    ensures LegalRun(s, calls + [c], exact) <==> LegalRun(s, calls, exact) && Legal(Run(s, calls), c, exact)
    decreases calls
  {
    if calls == [] {
      assert calls + [c] == [c] && [c][1..] == [];
    } else {
      assert (calls + [c])[1..] == calls[1..] + [c];
      RunNext(Step(s, calls[0]), calls[1..], c, exact);
    }
  }

  lemma QuietObjects(s: State, exact: bool)
    requires Core(s, exact) && s.pending == []
    ensures forall p :: p in s.table ==> s.table[p].added == [] && s.table[p].removed == []
  {
    forall p | p in s.table ensures s.table[p].added == [] && s.table[p].removed == [] {
      assert ObjectOk(p, s.table[p]) && p !in s.pending;
    }
  }

  lemma QuietIsPublished(s: State)
    requires Core(s, true) && s.pending == []
    ensures Published(s)
  {
    QuietObjects(s, true);
  }
}
