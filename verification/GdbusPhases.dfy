/**
 * What the client knows after any legal run, interface by interface, read off the calls alone: the mirror
 * is exact but for names that were registered again while their removal still waited.
 */
module GdbusPhases {
  import opened Lists
  import opened Wrappers
  import opened GdbusObjects
  import opened GdbusCore
  import opened GdbusTree
  import opened GdbusRuns
  import opened GdbusMirror
  import opened GdbusHeld

  // Of one interface: whether the client has it, whether its addition and its removal wait to be
  // announced, and whether its last registration found the removal waiting.
  datatype Phase = Phase(seen: bool, added: bool, waiting: bool, blocked: bool)

  const FRESH := Phase(false, false, false, false)

  // Additions are announced before removals.
  function Settle(ph: Phase): Phase {
    ph.(seen := (ph.seen || ph.added) && !ph.waiting, added := false, waiting := false)
  }

  // A removal takes back an addition that waits, or waits itself.
  function Withdraw(ph: Phase): Phase {
    if ph.added then ph.(added := false) else ph.(waiting := true)
  }

  // The last removal at a path announces what waits there.
  function Next(held: Proxies, ph: Phase, c: Call, p: Path, n: Name): Phase {
    if p == ROOT then ph
    else match c
      case RegisterCall(q, m, usable, _) =>
        if q == p && m == n && usable && (p, n) !in held then ph.(added := true, blocked := ph.waiting) else ph
      case UnregisterCall(q, m) =>
        if q != p || (p, m) !in held then ph
        else
          var left := if m == n then Withdraw(ph) else ph;
          if HeldAt(held, p) == {m} then Settle(left) else left
      case FlushCall => Settle(ph)
      case IdleCall(q) => if q == p then Settle(ph) else ph
  }

  function Phases(held: Proxies, ph: Phase, calls: seq<Call>, p: Path, n: Name): Phase
    decreases |calls|
  {
    if calls == [] then ph else Phases(Hold(held, calls[0]), Next(held, ph, calls[0], p, n), calls[1..], p, n)
  }

  function After(calls: seq<Call>, p: Path, n: Name): Phase {
    Phases({(ROOT, ObjectManager)}, FRESH, calls, p, n)
  }

  // ---------- The phase of a state ----------

  ghost function Waits(t: Table, p: Path, n: Name): (bool, bool) {
    if p in t then (n in t[p].added, n in t[p].removed) else (false, false)
  }

  ghost predicate Tracks(s: State, p: Path, n: Name, ph: Phase) {
    ((p, n) in View(s.bus) <==> ph.seen) && (p != ROOT ==> Waits(s.table, p, n) == (ph.added, ph.waiting))
  }

  lemma SameTracks(s: State, r: State, p: Path, n: Name, ph: Phase)
    requires Tracks(s, p, n, ph) && r.bus == s.bus && (p != ROOT ==> Waits(r.table, p, n) == Waits(s.table, p, n))
    ensures Tracks(r, p, n, ph)
  {
  }

  lemma AddTracks(s: State, q: Path, m: Name, p: Path, n: Name, ph: Phase)
    requires q in s.table && ObjectOk(q, s.table[q]) && Tracks(s, p, n, ph)
    ensures Tracks(AddInterface(s, q, m), p, n, if p != ROOT && q == p && m == n then ph.(added := true) else ph)
  {
  }

  lemma RemovedLists(s: State, q: Path, m: Name)
    requires q in s.table && m in s.table[q].interfaces && s.table[q].parent.Some?
    ensures var o, r := s.table[q], RemoveInterface(s, q, m);
            && q in r.table && r.bus == s.bus && r.table == s.table[q := r.table[q]]
            && r.table[q].added == (if m in o.added then Without(o.added, m) else o.added)
            && r.table[q].removed == (if m in o.added then o.removed else [m] + o.removed)
  {
    RemovedObject(s, q, m);
  }

  lemma RemoveTracks(s: State, q: Path, m: Name, p: Path, n: Name, ph: Phase)
    requires q in s.table && ObjectOk(q, s.table[q]) && m in s.table[q].interfaces && Tracks(s, p, n, ph)
    ensures Tracks(RemoveInterface(s, q, m), p, n, if p != ROOT && q == p && m == n then Withdraw(ph) else ph)
  {
    if q == p && p != ROOT {
      RemovedLists(s, q, m);
      WithoutMembers(s.table[q].added, m);
    } else {
      RemovedObject(s, q, m);
      SameTracks(s, RemoveInterface(s, q, m), p, n, ph);
    }
  }

  lemma ProcessTracks(s: State, q: Path, p: Path, n: Name, ph: Phase)
    requires q in s.table && !Builtin(n) && Tracks(s, p, n, ph)
    ensures Tracks(ProcessChanges(s, q), p, n, if p != ROOT && q == p then Settle(ph) else ph)
  {
    if q != ROOT {
      ViewAnnounced(s.bus, q, s.table[q]);
    } else {
      assert s.bus + [] == s.bus;
    }
  }

  // Where nothing waits there is nothing to settle.
  lemma QuietTracks(s: State, p: Path, n: Name, ph: Phase)
    requires p != ROOT && Tracks(s, p, n, ph)
    requires p in s.table ==> ObjectOk(p, s.table[p]) && !s.table[p].queued
    ensures Settle(ph) == ph
  {
  }

  // ---------- References ----------

  lemma NewTracks(s: State, q: Path, p: Path, n: Name, ph: Phase)
    requires q in s.table && s.table[q].(parent := None) == NEW_OBJECT && q != ROOT
    requires !Builtin(n) && Tracks(s, p, n, ph)
    ensures Tracks(AddInterface(s, q, Introspectable), p, n, ph)
  {
    AddedObject(s, q, Introspectable);
    SameTracks(s, AddInterface(s, q, Introspectable), p, n, ph);
  }

  lemma RefTracks(s: State, q: Path, p: Path, n: Name, ph: Phase)
    requires q in s.table || (Nested(s.table) && NoneBelow(s.table, q) && q != ROOT)
    requires !Builtin(n) && Tracks(s, p, n, ph)
    ensures Tracks(ObjectRef(s, q), p, n, ph)
  {
    if q in s.table {
      SameTracks(s, ObjectRef(s, q), p, n, ph);
    } else {
      AdoptNew(s.table, q);
      var s1 := s.(table := WithChild(s.table, q, Nearest(s.table, q).value));
      SameTracks(s, s1, p, n, ph);
      assert ObjectRef(s, q) == AddInterface(s1, q, Introspectable);
      NewTracks(s1, q, p, n, ph);
    }
  }

  lemma StripTracks(s: State, q: Path, m: Name, p: Path, n: Name, ph: Phase)
    requires q in s.table && ObjectOk(q, s.table[q]) && Builtin(m) && !Builtin(n) && Tracks(s, p, n, ph)
    ensures Tracks(RemoveInterface(s, q, m), p, n, ph)
  {
    if m in s.table[q].interfaces {
      RemoveTracks(s, q, m, p, n, ph);
    }
  }

  lemma StrippedTracks(s: State, q: Path, exact: bool, p: Path, n: Name, ph: Phase)
    requires Core(s, exact) && Nested(s.table) && q in s.table && !Builtin(n) && Tracks(s, p, n, ph)
    ensures Tracks(Stripped(s, q), p, n, ph)
  {
    var s1 := Put(s, q, s.table[q].(refcount := 0));
    SameTracks(s, s1, p, n, ph);
    NoCount(s, q, exact);
    assert ObjectOk(q, s1.table[q]);
    StripTracks(s1, q, Introspectable, p, n, ph);
    StripOne(s1, q, Introspectable, exact);
    var s2 := RemoveInterface(s1, q, Introspectable);
    assert ObjectOk(q, s2.table[q]);
    StripTracks(s2, q, Properties, p, n, ph);
  }

  // Announced and gone.
  lemma DeleteTracks(s: State, q: Path, p: Path, n: Name, ph: Phase)
    requires q in s.table && q != ROOT && ObjectOk(q, s.table[q]) && !Builtin(n) && Tracks(s, p, n, ph)
    ensures var r := if s.table[q].queued then ProcessChanges(s, q) else s;
            q in r.table && Tracks(r.(table := Orphaned(r.table, q) - {q}), p, n, if q == p then Settle(ph) else ph)
  {
    ProcessTracks(s, q, p, n, ph);
    if q == p && !s.table[q].queued {
      QuietTracks(s, p, n, ph);
    }
    var r := if s.table[q].queued then ProcessChanges(s, q) else s;
    var next := if q == p then Settle(ph) else ph;
    assert Tracks(r, p, n, next);
    SameTracks(r, r.(table := Orphaned(r.table, q) - {q}), p, n, next);
  }

  lemma DestroyTracks(s: State, q: Path, exact: bool, p: Path, n: Name, ph: Phase)
    requires Core(s, exact) && Nested(s.table) && q in s.table && q != ROOT && !Builtin(n) && Tracks(s, p, n, ph)
    ensures Tracks(Destroy(s, q), p, n, if q == p then Settle(ph) else ph)
  {
    UnlinkedSelf(s.table, q);
    var s1 := s.(table := Unlinked(s.table, q));
    SameTracks(s, s1, p, n, ph);
    assert ObjectOk(q, s.table[q]);
    DeleteTracks(s1, q, p, n, ph);
  }

  lemma LastTracks(s: State, q: Path, exact: bool, p: Path, n: Name, ph: Phase)
    requires FullBut(s, q, 1, exact) && s.table[q].refcount == 1 && NoneBelow(s.table, q)
    requires !Builtin(n) && Tracks(s, p, n, ph)
    ensures Tracks(ObjectUnref(s, q), p, n, if q == p then Settle(ph) else ph)
  {
    LastIsNotRoot(q, s.table[q], exact);
    StrippedBare(s, q, exact);
    BareDestroyed(Stripped(s, q), q, exact);
    LastUnref(s, q);
    StrippedTracks(s, q, exact, p, n, ph);
    DestroyTracks(Stripped(s, q), q, exact, p, n, ph);
  }

  lemma UnrefTracks(s: State, q: Path, exact: bool, p: Path, n: Name, ph: Phase)
    requires FullBut(s, q, 1, exact) && (s.table[q].refcount == 1 ==> NoneBelow(s.table, q))
    requires !Builtin(n) && Tracks(s, p, n, ph)
    ensures Tracks(ObjectUnref(s, q), p, n, if q == p && s.table[q].refcount == 1 then Settle(ph) else ph)
  {
    assert Live(q, s.table[q], 1, exact);
    if s.table[q].refcount == 1 {
      LastTracks(s, q, exact, p, n, ph);
    } else {
      SameTracks(s, ObjectUnref(s, q), p, n, ph);
    }
  }

  // ---------- Calls ----------

  lemma RefusedTracks(s: State, q: Path, exact: bool, p: Path, n: Name, ph: Phase)
    requires Full(s, exact) && (q !in s.table ==> NoneBelow(s.table, q)) && !Builtin(n) && Tracks(s, p, n, ph)
    ensures Tracks(ObjectUnref(ObjectRef(s, q), q), p, n, ph)
  {
    RefTracks(s, q, p, n, ph);
    RefObject(s, q, exact);
    RefKeys(s, q);
    if q in s.table {
      assert Live(q, s.table[q], 0, exact);
    } else if q == p {
      QuietTracks(s, p, n, ph);
    }
    RefLast(s, q);
    UnrefTracks(ObjectRef(s, q), q, exact, p, n, ph);
  }

  lemma AcceptedTracks(s: State, q: Path, m: Name, properties: bool, exact: bool, p: Path, n: Name, ph: Phase)
    requires FullBut(s, q, 1, exact) && m !in s.table[q].interfaces && !Builtin(n) && Tracks(s, p, n, ph)
    ensures var r := AddInterface(s, q, m);
            Tracks(if properties && Properties !in r.table[q].interfaces then AddInterface(r, q, Properties) else r,
                   p, n, if p != ROOT && q == p && m == n then ph.(added := true) else ph)
  {
    assert ObjectOk(q, s.table[q]);
    AddTracks(s, q, m, p, n, ph);
    AddedCore(s, q, m, exact);
    var r := AddInterface(s, q, m);
    if properties && Properties !in r.table[q].interfaces {
      assert ObjectOk(q, r.table[q]);
      AddTracks(r, q, Properties, p, n, if p != ROOT && q == p && m == n then ph.(added := true) else ph);
    }
  }

  lemma RegisterTracks(s: State, q: Path, m: Name, usable: bool, properties: bool, exact: bool,
                       p: Path, n: Name, ph: Phase)
    requires Full(s, exact) && MayRegister(s, q, m, exact) && !Builtin(n) && Tracks(s, p, n, ph)
    ensures Tracks(Register(s, q, m, usable, properties).0, p, n,
                   if p != ROOT && q == p && m == n && usable && !Offers(s.table, p, n) then ph.(added := true) else ph)
  {
    var r := ObjectRef(s, q);
    RefOffers(s, q);
    assert m in r.table[q].interfaces <==> Offers(s.table, q, m);
    if m in r.table[q].interfaces || !usable {
      RefusedTracks(s, q, exact, p, n, ph);
    } else {
      RefTracks(s, q, p, n, ph);
      RefObject(s, q, exact);
      AcceptedTracks(r, q, m, properties, exact, p, n, ph);
    }
  }

  // A removal leaves one reference owed.
  lemma RemovedOwing(s: State, q: Path, m: Name, exact: bool) returns (r: State)
    requires Full(s, exact) && MayUnregister(s, q, m) && q in s.table && m in s.table[q].interfaces
    ensures r == RemoveInterface(s, q, m) && FullBut(r, q, 1, exact) && r.table[q].refcount == s.table[q].refcount
    ensures r.table[q].refcount == 1 ==> NoneBelow(r.table, q)
  {
    Owes(s, q, exact);
    RemoveFull(s, q, m, 0, exact);
    RemovedBelow(s, q, m);
    RemovedObject(s, q, m);
    r := RemoveInterface(s, q, m);
  }

  lemma UnregisterTracks(s: State, q: Path, m: Name, exact: bool, p: Path, n: Name, ph: Phase)
    requires Full(s, exact) && MayUnregister(s, q, m) && q in s.table && m in s.table[q].interfaces
    requires !Builtin(n) && Tracks(s, p, n, ph)
    ensures var left := if p != ROOT && q == p && m == n then Withdraw(ph) else ph;
            Tracks(Unregister(s, q, m).0, p, n, if q == p && s.table[q].refcount == 1 then Settle(left) else left)
  {
    assert ObjectOk(q, s.table[q]);
    RemoveTracks(s, q, m, p, n, ph);
    var r := RemovedOwing(s, q, m, exact);
    UnrefTracks(r, q, exact, p, n, if p != ROOT && q == p && m == n then Withdraw(ph) else ph);
  }

  lemma {:induction false} FlushTracks(s: State, p: Path, n: Name, ph: Phase)
    requires Flushable(s) && !Builtin(n) && Tracks(s, p, n, ph)
    ensures Tracks(Flush(s), p, n, if p != ROOT && p in s.pending then Settle(ph) else ph)
    decreases |s.pending|
  {
    if s.pending != [] {
      var q := s.pending[0];
      ProcessFirst(s);
      ProcessTracks(s, q, p, n, ph);
      FlushTracks(ProcessChanges(s, q), p, n, if p != ROOT && q == p then Settle(ph) else ph);
    }
  }

  lemma FlushCallTracks(s: State, exact: bool, p: Path, n: Name, ph: Phase)
    requires Full(s, exact) && p != ROOT && !Builtin(n) && Tracks(s, p, n, ph)
    ensures Flushable(s) && Tracks(Flush(s), p, n, Settle(ph))
  {
    FlushTracks(s, p, n, ph);
    if p !in s.pending {
      QuietTracks(s, p, n, ph);
    }
  }

  lemma IdleTracks(s: State, q: Path, exact: bool, p: Path, n: Name, ph: Phase)
    requires Full(s, exact) && p != ROOT && !Builtin(n) && Tracks(s, p, n, ph)
    ensures Tracks(Step(s, IdleCall(q)), p, n, if q == p then Settle(ph) else ph)
  {
    if q in s.table && s.table[q].queued {
      ProcessTracks(s, q, p, n, ph);
    } else if q == p {
      QuietTracks(s, p, n, ph);
    }
  }

  // Only the last registration at a path is alone there.
  lemma LastHeld(s: State, held: Proxies, p: Path, m: Name, exact: bool)
    requires Full(s, exact) && Matches(s.table, held) && Offers(s.table, p, m)
    ensures s.table[p].refcount == 1 <==> HeldAt(held, p) == {m}
  {
    assert Live(p, s.table[p], 0, exact) && ObjectOk(p, s.table[p]);
    HeldObject(s.table, held, p);
    assert (p, m) in held && m in HeldAt(held, p);
    if |HeldAt(held, p)| == 1 {
      var rest := HeldAt(held, p) - {m};
      assert |rest| == 0;
    }
  }

  lemma NextOfRemoval(held: Proxies, ph: Phase, q: Path, m: Name, p: Path, n: Name, last: bool)
    requires p != ROOT && (q, m) in held && (last <==> HeldAt(held, q) == {m})
    ensures var left := if q == p && m == n then Withdraw(ph) else ph;
            Next(held, ph, UnregisterCall(q, m), p, n) == if q == p && last then Settle(left) else left
  {
  }

  lemma UnregisterCallTracks(s: State, held: Proxies, q: Path, m: Name, p: Path, n: Name, ph: Phase)
    requires Full(s, false) && MayUnregister(s, q, m) && Matches(s.table, held)
    requires p != ROOT && !Builtin(n) && Tracks(s, p, n, ph)
    ensures Tracks(Unregister(s, q, m).0, p, n, Next(held, ph, UnregisterCall(q, m), p, n))
  {
    assert (q, m) in held <==> Offers(s.table, q, m);
    if q in s.table && m in s.table[q].interfaces {
      LastHeld(s, held, q, m, false);
      NextOfRemoval(held, ph, q, m, p, n, s.table[q].refcount == 1);
      UnregisterTracks(s, q, m, false, p, n, ph);
    }
  }

  lemma RegisterCallTracks(s: State, held: Proxies, c: Call, p: Path, n: Name, ph: Phase)
    requires c.RegisterCall? && Full(s, false) && MayRegister(s, c.path, c.name, false) && Matches(s.table, held)
    requires p != ROOT && !Builtin(n) && Tracks(s, p, n, ph)
    ensures Tracks(Register(s, c.path, c.name, c.usable, c.properties).0, p, n, Next(held, ph, c, p, n))
  {
    RegisterTracks(s, c.path, c.name, c.usable, c.properties, false, p, n, ph);
    assert (p, n) in held <==> Offers(s.table, p, n);
  }

  lemma RootStep(s: State, c: Call)
    requires Full(s, false) && Legal(s, c, false)
    ensures forall n :: (ROOT, n) !in View(Step(s, c).bus)
  {
    StepFull(s, c, false);
  }

  lemma StepTracks(s: State, held: Proxies, c: Call, p: Path, n: Name, ph: Phase)
    requires Full(s, false) && Legal(s, c, false) && Matches(s.table, held) && !Builtin(n) && Tracks(s, p, n, ph)
    ensures Tracks(Step(s, c), p, n, Next(held, ph, c, p, n))
  {
    if p == ROOT {
      RootStep(s, c);
    } else {
      match c
      case RegisterCall(q, m, usable, properties) =>
        RegisterCallTracks(s, held, c, p, n, ph);
      case UnregisterCall(q, m) => UnregisterCallTracks(s, held, q, m, p, n, ph);
      case FlushCall => FlushCallTracks(s, false, p, n, ph);
      case IdleCall(q) => IdleTracks(s, q, false, p, n, ph);
    }
  }

  // ---------- Every run ----------

  lemma {:induction false} RunTracks(s: State, held: Proxies, calls: seq<Call>, p: Path, n: Name, ph: Phase)
    requires Full(s, false) && LegalRun(s, calls, false) && Matches(s.table, held) && !Builtin(n) && Tracks(s, p, n, ph)
    ensures Tracks(Run(s, calls), p, n, Phases(held, ph, calls, p, n))
    decreases |calls|
  {
    if calls != [] {
      StepTracks(s, held, calls[0], p, n, ph);
      StepHolds(s, held, calls[0], false);
      StepFull(s, calls[0], false);
      RunTracks(Step(s, calls[0]), Hold(held, calls[0]), calls[1..], p, n, Next(held, ph, calls[0], p, n));
    }
  }

  lemma AfterTracks(calls: seq<Call>, p: Path, n: Name)
    requires LegalRun(START, calls, false) && !Builtin(n)
    ensures Tracks(Run(START, calls), p, n, After(calls, p, n))
  {
    StartFull(false);
    RunTracks(START, {(ROOT, ObjectManager)}, calls, p, n, FRESH);
  }

  // In every legal run, at every point of it, the client has a proxy exactly if the calls say so.
  lemma ViewInEveryRun(calls: seq<Call>, p: Path, n: Name)
    requires LegalRun(START, calls, false) && !Builtin(n)
    ensures (p, n) in View(Run(START, calls).bus) <==> After(calls, p, n).seen
  {
    AfterTracks(calls, p, n);
  }

  // ---------- When it has everything ----------

  // A removal waits only for what the client may have; what is held and announced is seen unless its
  // registration found the removal waiting.
  predicate Sane(ph: Phase, held: bool) {
    && (!held ==> !ph.added)
    && (!ph.waiting && (ph.added || !held) ==> !ph.seen)
    && (held && ph.added ==> (ph.waiting <==> ph.blocked))
    && (held && !ph.added ==> !ph.waiting && (ph.seen <==> !ph.blocked))
  }

  lemma NextSane(held: Proxies, ph: Phase, c: Call, p: Path, n: Name)
    requires p != ROOT && Sane(ph, (p, n) in held)
    ensures Sane(Next(held, ph, c, p, n), (p, n) in Hold(held, c))
  {
    if c.UnregisterCall? && c.path == p && c.name != n && HeldAt(held, p) == {c.name} {
      if (p, n) in held {
        assert n in HeldAt(held, p);
      }
    }
  }

  lemma {:induction false} PhasesSane(held: Proxies, ph: Phase, calls: seq<Call>, p: Path, n: Name)
    requires p != ROOT && Sane(ph, (p, n) in held)
    ensures Sane(Phases(held, ph, calls, p, n), (p, n) in HoldAll(held, calls))
    decreases |calls|
  {
    if calls != [] {
      NextSane(held, ph, calls[0], p, n);
      PhasesSane(Hold(held, calls[0]), Next(held, ph, calls[0], p, n), calls[1..], p, n);
    }
  }

  // What is held, not at the manager's path, and was not registered while its own removal waited.
  function Kept(calls: seq<Call>): Proxies {
    set x | x in Public(Held(calls)) && !After(calls, x.0, x.1).blocked
  }

  lemma {:induction false} PhasesNext(held: Proxies, ph: Phase, calls: seq<Call>, c: Call, p: Path, n: Name)
    ensures Phases(held, ph, calls + [c], p, n) == Next(HoldAll(held, calls), Phases(held, ph, calls, p, n), c, p, n)
    decreases |calls|
  {
    if calls == [] {
      assert calls + [c] == [c] && [c][1..] == [];
    } else {
      assert (calls + [c])[1..] == calls[1..] + [c];
      PhasesNext(Hold(held, calls[0]), Next(held, ph, calls[0], p, n), calls[1..], c, p, n);
    }
  }

  // A flush holds and blocks nothing.
  lemma KeptByFlush(calls: seq<Call>)
    ensures Held(calls + [FlushCall]) == Held(calls) && Kept(calls + [FlushCall]) == Kept(calls)
  {
    HeldNext({(ROOT, ObjectManager)}, calls, FlushCall);
    forall x: (Path, Name) ensures After(calls + [FlushCall], x.0, x.1).blocked == After(calls, x.0, x.1).blocked {
      PhasesNext({(ROOT, ObjectManager)}, FRESH, calls, FlushCall, x.0, x.1);
    }
  }

  lemma QuietWaits(s: State, p: Path, n: Name)
    requires Core(s, false) && s.pending == []
    ensures Waits(s.table, p, n) == (false, false)
  {
    QuietObjects(s, false);
  }

  lemma KnownIff(calls: seq<Call>, p: Path, n: Name)
    requires LegalRun(START, calls, false) && Run(START, calls).pending == [] && Core(Run(START, calls), false)
    requires p != ROOT && !Builtin(n)
    ensures (p, n) in View(Run(START, calls).bus) <==> (p, n) in Held(calls) && !After(calls, p, n).blocked
  {
    AfterTracks(calls, p, n);
    QuietWaits(Run(START, calls), p, n);
    PhasesSane({(ROOT, ObjectManager)}, FRESH, calls, p, n);
  }

  // In every legal run, whenever nothing waits, the client has exactly what is held and was not registered
  // while its own removal waited.
  lemma KnownInEveryRun(calls: seq<Call>)
    requires LegalRun(START, calls, false) && Run(START, calls).pending == []
    ensures View(Run(START, calls).bus) == Kept(calls)
  {
    RunMatches(calls, false);
    var s := Run(START, calls);
    forall x ensures x in View(s.bus) <==> x in Kept(calls) {
      assert (x.0, x.1) in View(s.bus) ==> x.0 in s.table && Told(x.0, s.table[x.0], x.1);
      assert (x.0, x.1) in Held(calls) ==> Offers(s.table, x.0, x.1);
      if x.0 != ROOT && !Builtin(x.1) {
        KnownIff(calls, x.0, x.1);
      }
    }
  }

  // So the mirror is exact if and only if nothing that is held was registered like that.
  lemma MirrorExactIff(calls: seq<Call>)
    requires LegalRun(START, calls, false) && Run(START, calls).pending == []
    ensures View(Run(START, calls).bus) == Public(Held(calls))
       <==> forall x :: x in Public(Held(calls)) ==> !After(calls, x.0, x.1).blocked
  {
    KnownInEveryRun(calls);
    if View(Run(START, calls).bus) == Public(Held(calls)) {
      forall x | x in Public(Held(calls)) ensures !After(calls, x.0, x.1).blocked {
        assert x in Kept(calls);
      }
    }
  }
}
