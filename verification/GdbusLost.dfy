/**
 * What the mirror costs: an interface removed and registered again before a flush is lost to the client,
 * unless its object went away in between.
 */
module GdbusLost {
  import opened GdbusObjects
  import opened GdbusCore
  import opened GdbusTree
  import opened GdbusRuns
  import opened GdbusMirror
  import opened GdbusManaged
  import opened GdbusHeld
  import opened GdbusPhases

  // The registration that follows a removal.
  function Again(s: State, p: Path, n: Name, properties: bool): State {
    Register(Unregister(s, p, n).0, p, n, true, properties).0
  }

  // ---------- The calls are allowed ----------

  lemma DeletedBelow(t: Table, p: Path, o: Object)
    requires p in t && NoneBelow(t, p)
    ensures var u := WithoutChild(t[p := o], p); p !in u && NoneBelow(u, p)
  {
  }

  lemma LastGone(s: State, p: Path)
    requires FullBut(s, p, 1, false) && s.table[p].refcount == 1 && NoneBelow(s.table, p)
    ensures var r := ObjectUnref(s, p); p !in r.table && NoneBelow(r.table, p)
  {
    LastIsNotRoot(p, s.table[p], false);
    var o := Destroyed(s, p, false);
    DeletedBelow(s.table, p, o);
  }

  lemma RemovedCount(s: State, p: Path, n: Name)
    requires p in s.table && n in s.table[p].interfaces && (s.table[p].refcount == 1 ==> NoneBelow(s.table, p))
    ensures var u := RemoveInterface(s, p, n);
            p in u.table && u.table[p].refcount == s.table[p].refcount
            && (s.table[p].refcount == 1 ==> NoneBelow(u.table, p))
  {
    RemovedObject(s, p, n);
    RemovedBelow(s, p, n);
  }

  lemma Removing(s: State, p: Path, n: Name)
    requires Full(s, false) && p in s.table && MayUnregister(s, p, n) && n in s.table[p].interfaces
    ensures FullBut(RemoveInterface(s, p, n), p, 1, false)
  {
    Owes(s, p, false);
    RemoveFull(s, p, n, 0, false);
  }

  lemma RemovedIsGone(s: State, p: Path, n: Name)
    requires Full(s, false) && p in s.table && MayUnregister(s, p, n) && s.table[p].refcount == 1
    requires n in s.table[p].interfaces
    ensures var r := Unregister(s, p, n).0; p !in r.table && NoneBelow(r.table, p)
  {
    Removing(s, p, n);
    RemovedCount(s, p, n);
    LastGone(RemoveInterface(s, p, n), p);
  }

  lemma MayRegisterAgain(s: State, p: Path, n: Name)
    requires Full(s, false) && p in s.table && MayUnregister(s, p, n) && n in s.table[p].interfaces
    ensures MayRegister(Unregister(s, p, n).0, p, n, false)
  {
    assert Live(p, s.table[p], 0, false);
    if s.table[p].refcount == 1 {
      RemovedIsGone(s, p, n);
    } else {
      RemovedObject(s, p, n);
    }
  }

  lemma RemovedState(s: State, p: Path, n: Name) returns (u: State)
    requires Full(s, false) && p in s.table && MayUnregister(s, p, n) && n in s.table[p].interfaces
    ensures u == Unregister(s, p, n).0 && Full(u, false) && !Offers(u.table, p, n) && MayRegister(u, p, n, false)
  {
    UnregisterFull(s, p, n, false);
    UnregisterHolds(s, p, n, false);
    MayRegisterAgain(s, p, n);
    u := Unregister(s, p, n).0;
  }

  lemma RegisteredState(s: State, p: Path, n: Name, properties: bool) returns (r: State)
    requires Full(s, false) && !Offers(s.table, p, n) && MayRegister(s, p, n, false)
    ensures r == Register(s, p, n, true, properties).0 && Register(s, p, n, true, properties).1
    ensures Full(r, false) && Offers(r.table, p, n)
  {
    RegisterFull(s, p, n, true, properties, false);
    RegisterHolds(s, p, n, true, properties, false);
    r := Register(s, p, n, true, properties).0;
  }

  lemma Flushed(s: State, exact: bool) returns (r: State)
    requires Full(s, exact)
    ensures Flushable(s) && r == Flush(s) && Full(r, exact) && r.pending == [] && SameOffers(s.table, r.table)
  {
    FlushFull(s, exact);
    FlushOffers(s);
    r := Flush(s);
  }

  lemma FlushOffers(s: State)
    requires Flushable(s)
    ensures SameOffers(s.table, Flush(s).table)
  {
    FlushInterfaces(s);
  }

  // ---------- What the client is left with ----------

  lemma RemovedPhase(s: State, p: Path, n: Name, ph: Phase) returns (next: Phase)
    requires Full(s, false) && p in s.table && p != ROOT && MayUnregister(s, p, n) && n in s.table[p].interfaces
    requires Tracks(s, p, n, ph) && !ph.added && !ph.waiting
    ensures Tracks(Unregister(s, p, n).0, p, n, next) && !next.added && next.waiting == (s.table[p].refcount > 1)
  {
    assert Live(p, s.table[p], 0, false);
    UnregisterTracks(s, p, n, false, p, n, ph);
    next := if s.table[p].refcount == 1 then Settle(Withdraw(ph)) else Withdraw(ph);
  }

  lemma RegisteredPhase(s: State, p: Path, n: Name, properties: bool, ph: Phase)
    requires Full(s, false) && p != ROOT && !Offers(s.table, p, n) && MayRegister(s, p, n, false) && Tracks(s, p, n, ph)
    ensures Tracks(Register(s, p, n, true, properties).0, p, n, ph.(added := true))
  {
    RegisterTracks(s, p, n, true, properties, false, p, n, ph);
  }

  lemma AddedPhase(s: State, p: Path, n: Name, ph: Phase)
    requires Full(s, false) && p != ROOT && !Builtin(n) && Tracks(s, p, n, ph) && ph.added
    ensures Flushable(s) && ((p, n) in View(Flush(s).bus) <==> !ph.waiting)
  {
    FlushCallTracks(s, false, p, n, ph);
  }

  // The phase of an interface that does not wait.
  lemma AnnouncedPhase(s: State, p: Path, n: Name) returns (ph: Phase)
    requires Full(s, false) && p in s.table && n in s.table[p].interfaces && n !in s.table[p].added
    ensures Tracks(s, p, n, ph) && !ph.added && !ph.waiting
  {
    assert ObjectOk(p, s.table[p]);
    ph := FRESH.(seen := (p, n) in View(s.bus));
  }

  // An announced interface is removed, registered again and flushed. The server has it, and the client has
  // it if and only if it was the only registration at its path.
  lemma ReaddedIsLostIff(s: State, p: Path, n: Name, properties: bool)
    requires Full(s, false) && p in s.table && p != ROOT && MayUnregister(s, p, n)
    requires n in s.table[p].interfaces && n !in s.table[p].added
    ensures var u := Unregister(s, p, n).0; MayRegister(u, p, n, false) && Register(u, p, n, true, properties).1
    ensures var r := Again(s, p, n, properties);
            Flushable(r) && Offers(Flush(r).table, p, n) && ((p, n) in View(Flush(r).bus) <==> s.table[p].refcount == 1)
  {
    assert Live(p, s.table[p], 0, false);
    var ph := AnnouncedPhase(s, p, n);
    var next := RemovedPhase(s, p, n, ph);
    var u := RemovedState(s, p, n);
    RegisteredPhase(u, p, n, properties, next);
    var r := RegisteredState(u, p, n, properties);
    AddedPhase(r, p, n, next.(added := true));
    var f := Flushed(r, false);
  }

  // ---------- In every run ----------

  // After any run: flush, remove the interface, register it again, flush.
  function Readding(calls: seq<Call>, p: Path, n: Name): seq<Call> {
    calls + [FlushCall] + [UnregisterCall(p, n)] + [RegisterCall(p, n, true, false)] + [FlushCall]
  }

  lemma RunReadding(calls: seq<Call>, p: Path, n: Name)
    requires LegalRun(START, calls, false)
    ensures var s := Run(START, calls + [FlushCall]);
            Legal(s, UnregisterCall(p, n), false)
            && Legal(Step(s, UnregisterCall(p, n)), RegisterCall(p, n, true, false), false)
            ==> LegalRun(START, Readding(calls, p, n), false)
                && Run(START, Readding(calls, p, n)) == Step(Again(s, p, n, false), FlushCall)
  {
    RunNext(START, calls, FlushCall, false);
    var c1 := calls + [FlushCall];
    RunNext(START, c1, UnregisterCall(p, n), false);
    var c2 := c1 + [UnregisterCall(p, n)];
    RunNext(START, c2, RegisterCall(p, n, true, false), false);
    RunNext(START, c2 + [RegisterCall(p, n, true, false)], FlushCall, false);
  }

  // After any legal run and a flush, nothing waits.
  lemma FlushedRun(calls: seq<Call>) returns (s: State)
    requires LegalRun(START, calls, false)
    ensures s == Run(START, calls + [FlushCall]) && Full(s, false) && Matches(s.table, Held(calls))
    ensures forall p :: p in s.table ==> s.table[p].added == [] && s.table[p].refcount == |HeldAt(Held(calls), p)| >= 1
  {
    RunMatches(calls, false);
    RunNext(START, calls, FlushCall, false);
    s := Flushed(Run(START, calls), false);
    QuietObjects(s, false);
    forall p | p in s.table ensures s.table[p].refcount == |HeldAt(Held(calls), p)| >= 1 {
      assert Live(p, s.table[p], 0, false) && ObjectOk(p, s.table[p]);
      HeldObject(s.table, Held(calls), p);
    }
  }

  lemma ReaddedRun(calls: seq<Call>, s: State, p: Path, n: Name)
    requires LegalRun(START, calls, false) && s == Run(START, calls + [FlushCall]) && MayUnregister(s, p, n)
    requires var u := Unregister(s, p, n).0; MayRegister(u, p, n, false) && Flushable(Again(s, p, n, false))
    ensures LegalRun(START, Readding(calls, p, n), false)
    ensures var r := Run(START, Readding(calls, p, n)); r == Flush(Again(s, p, n, false)) && r.pending == []
  {
    RunReadding(calls, p, n);
    FlushEmpties(Again(s, p, n, false));
  }

  // After every legal run, whatever is held: flush, remove it, register it again and flush. The run is one
  // the server allows, what was held still is, and the client lacks it exactly if something else is held
  // at the same path.
  lemma ReaddedInEveryRun(calls: seq<Call>, p: Path, n: Name)
    requires LegalRun(START, calls, false) && (p, n) in Public(Held(calls))
    requires MayUnregister(Run(START, calls + [FlushCall]), p, n)
    ensures LegalRun(START, Readding(calls, p, n), false)
    ensures var r := Run(START, Readding(calls, p, n));
            && r.pending == [] && Offers(r.table, p, n)
            && ((p, n) !in View(r.bus) <==> |HeldAt(Held(calls), p)| > 1)
  {
    var s := FlushedRun(calls);
    assert Offers(s.table, p, n);
    assert s.table[p].refcount >= 1;
    ReaddedIsLostIff(s, p, n, false);
    ReaddedRun(calls, s, p, n);
  }

  // ---------- A run in which it happens ----------

  const BOX: Path := ["box"]

  const BEFORE: seq<Call> := [RegisterCall(BOX, Other("a"), true, false)] + [RegisterCall(BOX, Other("b"), true, false)]

  lemma HeldBefore()
    ensures Held(BEFORE) == {(ROOT, ObjectManager), (BOX, Other("a")), (BOX, Other("b"))}
    ensures HeldAt(Held(BEFORE), BOX) == {Other("a"), Other("b")}
  {
    HeldNext({(ROOT, ObjectManager)}, [], RegisterCall(BOX, Other("a"), true, false));
    HeldNext({(ROOT, ObjectManager)}, [RegisterCall(BOX, Other("a"), true, false)], RegisterCall(BOX, Other("b"), true, false));
    assert [] + [RegisterCall(BOX, Other("a"), true, false)] == [RegisterCall(BOX, Other("a"), true, false)];
    var held := Held(BEFORE);
    assert held == {(ROOT, ObjectManager), (BOX, Other("a")), (BOX, Other("b"))};
    assert (BOX, Other("a")) in held && (BOX, Other("b")) in held;
  }

  lemma FirstBox()
    ensures var s := Step(START, RegisterCall(BOX, Other("a"), true, false));
            Legal(START, RegisterCall(BOX, Other("a"), true, false), false) && BOX in s.table && s.table[BOX].removed == []
  {
    StartFull(false);
    AdoptNew(START.table, BOX);
  }

  lemma LegalTwo(s: State, a: Call, b: Call)
    requires Legal(s, a, false) && Legal(Step(s, a), b, false)
    ensures LegalRun(s, [a] + [b], false)
  {
    RunNext(s, [], a, false);
    RunNext(s, [a], b, false);
    assert [] + [a] == [a];
  }

  lemma LegalBefore()
    ensures LegalRun(START, BEFORE, false)
  {
    var a, b := RegisterCall(BOX, Other("a"), true, false), RegisterCall(BOX, Other("b"), true, false);
    FirstBox();
    LegalTwo(START, a, b);
  }

  lemma MayLose()
    ensures LegalRun(START, BEFORE, false) && (BOX, Other("a")) in Public(Held(BEFORE))
    ensures |HeldAt(Held(BEFORE), BOX)| == 2
    ensures MayUnregister(Run(START, BEFORE + [FlushCall]), BOX, Other("a"))
  {
    LegalBefore();
    HeldBefore();
    assert |{Other("a"), Other("b")}| == 2;
    var s := FlushedRun(BEFORE);
  }

  // Two interfaces are registered and announced, one is removed and registered again, and after the flush
  // the server has it and the client does not.
  lemma LostInARun()
    ensures LegalRun(START, Readding(BEFORE, BOX, Other("a")), false)
    ensures var r := Run(START, Readding(BEFORE, BOX, Other("a")));
            r.pending == [] && Offers(r.table, BOX, Other("a")) && (BOX, Other("a")) !in View(r.bus)
  {
    MayLose();
    ReaddedInEveryRun(BEFORE, BOX, Other("a"));
  }
}
