/**
 * What the callers hold, counted from their calls alone, and the server and its client measured by it.
 */
module GdbusHeld {
  import opened Lists
  import opened GdbusObjects
  import opened GdbusCore
  import opened GdbusTree
  import opened GdbusRuns
  import opened GdbusMirror
  import opened GdbusManaged

  // A usable registration is held from then on, until it is removed; nobody looks at the server.
  function Hold(held: Proxies, c: Call): Proxies {
    match c
    case RegisterCall(p, n, usable, _) => if usable then held + {(p, n)} else held
    case UnregisterCall(p, n) => held - {(p, n)}
    case FlushCall => held
    case IdleCall(_) => held
  }

  function HoldAll(held: Proxies, calls: seq<Call>): Proxies
    decreases |calls|
  {
    if calls == [] then held else HoldAll(Hold(held, calls[0]), calls[1..])
  }

  // What is held after the calls, from the attached manager on.
  function Held(calls: seq<Call>): Proxies {
    HoldAll({(ROOT, ObjectManager)}, calls)
  }

  function HeldAt(held: Proxies, p: Path): set<Name> {
    set x | x in held && x.0 == p :: x.1
  }

  // ---------- Interfaces offered ----------

  ghost predicate Offers(t: Table, p: Path, n: Name) {
    p in t && n in t[p].interfaces && !Builtin(n)
  }

  ghost predicate Matches(t: Table, held: Proxies) {
    forall p, n :: (p, n) in held <==> Offers(t, p, n)
  }

  ghost predicate SameOffers(t: Table, u: Table) {
    forall p, n :: Offers(t, p, n) <==> Offers(u, p, n)
  }

  lemma RefOffers(s: State, p: Path)
    requires p in s.table || (Nested(s.table) && NoneBelow(s.table, p))
    ensures SameOffers(s.table, ObjectRef(s, p).table)
  {
    if p !in s.table {
      AdoptNew(s.table, p);
      var q := Nearest(s.table, p).value;
      AddedObject(s.(table := WithChild(s.table, p, q)), p, Introspectable);
    }
  }

  lemma AddOffers(s: State, p: Path, n: Name)
    requires p in s.table
    ensures forall q, m :: Offers(AddInterface(s, p, n).table, q, m)
                      <==> Offers(s.table, q, m) || (q == p && m == n && !Builtin(n))
  {
    AddedObject(s, p, n);
  }

  lemma RemoveOffers(s: State, p: Path, n: Name)
    requires p in s.table && n in s.table[p].interfaces && NoDup(s.table[p].interfaces)
    ensures forall q, m :: Offers(RemoveInterface(s, p, n).table, q, m) <==> Offers(s.table, q, m) && !(q == p && m == n)
  {
    RemovedObject(s, p, n);
    WithoutMembers(s.table[p].interfaces, n);
  }

  lemma UnrefOffers(s: State, p: Path, exact: bool)
    requires FullBut(s, p, 1, exact) && (s.table[p].refcount == 1 ==> NoneBelow(s.table, p))
    ensures SameOffers(s.table, ObjectUnref(s, p).table)
  {
    assert Live(p, s.table[p], 1, exact);
    if s.table[p].refcount == 1 {
      LastOffers(s, p, exact);
    }
  }

  lemma LastOffers(s: State, p: Path, exact: bool)
    requires FullBut(s, p, 1, exact) && s.table[p].refcount == 1 && NoneBelow(s.table, p)
    ensures SameOffers(s.table, ObjectUnref(s, p).table)
  {
    LastIsNotRoot(p, s.table[p], exact);
    NoneRegistered(s.table[p].interfaces);
    var o := Destroyed(s, p, exact);
    GoneOffers(s.table, p, o);
  }

  lemma GoneOffers(t: Table, p: Path, o: Object)
    requires p in t && o.parent == t[p].parent && forall n :: n in t[p].interfaces ==> Builtin(n)
    ensures SameOffers(t, WithoutChild(t[p := o], p))
  {
  }

  // ---------- One call ----------

  lemma RegisterHolds(s: State, p: Path, n: Name, usable: bool, properties: bool, exact: bool)
    requires Full(s, exact) && MayRegister(s, p, n, exact)
    ensures Register(s, p, n, usable, properties).1 == (usable && !Offers(s.table, p, n))
    ensures forall q, m :: Offers(Register(s, p, n, usable, properties).0.table, q, m)
                      <==> Offers(s.table, q, m) || (usable && q == p && m == n)
  {
    var r := ObjectRef(s, p);
    RefOffers(s, p);
    assert n in r.table[p].interfaces <==> Offers(s.table, p, n);
    if n in r.table[p].interfaces || !usable {
      RefusedOffers(s, p, exact);
    } else {
      AddOffers(r, p, n);
      AddOffers(AddInterface(r, p, n), p, Properties);
    }
  }

  lemma RefusedOffers(s: State, p: Path, exact: bool)
    requires Full(s, exact) && (p !in s.table ==> NoneBelow(s.table, p))
    ensures SameOffers(s.table, ObjectUnref(ObjectRef(s, p), p).table)
  {
    RefOffers(s, p);
    RefObject(s, p, exact);
    if p in s.table {
      assert Live(p, s.table[p], 0, exact);
    }
    RefLast(s, p);
    UnrefOffers(ObjectRef(s, p), p, exact);
  }

  lemma UnregisterHolds(s: State, p: Path, n: Name, exact: bool)
    requires Full(s, exact) && MayUnregister(s, p, n)
    ensures Unregister(s, p, n).1 == Offers(s.table, p, n)
    ensures forall q, m :: Offers(Unregister(s, p, n).0.table, q, m) <==> Offers(s.table, q, m) && !(q == p && m == n)
  {
    if p in s.table && n in s.table[p].interfaces {
      var r := RemoveInterface(s, p, n);
      Owes(s, p, exact);
      RemoveFull(s, p, n, 0, exact);
      RemovedBelow(s, p, n);
      UnrefOffers(r, p, exact);
      assert ObjectOk(p, s.table[p]);
      RemoveOffers(s, p, n);
    }
  }

  lemma RegisterMatches(s: State, held: Proxies, p: Path, n: Name, usable: bool, properties: bool, exact: bool)
    requires Full(s, exact) && MayRegister(s, p, n, exact) && Matches(s.table, held)
    ensures Register(s, p, n, usable, properties).1 == (usable && (p, n) !in held)
    ensures Matches(Register(s, p, n, usable, properties).0.table, if usable then held + {(p, n)} else held)
  {
    RegisterHolds(s, p, n, usable, properties, exact);
  }

  lemma UnregisterMatches(s: State, held: Proxies, p: Path, n: Name, exact: bool)
    requires Full(s, exact) && MayUnregister(s, p, n) && Matches(s.table, held)
    ensures Unregister(s, p, n).1 == ((p, n) in held) && Matches(Unregister(s, p, n).0.table, held - {(p, n)})
  {
    UnregisterHolds(s, p, n, exact);
  }

  lemma FlushMatches(s: State, held: Proxies)
    requires Flushable(s) && Matches(s.table, held)
    ensures Matches(Flush(s).table, held)
  {
    FlushInterfaces(s);
  }

  // Every call does to the server's interfaces what it does to what is held, and is answered by it.
  lemma StepHolds(s: State, held: Proxies, c: Call, exact: bool)
    requires Full(s, exact) && Legal(s, c, exact) && Matches(s.table, held)
    ensures Matches(Step(s, c).table, Hold(held, c))
    ensures c.RegisterCall? ==>
      Register(s, c.path, c.name, c.usable, c.properties).1 == (c.usable && (c.path, c.name) !in held)
    ensures c.UnregisterCall? ==> Unregister(s, c.path, c.name).1 == ((c.path, c.name) in held)
  {
    match c
    case RegisterCall(p, n, usable, properties) => RegisterMatches(s, held, p, n, usable, properties, exact);
    case UnregisterCall(p, n) => UnregisterMatches(s, held, p, n, exact);
    case FlushCall => FlushMatches(s, held);
    case IdleCall(p) =>
  }

  // ---------- Every run ----------

  lemma {:induction false} RunHolds(s: State, held: Proxies, calls: seq<Call>, exact: bool)
    requires Full(s, exact) && LegalRun(s, calls, exact) && Matches(s.table, held)
    ensures Matches(Run(s, calls).table, HoldAll(held, calls))
    decreases |calls|
  {
    if calls != [] {
      StepHolds(s, held, calls[0], exact);
      StepFull(s, calls[0], exact);
      RunHolds(Step(s, calls[0]), Hold(held, calls[0]), calls[1..], exact);
    }
  }

  lemma {:induction false} HeldNext(held: Proxies, calls: seq<Call>, c: Call)
    ensures HoldAll(held, calls + [c]) == Hold(HoldAll(held, calls), c)
    decreases |calls|
  {
    if calls == [] {
      assert calls + [c] == [c] && [c][1..] == [];
    } else {
      assert (calls + [c])[1..] == calls[1..] + [c];
      HeldNext(Hold(held, calls[0]), calls[1..], c);
    }
  }

  lemma RunMatches(calls: seq<Call>, exact: bool)
    requires LegalRun(START, calls, exact)
    ensures Full(Run(START, calls), exact) && Matches(Run(START, calls).table, Held(calls))
  {
    StartFull(exact);
    RunFull(START, calls, exact);
    RunHolds(START, {(ROOT, ObjectManager)}, calls, exact);
  }

  lemma {:induction false} CountRegistered(s: seq<Name>)
    requires NoDup(s)
    ensures Registered(s) == |set n | n in s && !Builtin(n)|
  {
    var all := set n | n in s && !Builtin(n);
    if s == [] {
      assert all == {};
    } else {
      CountRegistered(s[1..]);
      var rest := set n | n in s[1..] && !Builtin(n);
      assert s == [s[0]] + s[1..] && s[0] !in s[1..];
      assert all == if Builtin(s[0]) then rest else rest + {s[0]};
    }
  }

  lemma HeldObject(t: Table, held: Proxies, p: Path)
    requires Matches(t, held) && p in t && NoDup(t[p].interfaces)
    ensures |HeldAt(held, p)| == Registered(t[p].interfaces)
  {
    CountRegistered(t[p].interfaces);
    var names := set n | n in t[p].interfaces && !Builtin(n);
    forall n ensures n in HeldAt(held, p) <==> n in names {
      if n in names {
        assert (p, n) in held;
      }
    }
    assert HeldAt(held, p) == names;
  }

  // An object's interfaces are the registrations held at its path, its reference count is their number, it
  // is there exactly as long as there are any, and it waits at most once.
  lemma LifetimesInEveryRun(calls: seq<Call>)
    requires LegalRun(START, calls, false)
    ensures var s, held := Run(START, calls), Held(calls);
            && (forall p, n :: (p, n) in held <==> p in s.table && n in s.table[p].interfaces && !Builtin(n))
            && (forall p :: p in s.table <==> HeldAt(held, p) != {})
            && (forall p :: p in s.table ==> s.table[p].refcount == |HeldAt(held, p)|)
            && NoDup(s.pending) && (forall p :: p in s.pending <==> p in s.table && s.table[p].queued)
  {
    var s, held := Run(START, calls), Held(calls);
    RunMatches(calls, false);
    forall p ensures p in s.table <==> HeldAt(held, p) != {}
             ensures p in s.table ==> s.table[p].refcount == |HeldAt(held, p)|
    {
      if p in s.table {
        assert Live(p, s.table[p], 0, false) && ObjectOk(p, s.table[p]);
        HeldObject(s.table, held, p);
      }
    }
  }

  // Every answer the server gives is the one the calls before it call for.
  lemma AnswersInEveryRun(calls: seq<Call>, c: Call)
    requires LegalRun(START, calls, false) && Legal(Run(START, calls), c, false)
    ensures var s, held := Run(START, calls), Held(calls);
            && (c.RegisterCall? ==>
                  Register(s, c.path, c.name, c.usable, c.properties).1 == (c.usable && (c.path, c.name) !in held))
            && (c.UnregisterCall? ==> Unregister(s, c.path, c.name).1 == ((c.path, c.name) in held))
  {
    RunMatches(calls, false);
    StepHolds(Run(START, calls), Held(calls), c, false);
  }

  // What a client can be told of: everything held but what is registered at the manager's own path.
  function Public(held: Proxies): Proxies {
    set x | x in held && x.0 != ROOT
  }

  // Whenever nothing waits, the client has no proxy for anything that is not held.
  lemma NothingStaleInEveryRun(calls: seq<Call>)
    requires LegalRun(START, calls, false) && Run(START, calls).pending == []
    ensures View(Run(START, calls).bus) <= Public(Held(calls))
  {
    RunMatches(calls, false);
    var s := Run(START, calls);
    QuietObjects(s, false);
    forall x | x in View(s.bus) ensures x in Public(Held(calls)) {
      assert (x.0, x.1) in View(s.bus);
    }
  }

  lemma PublishedIsPublic(s: State, held: Proxies)
    requires Matches(s.table, held) && Published(s)
    ensures View(s.bus) == Public(held)
  {
    forall x ensures x in View(s.bus) <==> x in Public(held) {
      assert (x.0, x.1) in View(s.bus) <==> (x.0, x.1) in Public(held);
    }
  }

  // If no name is registered again while its removal waits, its proxies are exactly what is held.
  lemma MirrorInEveryRun(calls: seq<Call>)
    requires LegalRun(START, calls, true) && Run(START, calls).pending == []
    ensures View(Run(START, calls).bus) == Public(Held(calls))
  {
    RunMatches(calls, true);
    QuietIsPublished(Run(START, calls));
    PublishedIsPublic(Run(START, calls), Held(calls));
  }
}
