/**
 * What the object server and a client that follows its signals keep, whoever calls what: the waiting
 * list holds each object once, and the client knows exactly what has been announced.
 */
module GdbusCore {
  import opened Lists
  import opened Wrappers
  import opened GdbusObjects

  // ---------- The client ----------

  type Proxies = set<(Path, Name)>

  // What one signal does to the client's proxies: the two built-in interfaces get none.
  function Apply(c: Proxies, signal: Signal): Proxies {
    match signal
    case InterfacesAdded(p, names) => c + (set n | n in names && !Builtin(n) :: (p, n))
    case InterfacesRemoved(p, names) => c - (set n | n in names :: (p, n))
  }

  function View(bus: seq<Signal>): Proxies {
    if bus == [] then {} else Apply(View(bus[..|bus| - 1]), bus[|bus| - 1])
  }

  lemma ViewNext(bus: seq<Signal>, signal: Signal)
    ensures View(bus + [signal]) == Apply(View(bus), signal)
  {
    assert (bus + [signal])[..|bus|] == bus;
  }

  lemma ViewAdded(bus: seq<Signal>, p: Path, names: seq<Name>)
    ensures forall q, n :: (q, n) in View(bus + AddedSignal(p, names))
                      <==> (q, n) in View(bus) || (q == p && n in names && !Builtin(n))
  {
    if names == [] {
      assert bus + AddedSignal(p, names) == bus;
    } else {
      ViewNext(bus, InterfacesAdded(p, names));
    }
  }

  lemma ViewRemoved(bus: seq<Signal>, p: Path, names: seq<Name>)
    ensures forall q, n :: (q, n) in View(bus + RemovedSignal(p, names))
                      <==> (q, n) in View(bus) && !(q == p && n in names)
  {
    if names == [] {
      assert bus + RemovedSignal(p, names) == bus;
    } else {
      ViewNext(bus, InterfacesRemoved(p, names));
    }
  }

  lemma ViewAnnounced(bus: seq<Signal>, p: Path, o: Object)
    requires p != ROOT
    ensures forall q, n :: (q, n) in View(bus + Announced(p, o))
                      <==> if q == p then ((q, n) in View(bus) || (n in o.added && !Builtin(n))) && n !in o.removed
                           else (q, n) in View(bus)
  {
    ViewAdded(bus, p, o.added);
    ViewRemoved(bus + AddedSignal(p, o.added), p, o.removed);
    assert bus + Announced(p, o) == bus + AddedSignal(p, o.added) + RemovedSignal(p, o.removed);
  }

  // ---------- The invariant ----------

  // What the client has been told and not untold of an object.
  ghost predicate Told(p: Path, o: Object, n: Name) {
    p != ROOT && !Builtin(n) && ((n in o.interfaces && n !in o.added) || n in o.removed)
  }

  ghost predicate ObjectOk(p: Path, o: Object) {
    && NoDup(o.interfaces) && NoDup(o.added)
    && (forall n :: n in o.added ==> n in o.interfaces)
    && (forall n :: n in o.removed && n in o.interfaces ==> n in o.added)
    && (o.added != [] || o.removed != [] ==> o.queued)
    && (o.parent == None <==> p == ROOT)
    && (p == ROOT ==> o.added == [] && o.removed == [])
  }

  ghost predicate QueueOk(s: State) {
    NoDup(s.pending) && forall p :: p in s.pending <==> p in s.table && s.table[p].queued
  }

  // The client has been told everything it knows; an exact client also knows everything it was told.
  ghost predicate MirrorOk(s: State, exact: bool) {
    && (forall p, n :: (p, n) in View(s.bus) ==> p in s.table && Told(p, s.table[p], n))
    && (exact ==> forall p, n :: p in s.table && Told(p, s.table[p], n) ==> (p, n) in View(s.bus))
  }

  ghost predicate Core(s: State, exact: bool) {
    && QueueOk(s)
    && (forall p :: p in s.table ==> ObjectOk(p, s.table[p]))
    && MirrorOk(s, exact)
  }

  // An object changes without a word on the bus, and is put on the waiting list if it was not there.
  lemma CoreUpdate(s: State, r: State, p: Path, o: Object, exact: bool)
    requires Core(s, exact) && p in s.table && ObjectOk(p, o)
    requires r.table == s.table[p := o] && r.bus == s.bus
    requires s.table[p].queued ==> o.queued
    requires r.pending == if o.queued && !s.table[p].queued then s.pending + [p] else s.pending
    requires forall n :: Told(p, o, n) <==> Told(p, s.table[p], n)
    ensures Core(r, exact)
  {
  }

  lemma AddedCore(s: State, p: Path, n: Name, exact: bool)
    requires Core(s, exact) && p in s.table && n !in s.table[p].interfaces
    ensures Core(AddInterface(s, p, n), exact)
  {
    var r := AddInterface(s, p, n);
    CoreUpdate(s, r, p, r.table[p], exact);
  }

  lemma RemovedOk(s: State, p: Path, n: Name)
    requires p in s.table && ObjectOk(p, s.table[p]) && n in s.table[p].interfaces
    ensures var o, o' := s.table[p], RemoveInterface(s, p, n).table[p];
            ObjectOk(p, o') && forall m :: Told(p, o', m) <==> Told(p, o, m)
  {
    var o := s.table[p];
    WithoutMembers(o.interfaces, n);
    WithoutMembers(o.added, n);
  }

  lemma RemovedShape(s: State, p: Path, n: Name)
    requires p in s.table && n in s.table[p].interfaces
    ensures var o, r := s.table[p], RemoveInterface(s, p, n);
            && p in r.table && r.table == s.table[p := r.table[p]] && r.bus == s.bus
            && (o.queued ==> r.table[p].queued)
            && r.pending == if r.table[p].queued && !o.queued then s.pending + [p] else s.pending
  {
  }

  lemma RemovedCore(s: State, p: Path, n: Name, exact: bool)
    requires Core(s, exact) && p in s.table
    ensures Core(RemoveInterface(s, p, n), exact)
  {
    if n in s.table[p].interfaces {
      var r := RemoveInterface(s, p, n);
      RemovedOk(s, p, n);
      RemovedShape(s, p, n);
      CoreUpdate(s, r, p, r.table[p], exact);
    }
  }

  // ---------- Processing ----------

  // Some announced name was taken away and given again since.
  ghost predicate Conflict(o: Object) {
    exists n :: n in o.added && n in o.removed && !Builtin(n)
  }

  ghost predicate Exact(s: State, p: Path)
    requires p in s.table
  {
    forall n :: (p, n) in View(s.bus) <==> p != ROOT && !Builtin(n) && n in s.table[p].interfaces
  }

  // The client has only been told what the object has to tell,
  ghost predicate NotStale(s: State, p: Path)
    requires p in s.table
  {
    forall n :: (p, n) in View(s.bus) ==> Told(p, s.table[p], n)
  }

  // and has everything of it that does not wait to be announced.
  ghost predicate Complete(s: State, p: Path)
    requires p in s.table
  {
    var o := s.table[p];
    forall n :: p != ROOT && !Builtin(n) && n in o.interfaces && n !in o.added ==> (p, n) in View(s.bus)
  }

  // Processing an object leaves the client with its interfaces if and only if there is no conflict and
  // nothing was missing before.
  lemma ProcessedExactIff(s: State, p: Path)
    requires p in s.table && ObjectOk(p, s.table[p]) && NotStale(s, p)
    ensures Exact(ProcessChanges(s, p), p) <==> !Conflict(s.table[p]) && Complete(s, p)
  {
    var o := s.table[p];
    var r := ProcessChanges(s, p);
    if p != ROOT {
      ViewAnnounced(s.bus, p, o);
      if n :| n in o.added && n in o.removed && !Builtin(n) {
        assert (p, n) !in View(r.bus);
      }
      if n :| !Builtin(n) && n in o.interfaces && n !in o.added && (p, n) !in View(s.bus) {
        assert (p, n) !in View(r.bus) && n in r.table[p].interfaces;
      }
    } else {
      assert s.bus + [] == s.bus;
    }
  }

  // It says nothing about any other object.
  lemma ProcessedView(s: State, p: Path)
    requires p in s.table
    ensures forall q, n :: q != p ==> ((q, n) in View(ProcessChanges(s, p).bus) <==> (q, n) in View(s.bus))
  {
    if p != ROOT {
      ViewAnnounced(s.bus, p, s.table[p]);
    } else {
      assert s.bus + [] == s.bus;
    }
  }

  // It never leaves the client with something the object has not.
  lemma ProcessedNotStale(s: State, p: Path)
    requires p in s.table && ObjectOk(p, s.table[p])
    requires forall n :: (p, n) in View(s.bus) ==> Told(p, s.table[p], n)
    ensures forall n :: (p, n) in View(ProcessChanges(s, p).bus) ==> Told(p, ProcessChanges(s, p).table[p], n)
  {
    if p != ROOT {
      ViewAnnounced(s.bus, p, s.table[p]);
    } else {
      assert s.bus + [] == s.bus;
    }
  }

  lemma ProcessedMirror(s: State, p: Path, exact: bool)
    requires MirrorOk(s, exact) && p in s.table && ObjectOk(p, s.table[p]) && (exact ==> !Conflict(s.table[p]))
    ensures MirrorOk(ProcessChanges(s, p), exact)
  {
    ProcessedNotStale(s, p);
    ProcessedView(s, p);
    if exact {
      ProcessedExactIff(s, p);
    }
  }

  lemma ProcessedCore(s: State, p: Path, exact: bool)
    requires Core(s, exact) && p in s.table && (exact ==> !Conflict(s.table[p]))
    ensures Core(ProcessChanges(s, p), exact)
  {
    ProcessedMirror(s, p, exact);
    WithoutMembers(s.pending, p);
  }

  // ---------- Flushing ----------

  ghost predicate Flushable(s: State) {
    NoDup(s.pending) && forall p :: p in s.pending ==> p in s.table
  }

  lemma ProcessFirst(s: State)
    requires Flushable(s) && s.pending != []
    ensures var r := ProcessChanges(s, s.pending[0]);
            Flushable(r) && r.pending == s.pending[1..] && r.table.Keys == s.table.Keys
  {
  }

  // An object the flush does not process is left as it was, to the client too.
  lemma {:induction false} FlushElsewhere(s: State, p: Path)
    requires Flushable(s) && p !in s.pending
    ensures Flush(s).table.Keys == s.table.Keys && (p in s.table ==> Flush(s).table[p] == s.table[p])
    ensures forall n :: (p, n) in View(Flush(s).bus) <==> (p, n) in View(s.bus)
    decreases |s.pending|
  {
    if s.pending != [] {
      ProcessFirst(s);
      ProcessedView(s, s.pending[0]);
      FlushElsewhere(ProcessChanges(s, s.pending[0]), p);
    }
  }

  // An object that waits is processed once, as it stands.
  lemma {:induction false} FlushHere(s: State, p: Path)
    requires Flushable(s) && p in s.pending && ObjectOk(p, s.table[p]) && NotStale(s, p)
    ensures p in Flush(s).table && Flush(s).table[p] == Settled(p, s.table[p])
    ensures Exact(Flush(s), p) <==> !Conflict(s.table[p]) && Complete(s, p)
    decreases |s.pending|
  {
    var q := s.pending[0];
    var r := ProcessChanges(s, q);
    ProcessFirst(s);
    if p == q {
      ProcessedExactIff(s, p);
      FlushElsewhere(r, p);
    } else {
      ProcessedView(s, q);
      assert p in s.pending[1..];
      FlushHere(r, p);
    }
  }

  lemma QuietExactIff(s: State, p: Path)
    requires p in s.table && ObjectOk(p, s.table[p]) && NotStale(s, p) && !s.table[p].queued
    ensures Exact(s, p) <==> !Conflict(s.table[p]) && Complete(s, p)
  {
  }

  lemma {:induction false} FlushEmpties(s: State)
    requires Flushable(s)
    ensures Flush(s).pending == [] && Flush(s).table.Keys == s.table.Keys
    decreases |s.pending|
  {
    if s.pending != [] {
      ProcessFirst(s);
      FlushEmpties(ProcessChanges(s, s.pending[0]));
    }
  }

  function AnnouncedAll(t: map<Path, Object>, ps: seq<Path>): seq<Signal>
    requires forall p :: p in ps ==> p in t
  {
    if ps == [] then [] else Announced(ps[0], t[ps[0]]) + AnnouncedAll(t, ps[1..])
  }

  lemma {:induction false} AnnouncedDepends(t: map<Path, Object>, u: map<Path, Object>, ps: seq<Path>)
    requires forall p :: p in ps ==> p in t && p in u && t[p] == u[p]
    ensures AnnouncedAll(t, ps) == AnnouncedAll(u, ps)
  {
    if ps != [] {
      assert ps[0] in ps;
      AnnouncedDepends(t, u, ps[1..]);
    }
  }

  lemma AnnouncedRest(s: State)
    requires Flushable(s) && s.pending != []
    ensures var r, rest := ProcessChanges(s, s.pending[0]), s.pending[1..];
            && (forall q :: q in rest ==> q in s.table && q in r.table)
            && AnnouncedAll(r.table, rest) == AnnouncedAll(s.table, rest)
  {
    var p, rest := s.pending[0], s.pending[1..];
    forall q | q in rest ensures q in s.pending && q != p {
      var i :| 0 <= i < |rest| && rest[i] == q;
      assert s.pending[i + 1] == q;
    }
    AnnouncedDepends(ProcessChanges(s, p).table, s.table, rest);
  }

  // A flush sends what the objects that wait have to say, in the order they have waited.
  lemma {:induction false} FlushAnnounces(s: State)
    requires Flushable(s)
    ensures Flush(s).bus == s.bus + AnnouncedAll(s.table, s.pending)
    decreases |s.pending|
  {
    if s.pending != [] {
      var p, rest := s.pending[0], s.pending[1..];
      var r := ProcessChanges(s, p);
      ProcessFirst(s);
      FlushAnnounces(r);
      AnnouncedRest(s);
      var here, more := Announced(p, s.table[p]), AnnouncedAll(s.table, rest);
      assert s.bus + here + more == s.bus + (here + more);
    }
  }

  // What the server has to show: everything but the built-in interfaces and the manager's own.
  ghost predicate Published(s: State) {
    forall p, n :: (p, n) in View(s.bus) <==> p in s.table && p != ROOT && !Builtin(n) && n in s.table[p].interfaces
  }

  lemma FlushedAt(s: State, p: Path)
    requires Core(s, false)
    ensures p in Flush(s).table <==> p in s.table
    ensures p in s.table ==> (Exact(Flush(s), p) <==> !Conflict(s.table[p]) && Complete(s, p))
    ensures p !in s.table ==> forall n :: (p, n) !in View(Flush(s).bus)
  {
    FlushEmpties(s);
    if p in s.pending {
      FlushHere(s, p);
    } else {
      FlushElsewhere(s, p);
      if p in s.table {
        QuietExactIff(s, p);
      }
    }
  }

  // A flush makes the client's proxies the server's interfaces if and only if no name was taken away and
  // given again since it was announced, and the client had everything that does not wait.
  lemma FlushPublishesIff(s: State)
    requires Core(s, false)
    ensures Published(Flush(s)) <==> forall p :: p in s.table ==> !Conflict(s.table[p]) && Complete(s, p)
  {
    var r := Flush(s);
    forall p ensures p in r.table <==> p in s.table
             ensures p in s.table ==> (Exact(r, p) <==> !Conflict(s.table[p]) && Complete(s, p))
             ensures p !in s.table ==> forall n :: (p, n) !in View(r.bus)
    {
      FlushedAt(s, p);
    }
    PublishedIff(r);
  }

  lemma PublishedIff(s: State)
    requires forall p :: p !in s.table ==> forall n :: (p, n) !in View(s.bus)
    ensures Published(s) <==> forall p :: p in s.table ==> Exact(s, p)
  {
    if Published(s) {
      forall p | p in s.table ensures Exact(s, p) {
      }
    }
  }

  lemma {:induction false} FlushedCore(s: State, exact: bool)
    requires Core(s, exact) && (exact ==> forall p :: p in s.table ==> !Conflict(s.table[p]))
    ensures Core(Flush(s), exact) && Flush(s).pending == [] && Flush(s).table.Keys == s.table.Keys
    ensures forall p :: p in s.table ==> Flush(s).table[p] == if s.table[p].queued then Settled(p, s.table[p]) else s.table[p]
    decreases |s.pending|
  {
    if s.pending != [] {
      var q := s.pending[0];
      var r := ProcessChanges(s, q);
      ProcessFirst(s);
      ProcessedCore(s, q, exact);
      assert !Conflict(r.table[q]);
      FlushedCore(r, exact);
    }
  }
}
