/**
 * Any number of installs, finished, failed or cut short, with restarts in between.
 */
module FwRuns {
  import opened Wrappers
  import opened Decimals
  import opened FwInstall

  // An install with the power there was for it, or a restart.
  datatype Event = Update(archive: Archive, power: nat) | Restart

  // A restart is into a partition whose boot index can be read.
  ghost predicate Follows(h: Hub, e: Event, h': Hub) {
    match e
    case Update(a, power) => InstallStep(h, h', a, power)
    case Restart => h'.one == h.one && h'.two == h.two && IndexOf(h', h'.running) >= 0
  }

  ghost predicate IsRun(hubs: seq<Hub>, events: seq<Event>) {
    |hubs| == |events| + 1 && forall i :: 0 <= i < |events| ==> Follows(hubs[i], events[i], hubs[i + 1])
  }

  // The running partition has an index, and not the other's.
  ghost predicate Sound(h: Hub) {
    IndexOf(h, h.running) >= 0 && IndexOf(h, One) != IndexOf(h, Two)
  }

  lemma TenthIsLess(r: nat)
    requires |Natural(r + 1)| > 1
    ensures (r + 1) / 10 < r
  {
    assert r + 1 >= 10;
  }

  // A line cut inside its digits reads as a smaller number than the one before it.
  lemma CutIsLess(r: nat, power: nat)
    requires power > 0
    ensures var v := ReadInt(Written(IndexLine(r + 1), power));
            v.Some? && (v.value == r + 1 || 0 <= v.value < r)
  {
    var line := IndexLine(r + 1);
    var j := if power < |line| then power else |line|;
    assert Written(line, power) == line[..j];
    CutRead(r + 1, j);
    if j < |Natural(r + 1)| {
      TenthIsLess(r);
    }
  }

  // The index of the target is the old one, none, the new one, or one lower than the running partition's.
  lemma IndexOutcomes(p: Part, a: Archive, r: nat, power: nat, q: Part)
    requires q.index == IndexAfter(p, a, r + 1, power)
    ensures ReadIndex(q) == ReadIndex(p) || ReadIndex(q) == r + 1 || -1 <= ReadIndex(q) < r
    ensures ReadInt(q.index) == None ==> CutsIndex(p, a, power) || q.index == p.index
    ensures CutsIndex(p, a, power) ==> ReadInt(q.index) == None
    ensures Reaches(p, a, power) && power > Cost(p, a) + 1 ==> ReadIndex(q) >= 0
    ensures Fits(p, a) && power > Cost(p, a) + |IndexLine(r + 1)| ==> ReadIndex(q) == r + 1
  {
    DecimalRead(r + 1, ['\n']);
    if Reaches(p, a, power) && power > Cost(p, a) + 1 {
      CutIsLess(r, power - Cost(p, a) - 1);
    }
  }

  lemma InstallSafe(h: Hub, a: Archive, power: nat, h': Hub)
    requires Sound(h) && InstallStep(h, h', a, power)
    ensures Sound(h') && PartOf(h', h.running) == PartOf(h, h.running) && h'.running == h.running
    ensures Target(IndexOf(h, One), IndexOf(h, Two), h.running) == (Other(h.running), IndexOf(h, h.running) + 1)
    ensures PartOf(h', Other(h.running)).index
         == IndexAfter(PartOf(h, Other(h.running)), a, IndexOf(h, h.running) + 1, power)
    ensures var i, r := IndexOf(h', Other(h.running)), IndexOf(h, h.running);
            i == IndexOf(h, Other(h.running)) || i == r + 1 || -1 <= i < r
  {
    var o := Other(h.running);
    IndexOutcomes(PartOf(h, o), a, IndexOf(h, h.running), power, PartOf(h', o));
  }

  lemma StepSafe(h: Hub, e: Event, h': Hub)
    requires Sound(h) && Follows(h, e, h')
    ensures Sound(h')
  {
    if e.Update? {
      InstallSafe(h, e.archive, e.power, h');
    }
  }

  // In every run the running partition is never the target, keeps its images and its index, and the two
  // indices stay different.
  lemma {:induction false} RunsAreSafe(hubs: seq<Hub>, events: seq<Event>, i: nat)
    requires IsRun(hubs, events) && Sound(hubs[0]) && i <= |events|
    ensures Sound(hubs[i])
    ensures i < |events| && events[i].Update? ==>
      var h := hubs[i];
      && Target(IndexOf(h, One), IndexOf(h, Two), h.running).0 != h.running
      && PartOf(hubs[i + 1], h.running) == PartOf(h, h.running)
    decreases i
  {
    if i > 0 {
      RunsAreSafe(hubs, events, i - 1);
      StepSafe(hubs[i - 1], events[i - 1], hubs[i]);
    }
    if i < |events| && events[i].Update? {
      InstallSafe(hubs[i], events[i].archive, events[i].power, hubs[i + 1]);
    }
  }

  // ---------- Losing an index ----------

  ghost predicate BothPresent(h: Hub) {
    IndexOf(h, One) >= 0 && IndexOf(h, Two) >= 0
  }

  // The install finds room, and its power fails just after it has emptied the index of the partition the
  // hub does not run from.
  predicate Cut(h: Hub, e: Event) {
    e.Update? && CutsIndex(PartOf(h, Other(h.running)), e.archive, e.power)
  }

  // A step loses an index if and only if it is such an install.
  lemma LosesIndexIff(h: Hub, e: Event, h': Hub)
    requires Sound(h) && BothPresent(h) && Follows(h, e, h')
    ensures BothPresent(h') <==> !Cut(h, e)
  {
    if e.Update? {
      var o := Other(h.running);
      InstallSafe(h, e.archive, e.power, h');
      IndexOutcomes(PartOf(h, o), e.archive, IndexOf(h, h.running), e.power, PartOf(h', o));
    }
  }

  // Both indices are there throughout a run if and only if no install in it was cut there.
  lemma {:induction false} IndicesStayPresentIff(hubs: seq<Hub>, events: seq<Event>, n: nat)
    requires IsRun(hubs, events) && Sound(hubs[0]) && BothPresent(hubs[0]) && n <= |events|
    ensures (forall i :: 0 <= i <= n ==> BothPresent(hubs[i])) <==> (forall i :: 0 <= i < n ==> !Cut(hubs[i], events[i]))
    decreases n
  {
    if n > 0 {
      IndicesStayPresentIff(hubs, events, n - 1);
      RunsAreSafe(hubs, events, n - 1);
      if BothPresent(hubs[n - 1]) {
        LosesIndexIff(hubs[n - 1], events[n - 1], hubs[n]);
      }
    }
  }

  // A run that loses one: an archive with nothing in it, and power for one write.
  lemma LosesAnIndex() returns (hubs: seq<Hub>, events: seq<Event>)
    ensures IsRun(hubs, events) && Sound(hubs[0]) && BothPresent(hubs[0]) && |events| == 1
    ensures !BothPresent(hubs[1]) && ReadInt(hubs[1].two.index) == None
  {
    var two := Part(IndexLine(0), [], [], []);
    var h := Hub(Part(IndexLine(1), [], [], []), two, One);
    DecimalRead(0, ['\n']);
    DecimalRead(1, ['\n']);
    hubs, events := [h, h.(two := two.(index := []))], [Update(Archive(None, None, None), 1)];
    assert CutsIndex(two, events[0].archive, 1);
    LosesIndexIff(h, events[0], hubs[1]);
  }

  // A lost index comes back with the next install that is not cut short.
  lemma IndexComesBack(h: Hub, a: Archive, power: nat, h': Hub)
    requires Sound(h) && InstallStep(h, h', a, power)
    requires var p := PartOf(h, Other(h.running));
             Fits(p, a) && power > Cost(p, a) + |IndexLine(IndexOf(h, h.running) + 1)|
    ensures BothPresent(h') && Installed(PartOf(h', Other(h.running)), a)
    ensures IndexOf(h', Other(h.running)) == IndexOf(h', h'.running) + 1
  {
    var o := Other(h.running);
    InstallSafe(h, a, power, h');
    IndexOutcomes(PartOf(h, o), a, IndexOf(h, h.running), power, PartOf(h', o));
  }

  // Indices grow by at most one an install: what a signed 32-bit index can hold is not exceeded before
  // as many installs as there is room for.
  lemma {:induction false} IndicesGrowSlowly(hubs: seq<Hub>, events: seq<Event>, limit: int, i: nat)
    requires IsRun(hubs, events) && Sound(hubs[0]) && i <= |events|
    requires IndexOf(hubs[0], One) <= limit && IndexOf(hubs[0], Two) <= limit
    ensures IndexOf(hubs[i], One) <= limit + i && IndexOf(hubs[i], Two) <= limit + i
    decreases i
  {
    if i > 0 {
      IndicesGrowSlowly(hubs, events, limit, i - 1);
      RunsAreSafe(hubs, events, 0);
      RunsAreSafe(hubs, events, i - 1);
      if events[i - 1].Update? {
        InstallSafe(hubs[i - 1], events[i - 1].archive, events[i - 1].power, hubs[i]);
      }
    }
  }
}
