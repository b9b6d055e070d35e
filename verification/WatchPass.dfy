/**
 * One dispatch of a signal to a list of watches, told as a timeline: who runs, who is added, who is gone.
 */
module WatchPass {
  import opened Lists

  // What a callback does while it runs: add a watch to the same listener, or remove one by its id.
  datatype Action = Add | Remove(id: nat)

  // Every callback by its id: what it does, and whether it wants to stay.
  datatype Script = Script(acts: nat -> seq<Action>, keeps: nat -> bool)

  // The watches in the order in which they come out of the pass, those that are gone among them, the
  // last id given out, and the callbacks that ran.
  datatype Timeline = Timeline(order: seq<nat>, gone: set<nat>, last: nat, ran: seq<nat>)

  // Removing an id that has not been given out does nothing.
  function Act(w: Timeline, a: Action): Timeline {
    match a
    case Add => w.(order := w.order + [w.last + 1], last := w.last + 1)
    case Remove(x) => if x <= w.last then w.(gone := w.gone + {x}) else w
  }

  function ActAll(w: Timeline, acts: seq<Action>): Timeline
    decreases |acts|
  {
    if acts == [] then w else Act(ActAll(w, acts[..|acts| - 1]), acts[|acts| - 1])
  }

  // The turn of c: nothing if it is gone, else it runs and comes out behind what it added.
  function Turn(w: Timeline, c: nat, script: Script): Timeline {
    if c in w.gone then w
    else
      var v := ActAll(w, script.acts(c));
      Timeline(v.order + [c], if script.keeps(c) then v.gone else v.gone + {c}, v.last, v.ran + [c])
  }

  function Pass(w: Timeline, watches: seq<nat>, script: Script): Timeline
    decreases |watches|
  {
    if watches == [] then w else Pass(Turn(w, watches[0], script), watches[1..], script)
  }

  // The watches that are left.
  function Left(s: seq<nat>, gone: set<nat>): seq<nat> {
    if s == [] then []
    else Left(s[..|s| - 1], gone) + if s[|s| - 1] in gone then [] else [s[|s| - 1]]
  }

  // ---------- Lists ----------

  lemma LeftNext(s: seq<nat>, x: nat, gone: set<nat>)
    ensures Left(s + [x], gone) == Left(s, gone) + if x in gone then [] else [x]
  {
    assert (s + [x])[..|s|] == s;
  }

  lemma {:induction false} LeftFirst(s: seq<nat>, gone: set<nat>)
    requires s != []
    ensures Left(s, gone) == (if s[0] in gone then [] else [s[0]]) + Left(s[1..], gone)
  {
    var n := |s| - 1;
    if n > 0 {
      LeftFirst(s[..n], gone);
      assert s[..n][1..] == s[1..n] && s[1..][..n - 1] == s[1..n];
    }
  }

  lemma {:induction false} LeftMembers(s: seq<nat>, gone: set<nat>)
    ensures forall x :: x in Left(s, gone) <==> x in s && x !in gone
  {
    if s != [] {
      var n := |s| - 1;
      LeftMembers(s[..n], gone);
      assert s == s[..n] + [s[n]];
    }
  }

  lemma {:induction false} LeftNoDup(s: seq<nat>, gone: set<nat>)
    requires NoDup(s)
    ensures NoDup(Left(s, gone))
  {
    if s != [] {
      var n := |s| - 1;
      LeftNoDup(s[..n], gone);
      LeftMembers(s[..n], gone);
    }
  }

  lemma {:induction false} LeftTwice(s: seq<nat>, gone: set<nat>, more: set<nat>)
    requires gone <= more
    ensures Left(Left(s, gone), more) == Left(s, more)
  {
    if s != [] {
      var n := |s| - 1;
      LeftTwice(s[..n], gone, more);
      if s[n] !in gone {
        LeftNext(Left(s[..n], gone), s[n], more);
      } else {
        assert Left(s, gone) == Left(s[..n], gone);
      }
    }
  }

  lemma {:induction false} LeftAll(s: seq<nat>, gone: set<nat>)
    requires forall x :: x in s ==> x !in gone
    ensures Left(s, gone) == s
  {
    if s != [] {
      var n := |s| - 1;
      LeftAll(s[..n], gone);
      assert s == s[..n] + [s[n]];
    }
  }

  lemma {:induction false} WithoutIsLeft(s: seq<nat>, x: nat)
    requires NoDup(s)
    ensures Without(s, x) == Left(s, {x})
  {
    if s != [] {
      LeftFirst(s, {x});
      if s[0] == x {
        LeftAll(s[1..], {x});
      } else {
        WithoutIsLeft(s[1..], x);
      }
    }
  }

  // ---------- What a turn keeps ----------

  // Later in the pass: no one comes back, ids only grow, and nobody ran twice.
  ghost predicate Later(w: Timeline, v: Timeline) {
    w.gone <= v.gone && w.last <= v.last && w.order <= v.order && w.ran <= v.ran
  }

  lemma {:induction false} ActedLater(w: Timeline, acts: seq<Action>)
    ensures Later(w, ActAll(w, acts)) && ActAll(w, acts).ran == w.ran
    decreases |acts|
  {
    if acts != [] {
      ActedLater(w, acts[..|acts| - 1]);
    }
  }

  lemma TurnLater(w: Timeline, c: nat, script: Script)
    ensures Later(w, Turn(w, c, script))
  {
    ActedLater(w, script.acts(c));
  }

  // Watches that are gone need not be there at all.
  lemma {:induction false} PassOverGone(w: Timeline, watches: seq<nat>, script: Script)
    ensures Pass(w, watches, script) == Pass(w, Left(watches, w.gone), script)
    decreases |watches|
  {
    if watches != [] {
      var c, rest := watches[0], watches[1..];
      var v := Turn(w, c, script);
      LeftFirst(watches, w.gone);
      TurnLater(w, c, script);
      PassOverGone(v, rest, script);
      if c in w.gone {
        assert Left(watches, w.gone) == Left(rest, w.gone);
      } else {
        var left := Left(rest, w.gone);
        LeftTwice(rest, w.gone, v.gone);
        assert ([c] + left)[1..] == left;
        LeftShorter(rest, w.gone);
        PassOverGone(v, left, script);
      }
    }
  }

  lemma {:induction false} LeftShorter(s: seq<nat>, gone: set<nat>)
    ensures |Left(s, gone)| <= |s|
  {
    if s != [] {
      LeftShorter(s[..|s| - 1], gone);
    }
  }

  // ---------- A whole pass ----------

  function Begin(last: nat): Timeline {
    Timeline([], {}, last, [])
  }

  lemma {:induction false} PassNext(w: Timeline, s: seq<nat>, c: nat, script: Script)
    ensures Pass(w, s + [c], script) == Turn(Pass(w, s, script), c, script)
    decreases |s|
  {
    if s == [] {
      assert s + [c] == [c] && [c][1..] == [];
    } else {
      assert (s + [c])[1..] == s[1..] + [c];
      PassNext(Turn(w, s[0], script), s[1..], c, script);
    }
  }

  lemma {:induction false} ActedGone(w: Timeline, acts: seq<Action>, x: nat)
    requires x <= w.last
    ensures x in ActAll(w, acts).gone <==> x in w.gone || Remove(x) in acts
    decreases |acts|
  {
    if acts != [] {
      var n := |acts| - 1;
      ActedLater(w, acts[..n]);
      ActedGone(w, acts[..n], x);
      assert acts == acts[..n] + [acts[n]];
    }
  }

  // The callback x was removed by one that ran, or asked to go.
  ghost predicate Removed(r: Timeline, script: Script, x: nat) {
    (exists d :: d in r.ran && Remove(x) in script.acts(d)) || (x in r.ran && !script.keeps(x))
  }

  lemma TurnGone(w: Timeline, c: nat, script: Script, x: nat)
    requires x <= w.last && (x in w.gone <==> Removed(w, script, x))
    ensures var v := Turn(w, c, script); x in v.gone <==> Removed(v, script, x)
  {
    if c !in w.gone {
      var v := Turn(w, c, script);
      ActedGone(w, script.acts(c), x);
      ActedLater(w, script.acts(c));
      assert v.ran == w.ran + [c];
      if Remove(x) in script.acts(c) {
        assert c in v.ran;
      }
      if d :| d in w.ran && Remove(x) in script.acts(d) {
        assert d in v.ran;
      }
    }
  }

  lemma {:induction false} GoneIffRemoved(s: seq<nat>, last: nat, script: Script, x: nat)
    requires x <= last
    ensures var r := Pass(Begin(last), s, script);
            last <= r.last && (x in r.gone <==> Removed(r, script, x))
    decreases |s|
  {
    if s != [] {
      var n := |s| - 1;
      assert s == s[..n] + [s[n]];
      PassNext(Begin(last), s[..n], s[n], script);
      GoneIffRemoved(s[..n], last, script, x);
      var w := Pass(Begin(last), s[..n], script);
      TurnGone(w, s[n], script, x);
      TurnLater(w, s[n], script);
    }
  }

  // Ids given out during the pass, and nothing else, join the callbacks that ran.
  ghost predicate OrderOk(w: Timeline, last: nat) {
    && NoDup(w.order) && last <= w.last
    && (forall x :: x in w.order <==> x in w.ran || last < x <= w.last)
  }

  lemma {:induction false} ActedOrder(w: Timeline, acts: seq<Action>, last: nat)
    requires OrderOk(w, last) && forall x :: x in w.ran ==> x <= last
    ensures OrderOk(ActAll(w, acts), last)
    decreases |acts|
  {
    if acts != [] {
      ActedOrder(w, acts[..|acts| - 1], last);
      ActedLater(w, acts[..|acts| - 1]);
      var v := ActAll(w, acts[..|acts| - 1]);
      assert forall i :: 0 <= i < |v.order| ==> v.order[i] in v.order;
    }
  }

  lemma TurnOrder(w: Timeline, c: nat, script: Script, last: nat)
    requires OrderOk(w, last) && c <= last && c !in w.ran && forall x :: x in w.ran ==> x <= last
    ensures OrderOk(Turn(w, c, script), last)
  {
    ActedOrder(w, script.acts(c), last);
    ActedLater(w, script.acts(c));
  }

  lemma {:induction false} RanAmong(s: seq<nat>, last: nat, script: Script)
    ensures forall x :: x in Pass(Begin(last), s, script).ran ==> x in s
    decreases |s|
  {
    if s != [] {
      var n := |s| - 1;
      assert s == s[..n] + [s[n]];
      PassNext(Begin(last), s[..n], s[n], script);
      RanAmong(s[..n], last, script);
      ActedLater(Pass(Begin(last), s[..n], script), script.acts(s[n]));
    }
  }

  lemma {:induction false} PassOrder(s: seq<nat>, last: nat, script: Script)
    requires NoDup(s) && forall x :: x in s ==> x <= last
    ensures OrderOk(Pass(Begin(last), s, script), last)
    decreases |s|
  {
    if s != [] {
      var n := |s| - 1;
      assert s == s[..n] + [s[n]];
      PassNext(Begin(last), s[..n], s[n], script);
      assert s[n] in s && forall x :: x in s[..n] ==> x in s;
      PassOrder(s[..n], last, script);
      RanAmong(s[..n], last, script);
      TurnOrder(Pass(Begin(last), s[..n], script), s[n], script, last);
    }
  }

  // Of the watches present at the start, exactly those run that no earlier one that ran has removed.
  lemma RunsUnlessRemoved(watches: seq<nat>, last: nat, script: Script, i: nat)
    requires NoDup(watches) && (forall x :: x in watches ==> x <= last) && i < |watches|
    ensures var ran := Pass(Begin(last), watches, script).ran;
            watches[i] in ran <==>
            forall j :: 0 <= j < i && watches[j] in ran ==> Remove(watches[i]) !in script.acts(watches[j])
  {
    var c := watches[i];
    var w := Pass(Begin(last), watches[..i], script);
    var r := Pass(Begin(last), watches, script);
    assert c in watches;
    GoneIffRemoved(watches[..i], last, script, c);
    RanAmong(watches[..i], last, script);
    RanByTurn(watches, last, script, i);
    forall j | 0 <= j < i ensures watches[j] in r.ran <==> watches[j] in w.ran {
      RanIsSettled(watches, last, script, i, watches[j]);
    }
    if d :| d in w.ran && Remove(c) in script.acts(d) {
      var j :| 0 <= j < i && watches[j] == d;
    }
  }

  // A watch runs at its own turn or not at all.
  lemma RanByTurn(watches: seq<nat>, last: nat, script: Script, i: nat)
    requires NoDup(watches) && i < |watches|
    ensures watches[i] in Pass(Begin(last), watches, script).ran
            <==> watches[i] !in Pass(Begin(last), watches[..i], script).gone
  {
    var c := watches[i];
    var w := Pass(Begin(last), watches[..i], script);
    assert watches[..i + 1] == watches[..i] + [c];
    PassNext(Begin(last), watches[..i], c, script);
    ActedLater(w, script.acts(c));
    RanAmong(watches[..i], last, script);
    RanIsSettled(watches, last, script, i + 1, c);
  }

  lemma {:induction false} RanIsSettled(watches: seq<nat>, last: nat, script: Script, i: nat, x: nat)
    requires NoDup(watches) && i <= |watches| && x in watches[..i]
    ensures x in Pass(Begin(last), watches, script).ran <==> x in Pass(Begin(last), watches[..i], script).ran
    decreases |watches|
  {
    var n := |watches|;
    if i == n {
      assert watches[..i] == watches;
    } else {
      var s := watches[..n - 1];
      assert watches == s + [watches[n - 1]] && s[..i] == watches[..i];
      RanIsSettled(s, last, script, i, x);
      PassNext(Begin(last), s, watches[n - 1], script);
      ActedLater(Pass(Begin(last), s, script), script.acts(watches[n - 1]));
    }
  }

  // They run in list order, each once.
  lemma {:induction false} RunsInOrder(watches: seq<nat>, last: nat, script: Script)
    requires NoDup(watches)
    ensures var ran := Pass(Begin(last), watches, script).ran;
            ran == Left(watches, set c | c in watches && c !in ran)
    decreases |watches|
  {
    var r := Pass(Begin(last), watches, script);
    if watches != [] {
      var n := |watches| - 1;
      var s, c := watches[..n], watches[n];
      assert watches == s + [c];
      var w := Pass(Begin(last), s, script);
      RunsInOrder(s, last, script);
      PassNext(Begin(last), s, c, script);
      ActedLater(w, script.acts(c));
      RanAmong(s, last, script);
      LeftDepends(s, set x | x in s && x !in w.ran, set x | x in watches && x !in r.ran);
    }
  }

  lemma {:induction false} LeftDepends(s: seq<nat>, gone: set<nat>, other: set<nat>)
    requires forall x :: x in s ==> (x in gone <==> x in other)
    ensures Left(s, gone) == Left(s, other)
  {
    if s != [] {
      LeftDepends(s[..|s| - 1], gone, other);
    }
  }

  // ---------- Watches added on the way ----------

  // Everything that the callbacks of ran do, in order.
  function Log(ran: seq<nat>, script: Script): seq<Action> {
    if ran == [] then [] else Log(ran[..|ran| - 1], script) + script.acts(ran[|ran| - 1])
  }

  function Adds(acts: seq<Action>): nat {
    if acts == [] then 0 else Adds(acts[..|acts| - 1]) + if acts[|acts| - 1] == Add then 1 else 0
  }

  // The id that the action k, an Add, gives out when last was the last before.
  function Given(last: nat, acts: seq<Action>, k: nat): nat
    requires k < |acts|
  {
    last + Adds(acts[..k]) + 1
  }

  // x is given out by some Add, and no later action removes it.
  ghost predicate AddedToStay(last: nat, acts: seq<Action>, x: nat) {
    exists k :: 0 <= k < |acts| && acts[k] == Add && Given(last, acts, k) == x && Remove(x) !in acts[k + 1..]
  }

  lemma StayNext(last: nat, acts: seq<Action>, a: Action, x: nat)
    ensures AddedToStay(last, acts + [a], x)
       <==> (AddedToStay(last, acts, x) && a != Remove(x)) || (a == Add && last + Adds(acts) + 1 == x)
  {
    var all := acts + [a];
    assert all[..|acts|] == acts;
    if a == Add {
      assert all[|acts|] == Add && Given(last, all, |acts|) == last + Adds(acts) + 1 && all[|acts| + 1..] == [];
    }
    forall k | 0 <= k < |acts| ensures all[..k] == acts[..k] && all[k + 1..] == acts[k + 1..] + [a] {
    }
    if AddedToStay(last, acts, x) && a != Remove(x) {
      var k :| 0 <= k < |acts| && acts[k] == Add && Given(last, acts, k) == x && Remove(x) !in acts[k + 1..];
      assert all[k] == Add && Given(last, all, k) == x && Remove(x) !in all[k + 1..];
    }
    if AddedToStay(last, all, x) {
      StayBefore(last, acts, a, x);
    }
  }

  lemma StayBefore(last: nat, acts: seq<Action>, a: Action, x: nat)
    requires AddedToStay(last, acts + [a], x)
    ensures (AddedToStay(last, acts, x) && a != Remove(x)) || (a == Add && last + Adds(acts) + 1 == x)
  {
    var all := acts + [a];
    var k :| 0 <= k < |all| && all[k] == Add && Given(last, all, k) == x && Remove(x) !in all[k + 1..];
    assert all[..k] == acts[..k];
    if k < |acts| {
      assert all[k + 1..] == acts[k + 1..] + [a];
      assert acts[k] == Add && Given(last, acts, k) == x && Remove(x) !in acts[k + 1..];
    }
  }

  lemma {:induction false} ActedLast(w: Timeline, acts: seq<Action>)
    ensures ActAll(w, acts).last == w.last + Adds(acts)
    decreases |acts|
  {
    if acts != [] {
      ActedLast(w, acts[..|acts| - 1]);
    }
  }

  lemma {:induction false} ActedStays(last: nat, acts: seq<Action>, x: nat)
    requires x > last
    ensures var v := ActAll(Begin(last), acts);
            && (x in v.gone ==> x <= v.last)
            && (x <= v.last && x !in v.gone <==> AddedToStay(last, acts, x))
    decreases |acts|
  {
    if acts != [] {
      var front, a := acts[..|acts| - 1], acts[|acts| - 1];
      assert acts == front + [a];
      ActedStays(last, front, x);
      ActedLast(Begin(last), front);
      StayNext(last, front, a, x);
    }
  }

  // The same to the watches that came after last.
  ghost predicate Alike(w: Timeline, v: Timeline, last: nat) {
    w.last == v.last >= last && forall x: nat :: x > last ==> (x in w.gone <==> x in v.gone)
  }

  lemma {:induction false} ActedAlike(w: Timeline, v: Timeline, acts: seq<Action>, last: nat)
    requires Alike(w, v, last)
    ensures Alike(ActAll(w, acts), ActAll(v, acts), last)
    decreases |acts|
  {
    if acts != [] {
      ActedAlike(w, v, acts[..|acts| - 1], last);
    }
  }

  lemma {:induction false} ActedBoth(w: Timeline, a: seq<Action>, b: seq<Action>)
    ensures ActAll(w, a + b) == ActAll(ActAll(w, a), b)
    decreases |b|
  {
    if b == [] {
      assert a + b == a;
    } else {
      assert (a + b)[..|a + b| - 1] == a + b[..|b| - 1];
      ActedBoth(w, a, b[..|b| - 1]);
    }
  }

  // To a watch added on the way, the pass is nothing but its log.
  lemma {:induction false} PassIsItsLog(s: seq<nat>, last: nat, script: Script)
    requires forall x :: x in s ==> x <= last
    ensures var r := Pass(Begin(last), s, script); Alike(r, ActAll(Begin(last), Log(r.ran, script)), last)
    decreases |s|
  {
    if s != [] {
      var n := |s| - 1;
      var c := s[n];
      assert s == s[..n] + [c] && forall x :: x in s[..n] ==> x in s;
      PassNext(Begin(last), s[..n], c, script);
      PassIsItsLog(s[..n], last, script);
      var w := Pass(Begin(last), s[..n], script);
      assert c in s;
      TurnIsItsLog(w, c, last, script);
    }
  }

  lemma LogNext(ran: seq<nat>, c: nat, last: nat, script: Script)
    ensures ActAll(Begin(last), Log(ran + [c], script)) == ActAll(ActAll(Begin(last), Log(ran, script)), script.acts(c))
  {
    assert (ran + [c])[..|ran|] == ran;
    ActedBoth(Begin(last), Log(ran, script), script.acts(c));
  }

  lemma TurnIsItsLog(w: Timeline, c: nat, last: nat, script: Script)
    requires c <= last && Alike(w, ActAll(Begin(last), Log(w.ran, script)), last)
    ensures var r := Turn(w, c, script); Alike(r, ActAll(Begin(last), Log(r.ran, script)), last)
  {
    if c !in w.gone {
      ActedAlike(w, ActAll(Begin(last), Log(w.ran, script)), script.acts(c), last);
      ActedLater(w, script.acts(c));
      LogNext(w.ran, c, last, script);
    }
  }

  // Afterwards the list holds, once each, the watches that ran, stay and were not removed, and those that
  // some callback that ran has added and none has removed since, in the order of the callbacks that ran, each
  // behind those it added.
  lemma SurvivorsOfPass(watches: seq<nat>, last: nat, script: Script)
    requires NoDup(watches) && forall x :: x in watches ==> x <= last
    ensures var r := Pass(Begin(last), watches, script);
            var after := Left(r.order, r.gone);
            && NoDup(after) && after == Left(ComingOut(r.ran, last, script), r.gone)
            && (forall x: nat :: x <= last ==> (x in after <==> x in r.ran && !Removed(r, script, x)))
            && (forall x: nat :: x > last ==> (x in after <==> AddedToStay(last, Log(r.ran, script), x)))
  {
    var r := Pass(Begin(last), watches, script);
    PassOrder(watches, last, script);
    LeftNoDup(r.order, r.gone);
    LeftMembers(r.order, r.gone);
    RanAmong(watches, last, script);
    PassIsItsLog(watches, last, script);
    OrderOfPass(watches, last, script);
    forall x: nat | x <= last ensures x in r.gone <==> Removed(r, script, x) {
      GoneIffRemoved(watches, last, script, x);
    }
    forall x: nat | x > last ensures x <= r.last && x !in r.gone <==> AddedToStay(last, Log(r.ran, script), x) {
      ActedStays(last, Log(r.ran, script), x);
    }
  }

  // ---------- The order they come out in ----------

  // The next m ids after last.
  function Ids(last: nat, m: nat): seq<nat> {
    if m == 0 then [] else Ids(last, m - 1) + [last + m]
  }

  // For each callback that ran, the ids of the watches it added, then itself.
  function ComingOut(ran: seq<nat>, last: nat, script: Script): seq<nat> {
    if ran == [] then []
    else
      var n := |ran| - 1;
      ComingOut(ran[..n], last, script) + Ids(last + Adds(Log(ran[..n], script)), Adds(script.acts(ran[n]))) + [ran[n]]
  }

  lemma {:induction false} ActedIds(w: Timeline, acts: seq<Action>)
    ensures ActAll(w, acts).order == w.order + Ids(w.last, Adds(acts))
    decreases |acts|
  {
    if acts != [] {
      ActedIds(w, acts[..|acts| - 1]);
      ActedLast(w, acts[..|acts| - 1]);
    }
  }

  lemma {:induction false} AddsBoth(a: seq<Action>, b: seq<Action>)
    ensures Adds(a + b) == Adds(a) + Adds(b)
    decreases |b|
  {
    if b == [] {
      assert a + b == a;
    } else {
      assert (a + b)[..|a + b| - 1] == a + b[..|b| - 1];
      AddsBoth(a, b[..|b| - 1]);
    }
  }

  lemma ComingOutNext(ran: seq<nat>, c: nat, last: nat, script: Script)
    ensures ComingOut(ran + [c], last, script) ==
            ComingOut(ran, last, script) + Ids(last + Adds(Log(ran, script)), Adds(script.acts(c))) + [c]
    ensures Adds(Log(ran + [c], script)) == Adds(Log(ran, script)) + Adds(script.acts(c))
  {
    assert (ran + [c])[..|ran|] == ran;
    AddsBoth(Log(ran, script), script.acts(c));
  }

  lemma TurnComesOut(w: Timeline, c: nat, last: nat, script: Script)
    requires w.order == ComingOut(w.ran, last, script) && w.last == last + Adds(Log(w.ran, script))
    ensures var v := Turn(w, c, script);
            v.order == ComingOut(v.ran, last, script) && v.last == last + Adds(Log(v.ran, script))
  {
    if c !in w.gone {
      ActedIds(w, script.acts(c));
      ActedLast(w, script.acts(c));
      ActedLater(w, script.acts(c));
      ComingOutNext(w.ran, c, last, script);
    }
  }

  lemma {:induction false} OrderOfPass(watches: seq<nat>, last: nat, script: Script)
    ensures var r := Pass(Begin(last), watches, script);
            r.order == ComingOut(r.ran, last, script) && r.last == last + Adds(Log(r.ran, script))
    decreases |watches|
  {
    if watches != [] {
      var n := |watches| - 1;
      assert watches == watches[..n] + [watches[n]];
      PassNext(Begin(last), watches[..n], watches[n], script);
      OrderOfPass(watches[..n], last, script);
      TurnComesOut(Pass(Begin(last), watches[..n], script), watches[n], last, script);
    }
  }
}
