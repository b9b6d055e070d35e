/**
 * One message for several listeners: each is dispatched in turn, those left without a watch are collected,
 * and then deleted.
 */
module WatchMessage {
  import opened Lists
  import opened WatchPass
  import opened Watch
  import opened WatchDelete

  // The watches left to each listener, and the last id given out; ids are the same for all.
  function PassAll(watches: seq<seq<nat>>, scripts: seq<Script>, last: nat): (seq<seq<nat>>, nat)
    requires |scripts| == |watches|
    decreases |watches|
  {
    if watches == [] then ([], last)
    else
      var n := |watches| - 1;
      var (before, given) := PassAll(watches[..n], scripts[..n], last);
      var r := Pass(Begin(given), watches[n], scripts[n]);
      (before + [Left(r.order, r.gone)], r.last)
  }

  // The listeners without a watch, the last first.
  function Emptied(lists: seq<seq<nat>>): seq<nat> {
    if lists == [] then []
    else
      var n := |lists| - 1;
      (if lists[n] == [] then [n] else []) + Emptied(lists[..n])
  }

  lemma InFront(n: nat, rest: seq<nat>)
    requires NoDup(rest) && forall k :: k in rest ==> k < n
    ensures NoDup([n] + rest) && forall k: nat :: k in [n] + rest <==> k == n || k in rest
  {
    assert forall i :: 0 <= i < |rest| ==> rest[i] in rest;
  }

  lemma {:induction false} EmptiedMembers(lists: seq<seq<nat>>)
    ensures NoDup(Emptied(lists))
    ensures forall k: nat :: k in Emptied(lists) <==> k < |lists| && lists[k] == []
  {
    if lists != [] {
      var n := |lists| - 1;
      EmptiedMembers(lists[..n]);
      InFront(n, Emptied(lists[..n]));
      if lists[n] != [] {
        assert Emptied(lists) == Emptied(lists[..n]);
      }
    }
  }

  lemma PassAllNext(watches: seq<seq<nat>>, scripts: seq<Script>, last: nat, list: seq<nat>, script: Script)
    requires |scripts| == |watches|
    ensures var (before, given) := PassAll(watches, scripts, last);
            var r := Pass(Begin(given), list, script);
            PassAll(watches + [list], scripts + [script], last) == (before + [Left(r.order, r.gone)], r.last)
  {
    assert (watches + [list])[..|watches|] == watches && (scripts + [script])[..|scripts|] == scripts;
  }

  lemma PassAllAt(watches: seq<seq<nat>>, scripts: seq<Script>, last: nat, i: nat)
    requires |scripts| == |watches| && i < |watches|
    ensures var (before, given) := PassAll(watches[..i], scripts[..i], last);
            var r := Pass(Begin(given), watches[i], scripts[i]);
            PassAll(watches[..i + 1], scripts[..i + 1], last) == (before + [Left(r.order, r.gone)], r.last)
  {
    assert watches[..i + 1] == watches[..i] + [watches[i]] && scripts[..i + 1] == scripts[..i] + [scripts[i]];
    PassAllNext(watches[..i], scripts[..i], last, watches[i], scripts[i]);
  }

  lemma EmptiedNext(lists: seq<seq<nat>>, list: seq<nat>)
    ensures Emptied(lists + [list]) == (if list == [] then [|lists|] else []) + Emptied(lists)
  {
    assert (lists + [list])[..|lists|] == lists;
  }

  // The listener uses the ids of its own list only below the last given out.
  ghost predicate Ready(l: Listener, watches: seq<nat>, last: nat)
    reads l
  {
    l.Idle() && l.callbacks == watches && l.lastId <= last
  }

  method DispatchOne(l: Listener, script: Script, last: nat, ghost watches: seq<nat>) returns (given: nat)
    requires Ready(l, watches, last)
    modifies l
    ensures var r := Pass(Begin(last), watches, script);
            l.Idle() && l.callbacks == Left(r.order, r.gone) && given == r.last && last <= given
  {
    l.lastId := last;
    l.Dispatch(script);
    GoneIffRemoved(watches, last, script, 0);
    given := l.lastId;
  }

  // The watches left to the listeners so far, and those still as they were.
  ghost predicate Dispatched(listeners: seq<Listener>, watches: seq<seq<nat>>, last: nat, lists: seq<seq<nat>>)
    requires |watches| == |listeners|
    reads listeners
  {
    && |lists| <= |listeners|
    && (forall i :: 0 <= i < |lists| ==> listeners[i].Idle() && listeners[i].callbacks == lists[i])
    && (forall i :: |lists| <= i < |listeners| ==> Ready(listeners[i], watches[i], last))
  }

  // The next listener; the others are left alone.
  method DispatchNext(listeners: seq<Listener>, script: Script, last: nat, given: nat,
                      ghost watches: seq<seq<nat>>, ghost lists: seq<seq<nat>>, k: nat)
    returns (given': nat, empty: bool)
    requires |watches| == |listeners| && k == |lists| < |listeners| && last <= given
    requires forall i, j :: 0 <= i < j < |listeners| ==> listeners[i] != listeners[j]
    requires Dispatched(listeners, watches, last, lists)
    modifies listeners[k]
    ensures Dispatched(listeners, watches, last, lists + [listeners[k].callbacks])
    ensures var r := Pass(Begin(given), watches[k], script);
            listeners[k].callbacks == Left(r.order, r.gone) && given' == r.last && given <= given'
    ensures empty == (listeners[k].callbacks == [])
  {
    var l := listeners[k];
    given' := DispatchOne(l, script, given, watches[k]);
    empty := l.callbacks == [];
    forall i | 0 <= i < |listeners| && i != k ensures listeners[i] != l {
    }
  }

  // What the loop has after k listeners.
  ghost predicate Progress(watches: seq<seq<nat>>, scripts: seq<Script>, last: nat, k: nat,
                           lists: seq<seq<nat>>, given: nat, emptied: seq<nat>)
    requires |scripts| == |watches|
  {
    && k <= |watches| && (lists, given) == PassAll(watches[..k], scripts[..k], last)
    && |lists| == k && last <= given && emptied == Emptied(lists)
  }

  lemma ProgressNext(watches: seq<seq<nat>>, scripts: seq<Script>, last: nat, k: nat,
                     lists: seq<seq<nat>>, given: nat, emptied: seq<nat>, list: seq<nat>, given': nat)
    requires |scripts| == |watches| && Progress(watches, scripts, last, k, lists, given, emptied) && k < |watches|
    requires var r := Pass(Begin(given), watches[k], scripts[k]);
             list == Left(r.order, r.gone) && given' == r.last && given <= given'
    ensures Progress(watches, scripts, last, k + 1, lists + [list], given',
                     if list == [] then [k] + emptied else emptied)
  {
    PassAllAt(watches, scripts, last, k);
    EmptiedNext(lists, list);
  }

  // The first loop of the filter, over the listeners that match the message.
  method DispatchAll(listeners: seq<Listener>, scripts: seq<Script>, last: nat, ghost watches: seq<seq<nat>>)
    returns (emptied: seq<nat>, given: nat)
    requires |scripts| == |listeners| == |watches|
    requires forall i, j :: 0 <= i < j < |listeners| ==> listeners[i] != listeners[j]
    requires forall i :: 0 <= i < |listeners| ==> Ready(listeners[i], watches[i], last)
    modifies listeners
    ensures var (lists, end) := PassAll(watches, scripts, last);
            && given == end && emptied == Emptied(lists) && |lists| == |listeners|
            && forall i :: 0 <= i < |listeners| ==> listeners[i].Idle() && listeners[i].callbacks == lists[i]
  {
    emptied, given := [], last;
    ghost var lists: seq<seq<nat>> := [];
    for k := 0 to |listeners|
      invariant Progress(watches, scripts, last, k, lists, given, emptied)
      invariant Dispatched(listeners, watches, last, lists)
    {
      var next, empty := DispatchNext(listeners, scripts[k], last, given, watches, lists, k);
      ProgressNext(watches, scripts, last, k, lists, given, emptied, listeners[k].callbacks, next);
      given := next;
      if empty {
        emptied := [k] + emptied;
      }
      lists := lists + [listeners[k].callbacks];
    }
    assert watches[..|watches|] == watches && scripts[..|scripts|] == scripts;
  }

  function All(n: nat): seq<nat> {
    seq(n, i => i)
  }

  lemma AllMembers(n: nat)
    ensures NoDup(All(n)) && forall k: nat :: k in All(n) <==> k < n
  {
    forall k: nat | k < n ensures k in All(n) {
      assert All(n)[k] == k;
    }
  }

  function Members(s: seq<nat>): set<nat> {
    set x | x in s
  }

  // The deletion after a message, with so many rounds for it.
  function Deletion(watches: seq<seq<nat>>, scripts: seq<Script>, last: nat, rounds: nat): Sweep
    requires |scripts| == |watches|
  {
    var emptied := Emptied(PassAll(watches, scripts, last).0);
    Rounds(Start(All(|watches|), emptied), emptied, Members(emptied), rounds)
  }

  // A whole message: which listeners are left, and whether a freed one was visited.
  method Filter(listeners: seq<Listener>, scripts: seq<Script>, last: nat, rounds: nat, ghost watches: seq<seq<nat>>)
    returns (left: seq<nat>, fault: bool)
    requires |scripts| == |listeners| == |watches|
    requires forall i, j :: 0 <= i < j < |listeners| ==> listeners[i] != listeners[j]
    requires forall i :: 0 <= i < |listeners| ==> Ready(listeners[i], watches[i], last)
    modifies listeners
    ensures var r := Deletion(watches, scripts, last, rounds); left == r.listeners && fault == r.fault
  {
    var emptied, given := DispatchAll(listeners, scripts, last, watches);
    var freed, current;
    left, freed, current, fault := DeleteListeners(All(|listeners|), emptied, Members(emptied), rounds);
  }

  lemma FaultIff(n: nat, emptied: seq<nat>)
    requires NoDup(emptied)
    ensures (exists k: nat :: Rounds(Start(All(n), emptied), emptied, Members(emptied), k).fault) <==> |emptied| > 1
  {
    AllMembers(n);
    RevisitsFreedIff(All(n), emptied, Members(emptied));
    assert |emptied| > 1 ==> emptied[1] in Members(emptied);
  }

  // The deletion visits a freed listener if and only if the message leaves two or more without a watch.
  lemma FilterFaultsIff(watches: seq<seq<nat>>, scripts: seq<Script>, last: nat)
    requires |scripts| == |watches|
    ensures var lists := PassAll(watches, scripts, last).0;
            && ((exists k: nat :: Deletion(watches, scripts, last, k).fault) <==> |Emptied(lists)| > 1)
            && NoDup(Emptied(lists)) && forall k: nat :: k in Emptied(lists) <==> k < |lists| && lists[k] == []
  {
    var lists := PassAll(watches, scripts, last).0;
    EmptiedMembers(lists);
    FaultIff(|watches|, Emptied(lists));
    SameFaults(watches, scripts, last, Emptied(lists));
  }

  lemma SameFaults(watches: seq<seq<nat>>, scripts: seq<Script>, last: nat, emptied: seq<nat>)
    requires |scripts| == |watches| && emptied == Emptied(PassAll(watches, scripts, last).0)
    ensures (exists k: nat :: Deletion(watches, scripts, last, k).fault)
       <==> exists k: nat :: Rounds(Start(All(|watches|), emptied), emptied, Members(emptied), k).fault
  {
    if k: nat :| Deletion(watches, scripts, last, k).fault {
      assert Rounds(Start(All(|watches|), emptied), emptied, Members(emptied), k).fault;
    }
    if k: nat :| Rounds(Start(All(|watches|), emptied), emptied, Members(emptied), k).fault {
      assert Deletion(watches, scripts, last, k).fault;
    }
  }

  // ---------- Messages for which it happens ----------

  // Callbacks that do nothing and ask to go.
  function Leaving(): Script {
    Script((c: nat) => [], (c: nat) => false)
  }

  // A callback that removes its own watch and asks to go.
  function Clumsy(): Script {
    Script((c: nat) => [Remove(c)], (c: nat) => false)
  }

  lemma LeavingEmpties(c: nat, last: nat)
    ensures Empties([c], Leaving(), last)
  {
    var w := Begin(last);
    assert [c][1..] == [] && Leaving().acts(c) == [];
    assert Pass(w, [c], Leaving()) == Turn(w, c, Leaving());
    assert ([c] + [])[..0] == [];
  }

  ghost predicate Empties(list: seq<nat>, script: Script, last: nat) {
    var r := Pass(Begin(last), list, script);
    Left(r.order, r.gone) == [] && r.last == last
  }

  lemma BothPassed(a: seq<nat>, b: seq<nat>, script: Script, last: nat)
    requires Empties(a, script, last) && Empties(b, script, last)
    ensures PassAll([a] + [b], [script] + [script], last) == ([[]] + [[]], last)
  {
    PassAllNext([], [], last, a, script);
    var none: seq<nat> := [];
    assert [] + [a] == [a] && [] + [script] == [script] && [] + [none] == [none];
    assert PassAll([a], [script], last) == ([none], last);
    PassAllNext([a], [script], last, b, script);
  }

  lemma BothEmptied(none: seq<nat>)
    requires none == []
    ensures Emptied([none] + [none]) == [1, 0]
  {
    EmptiedNext([], none);
    assert [] + [none] == [none];
    EmptiedNext([none], none);
  }

  lemma TwoLists<T>(a: T, b: T)
    ensures [a] + [b] == [a, b]
  {
  }

  lemma TwoEmptied()
    ensures Emptied(PassAll([[1], [2]], [Leaving(), Leaving()], 2).0) == [1, 0]
  {
    LeavingEmpties(1, 2);
    LeavingEmpties(2, 2);
    BothPassed([1], [2], Leaving(), 2);
    BothEmptied([]);
    TwoLists([1], [2]);
    TwoLists(Leaving(), Leaving());
  }

  lemma ThirdRound()
    ensures Deletion([[1], [2]], [Leaving(), Leaving()], 2, 3).fault
  {
    TwoEmptied();
    assert [1, 0][1] in Members([1, 0]);
    VisitsTheSecond(All(2), [1, 0], Members([1, 0]), 3);
  }

  method OneWatch(lastId: nat) returns (l: Listener)
    ensures fresh(l) && Ready(l, [lastId + 1], lastId + 1)
  {
    l := new Listener(lastId);
    var x := l.AddCallback();
  }

  // Two listeners with one watch each, that asks to go: the third round of the deletion is at a freed one.
  method TwoLeave() returns (fault: bool)
    ensures fault
  {
    var a := OneWatch(0);
    var b := OneWatch(1);
    fault := ThreeRounds(a, b, Leaving());
    ThirdRound();
  }

  method ThreeRounds(a: Listener, b: Listener, script: Script) returns (fault: bool)
    requires a != b && Ready(a, [1], 2) && Ready(b, [2], 2)
    modifies a, b
    ensures fault == Deletion([[1], [2]], [script, script], 2, 3).fault
  {
    var left;
    left, fault := Filter([a, b], [script, script], 2, 3, [[1], [2]]);
  }

  // One watch that removes itself and asks to go is removed twice.
  method RemovesItself() returns (l: Listener)
    ensures fresh(l) && l.fault
  {
    l := new Listener(0);
    var x := l.AddCallback();
    assert [1][1..] == [];
    assert Pass(Begin(1), [1], Clumsy()).ran == [1] by {
      ActedLater(Begin(1), Clumsy().acts(1));
    }
    assert UsesFreed(Clumsy(), 1);
    l.Dispatch(Clumsy());
  }
}
