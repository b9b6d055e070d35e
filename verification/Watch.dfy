/**
 * The signal dispatcher's code, for one listener and its watches.
 */
module Watch {
  import opened Lists
  import opened WatchPass

  // Taking x out of a list from which gone has been taken out already.
  lemma WithoutLeft(s: seq<nat>, gone: set<nat>, x: nat)
    requires NoDup(s)
    ensures Without(Left(s, gone), x) == Left(s, gone + {x})
  {
    LeftNoDup(s, gone);
    WithoutIsLeft(Left(s, gone), x);
    LeftMembers(s, gone);
    LeftDepends(Left(s, gone), {x}, gone + {x});
    LeftTwice(s, gone, gone + {x});
  }

  // The lists of a listener in the middle of a pass, and the timeline so far.
  ghost predicate Tracks(w: Timeline, callbacks: seq<nat>, processed: seq<nat>, lastId: nat) {
    && processed == Left(w.order, w.gone) && lastId == w.last
    && NoDup(w.order) && (forall x :: x in w.order ==> 0 < x <= w.last)
    && NoDup(callbacks) && (forall x :: x in callbacks ==> 0 < x <= w.last && x !in w.order && x !in w.gone)
    && (forall x :: x in w.gone ==> x <= w.last)
  }

  lemma TracksAdd(w: Timeline, callbacks: seq<nat>, processed: seq<nat>, lastId: nat)
    requires Tracks(w, callbacks, processed, lastId)
    ensures Tracks(Act(w, Add), callbacks, processed + [lastId + 1], lastId + 1)
    ensures Left(callbacks, Act(w, Add).gone) == callbacks
  {
    LeftNext(w.order, lastId + 1, w.gone);
    LeftAll(callbacks, w.gone);
    NoDupNext(w.order, lastId + 1);
  }

  // Taking x out of a list of watches none of which is gone.
  lemma RemovedLeft(s: seq<nat>, gone: set<nat>, x: nat)
    requires NoDup(s) && forall y :: y in s ==> y !in gone
    ensures Without(s, x) == Left(s, gone + {x}) && NoDup(Without(s, x))
    ensures forall y :: y in Without(s, x) <==> y in s && y != x
  {
    LeftAll(s, gone);
    WithoutLeft(s, gone, x);
    WithoutMembers(s, x);
  }

  lemma TracksGiven(w: Timeline, callbacks: seq<nat>, processed: seq<nat>, lastId: nat, x: nat)
    requires Tracks(w, callbacks, processed, lastId) && x <= w.last
    ensures Tracks(w.(gone := w.gone + {x}), Without(callbacks, x), Without(processed, x), lastId)
    ensures Left(callbacks, w.gone + {x}) == Without(callbacks, x)
  {
    RemovedLeft(callbacks, w.gone, x);
    WithoutLeft(w.order, w.gone, x);
  }

  lemma TracksRemove(w: Timeline, callbacks: seq<nat>, processed: seq<nat>, lastId: nat, x: nat)
    requires Tracks(w, callbacks, processed, lastId)
    ensures Tracks(Act(w, Remove(x)), Without(callbacks, x), Without(processed, x), lastId)
    ensures Left(callbacks, Act(w, Remove(x)).gone) == Without(callbacks, x)
  {
    if x <= w.last {
      TracksGiven(w, callbacks, processed, lastId, x);
    } else {
      LeftAll(callbacks, w.gone);
      LeftMembers(w.order, w.gone);
      WithoutAbsent(callbacks, x);
      WithoutAbsent(processed, x);
    }
  }

  // The first callback, c, and the rest of the list, when gone has been taken out.
  lemma RestLeft(c: nat, rest: seq<nat>, gone: set<nat>)
    requires NoDup([c] + rest)
    ensures var left := Left([c] + rest, gone);
            && (c in left <==> c !in gone)
            && Without(left, c) == Left(rest, gone) == Left(rest, gone + {c})
  {
    FirstOnce(c, rest);
    assert ([c] + rest)[1..] == rest;
    LeftFirst([c] + rest, gone);
    LeftMembers(rest, gone);
    LeftDepends(rest, gone, gone + {c});
    var left := Left(rest, gone);
    if c in gone {
      assert Left([c] + rest, gone) == left;
      WithoutAbsent(left, c);
    } else {
      WithoutFirst(c, left);
    }
  }

  lemma WithoutFirst(c: nat, s: seq<nat>)
    ensures Without([c] + s, c) == s
  {
    assert ([c] + s)[1..] == s;
  }

  lemma FirstOnce(c: nat, rest: seq<nat>)
    requires NoDup([c] + rest)
    ensures c !in rest
  {
    forall i | 0 <= i < |rest| ensures rest[i] != c {
      assert ([c] + rest)[0] != ([c] + rest)[i + 1];
    }
  }

  // The same turn, in the three ways it may end: c goes,
  lemma TracksGone(v: Timeline, c: nat, callbacks: seq<nat>, processed: seq<nat>, lastId: nat)
    requires Tracks(v, callbacks, processed, lastId) && c !in v.order && 0 < c <= v.last
    ensures Tracks(v.(order := v.order + [c], gone := v.gone + {c}), Without(callbacks, c), processed, lastId)
    ensures Without(processed, c) == processed
  {
    NoDupNext(v.order, c);
    WithoutMembers(callbacks, c);
    LeftNext(v.order, c, v.gone + {c});
    LeftDepends(v.order, v.gone, v.gone + {c});
    LeftMembers(v.order, v.gone);
    WithoutAbsent(processed, c);
  }

  // or c has gone by itself,
  lemma TracksSelf(v: Timeline, c: nat, callbacks: seq<nat>, processed: seq<nat>, lastId: nat)
    requires Tracks(v, callbacks, processed, lastId) && c !in v.order && c in v.gone && 0 < c && c !in callbacks
    ensures Tracks(v.(order := v.order + [c]), callbacks, processed, lastId)
  {
    NoDupNext(v.order, c);
    LeftNext(v.order, c, v.gone);
  }

  // or c has had its turn and stays.
  lemma TracksMoved(v: Timeline, c: nat, callbacks: seq<nat>, processed: seq<nat>, lastId: nat)
    requires Tracks(v, callbacks, processed, lastId) && c in callbacks
    ensures Tracks(v.(order := v.order + [c]), Without(callbacks, c), processed + [c], lastId)
  {
    NoDupNext(v.order, c);
    WithoutMembers(callbacks, c);
    LeftNext(v.order, c, v.gone);
  }

  // A callback that removes its own watch and then asks to go: its watch is removed a second time.
  predicate UsesFreed(script: Script, c: nat) {
    Remove(c) in script.acts(c) && !script.keeps(c)
  }

  class Listener {
    var callbacks: seq<nat>
    var processed: seq<nat>
    var lock: bool
    var lastId: nat
    var freed: bool
    // Whether a watch was used after it had been freed.
    var fault: bool
    ghost var ran: seq<nat>

    ghost predicate Idle()
      reads this
    {
      && !lock && processed == [] && NoDup(callbacks)
      && forall x :: x in callbacks ==> 0 < x <= lastId
    }

    constructor (lastId: nat)
      ensures Idle() && callbacks == [] && this.lastId == lastId && !freed && !fault
    {
      callbacks, processed, lock, this.lastId, freed, fault, ran := [], [], false, lastId, false, false, [];
    }

    // While the listener is locked a new watch waits behind those that have had their turn.
    method AddCallback() returns (id: nat)
      modifies this
      ensures id == lastId == old(lastId) + 1 && ran == old(ran) && lock == old(lock) && freed == old(freed)
      ensures fault == old(fault)
      ensures processed == old(processed) + if lock then [id] else []
      ensures callbacks == old(callbacks) + if lock then [] else [id]
    {
      lastId := lastId + 1;
      id := lastId;
      if lock {
        processed := processed + [id];
      } else {
        callbacks := callbacks + [id];
      }
    }

    // The listener itself goes when its last watch goes, but not while it is locked.
    method RemoveCallback(x: nat) returns (gone: bool)
      modifies this
      ensures callbacks == Without(old(callbacks), x) && processed == Without(old(processed), x)
      ensures lastId == old(lastId) && ran == old(ran) && lock == old(lock) && fault == old(fault)
      ensures gone == (callbacks == [] && !lock) && freed == (old(freed) || gone)
    {
      callbacks := RemoveFirst(callbacks, x);
      processed := RemoveFirst(processed, x);
      if callbacks != [] || lock {
        return false;
      }
      freed := true;
      return true;
    }

    method RemoveWatch(x: nat) returns (found: bool)
      modifies this
      ensures callbacks == Without(old(callbacks), x) && processed == Without(old(processed), x)
      ensures lastId == old(lastId) && ran == old(ran) && lock == old(lock) && fault == old(fault)
      ensures found == (x in old(callbacks) || x in old(processed))
      ensures freed == (old(freed) || (found && callbacks == [] && !lock))
    {
      if x !in callbacks && x !in processed {
        WithoutAbsent(callbacks, x);
        WithoutAbsent(processed, x);
        return false;
      }
      var _ := RemoveCallback(x);
      return true;
    }

    // What a callback does to the listener it is called from.
    method RunAction(a: Action, ghost v: Timeline)
      requires lock && Tracks(v, callbacks, processed, lastId)
      modifies this
      ensures lock && ran == old(ran) && freed == old(freed) && fault == old(fault)
      ensures Tracks(Act(v, a), callbacks, processed, lastId) && callbacks == Left(old(callbacks), Act(v, a).gone)
    {
      match a {
        case Add =>
          TracksAdd(v, callbacks, processed, lastId);
          var _ := AddCallback();
        case Remove(x) =>
          TracksRemove(v, callbacks, processed, lastId, x);
          var _ := RemoveWatch(x);
      }
    }

    method RunActions(acts: seq<Action>, ghost w: Timeline)
      requires lock && Tracks(w, callbacks, processed, lastId)
      modifies this
      ensures lock && ran == old(ran) && freed == old(freed) && fault == old(fault)
      ensures var v := ActAll(w, acts);
              Tracks(v, callbacks, processed, lastId) && callbacks == Left(old(callbacks), v.gone)
    {
      LeftAll(callbacks, w.gone);
      for i := 0 to |acts|
        invariant lock && ran == old(ran) && freed == old(freed) && fault == old(fault)
        invariant var v := ActAll(w, acts[..i]);
                  Tracks(v, callbacks, processed, lastId) && callbacks == Left(old(callbacks), v.gone)
      {
        ghost var v := ActAll(w, acts[..i]);
        ActedNext(w, acts, i);
        LeftTwice(old(callbacks), v.gone, Act(v, acts[i]).gone);
        RunAction(acts[i], v);
      }
      assert acts[..|acts|] == acts;
    }

    method SignalFilter(script: Script)
      requires lock && processed == [] && ran == [] && NoDup(callbacks)
      requires forall x :: x in callbacks ==> 0 < x <= lastId
      modifies this
      ensures lock && freed == old(freed) && callbacks == []
      ensures var r := Pass(Begin(old(lastId)), old(callbacks), script);
              && processed == Left(r.order, r.gone) && lastId == r.last && ran == r.ran
              && (fault <==> old(fault) || exists c :: c in r.ran && UsesFreed(script, c))
    {
      ghost var w := Begin(lastId);
      ghost var all := Pass(w, callbacks, script);
      while callbacks != []
        invariant lock && freed == old(freed)
        invariant Tracks(w, callbacks, processed, lastId) && ran == w.ran
        invariant Pass(w, callbacks, script) == all
        invariant fault <==> old(fault) || exists c :: c in ran && UsesFreed(script, c)
        decreases |callbacks|
      {
        w := TakeTurn(script, w);
      }
    }

    // One round of the loop.
    method TakeTurn(script: Script, ghost w: Timeline) returns (ghost w': Timeline)
      requires lock && callbacks != [] && Tracks(w, callbacks, processed, lastId) && ran == w.ran
      modifies this
      ensures lock && freed == old(freed) && |callbacks| < |old(callbacks)|
      ensures Tracks(w', callbacks, processed, lastId) && ran == w'.ran
      ensures Pass(w', callbacks, script) == Pass(w, old(callbacks), script)
      ensures ran == old(ran) + [old(callbacks)[0]]
      ensures fault == (old(fault) || UsesFreed(script, old(callbacks)[0]))
    {
      var c := callbacks[0];
      ghost var rest := callbacks[1..];
      assert callbacks == [c] + rest;
      ghost var v := ActAll(w, script.acts(c));
      w' := Turn(w, c, script);
      TurnStarts(w, c, script);
      ActedGone(w, script.acts(c), c);
      ran := ran + [c];
      RunActions(script.acts(c), w);
      RestLeft(c, rest, v.gone);
      LeftShorter(rest, w'.gone);
      PassOverGone(w', rest, script);
      Settle(c, script.keeps(c), v);
    }

    // What is done with a callback that has run.
    method Settle(c: nat, keep: bool, ghost v: Timeline)
      requires lock && Tracks(v, callbacks, processed, lastId) && c !in v.order && 0 < c <= v.last
      requires c in callbacks || c in v.gone
      modifies this
      ensures lock && freed == old(freed) && ran == old(ran) && callbacks == Without(old(callbacks), c)
      ensures fault == (old(fault) || (!keep && c !in old(callbacks)))
      ensures Tracks(v.(order := v.order + [c], gone := if keep then v.gone else v.gone + {c}), callbacks, processed, lastId)
    {
      if !keep {
        TracksGone(v, c, callbacks, processed, lastId);
        fault := fault || c !in callbacks;
        var _ := RemoveCallback(c);
        return;
      }
      if c !in callbacks {
        TracksSelf(v, c, callbacks, processed, lastId);
        WithoutAbsent(callbacks, c);
        return;
      }
      TracksMoved(v, c, callbacks, processed, lastId);
      callbacks := RemoveFirst(callbacks, c);
      processed := processed + [c];
    }

    // The listener's share of one message.
    method Dispatch(script: Script)
      requires Idle()
      modifies this
      ensures Idle() && freed == old(freed)
      ensures var r := Pass(Begin(old(lastId)), old(callbacks), script);
              && callbacks == Left(r.order, r.gone) && lastId == r.last && ran == r.ran
              && (fault <==> old(fault) || exists c :: c in r.ran && UsesFreed(script, c))
    {
      ran := [];
      lock := true;
      SignalFilter(script);
      callbacks := processed;
      processed := [];
      lock := false;
      ghost var r := Pass(Begin(old(lastId)), old(callbacks), script);
      PassOrder(old(callbacks), old(lastId), script);
      SurvivorsOfPass(old(callbacks), old(lastId), script);
      RanAmong(old(callbacks), old(lastId), script);
      LeftMembers(r.order, r.gone);
    }
  }

  lemma ActedNext(w: Timeline, acts: seq<Action>, i: nat)
    requires i < |acts|
    ensures var v := ActAll(w, acts[..i]);
            ActAll(w, acts[..i + 1]) == Act(v, acts[i]) && v.gone <= Act(v, acts[i]).gone
  {
    assert acts[..i + 1][..i] == acts[..i];
  }

  lemma TurnStarts(w: Timeline, c: nat, script: Script)
    requires c <= w.last && c !in w.order && c !in w.gone
    ensures var v, w' := ActAll(w, script.acts(c)), Turn(w, c, script);
            && c !in v.order && c <= v.last && v.ran == w.ran
            && w' == v.(order := v.order + [c], gone := if script.keeps(c) then v.gone else v.gone + {c}, ran := w.ran + [c])
  {
    ActedLater(w, script.acts(c));
    ActedOnly(w, script.acts(c), c);
  }

  // Actions enter only new ids.
  lemma {:induction false} ActedOnly(w: Timeline, acts: seq<Action>, c: nat)
    requires c <= w.last && c !in w.order
    ensures c !in ActAll(w, acts).order
    decreases |acts|
  {
    if acts != [] {
      ActedOnly(w, acts[..|acts| - 1], c);
      ActedLater(w, acts[..|acts| - 1]);
    }
  }
}
