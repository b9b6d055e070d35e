/**
 * Deleting the listeners that a message has emptied: the loop over them goes on from the head's successor,
 * whatever it has just visited.
 */
module WatchDelete {
  import opened Lists
  import opened WatchPass

  // Where the loop is in the list of emptied listeners.
  datatype Position = At(index: nat) | End

  // The listeners registered, those freed, where the loop is, and whether it has visited a freed one.
  datatype Sweep = Sweep(listeners: seq<nat>, freed: set<nat>, at: Position, fault: bool)

  function Start(listeners: seq<nat>, emptied: seq<nat>): Sweep {
    Sweep(listeners, {}, if emptied == [] then End else At(0), false)
  }

  function Next(emptied: seq<nat>): Position {
    if |emptied| > 1 then At(1) else End
  }

  // One round. Listeners outside empty have been given callbacks again; a visit to a freed one ends all.
  function Round(s: Sweep, emptied: seq<nat>, empty: set<nat>): Sweep {
    if s.fault || s.at == End || s.at.index >= |emptied| then s
    else
      var d := emptied[s.at.index];
      if d in s.freed then s.(fault := true)
      else if d !in empty then s.(at := Next(emptied))
      else Sweep(Without(s.listeners, d), s.freed + {d}, Next(emptied), false)
  }

  function Rounds(s: Sweep, emptied: seq<nat>, empty: set<nat>, k: nat): Sweep {
    if k == 0 then s else Round(Rounds(s, emptied, empty, k - 1), emptied, empty)
  }

  // The loop, for as many rounds as are given to it.
  method DeleteListeners(listeners: seq<nat>, emptied: seq<nat>, empty: set<nat>, rounds: nat)
    returns (left: seq<nat>, freed: set<nat>, current: Position, fault: bool)
    ensures Sweep(left, freed, current, fault) == Rounds(Start(listeners, emptied), emptied, empty, rounds)
  {
    left, freed, fault := listeners, {}, false;
    current := if emptied == [] then End else At(0);
    for k := 0 to rounds
      invariant Sweep(left, freed, current, fault) == Rounds(Start(listeners, emptied), emptied, empty, k)
    {
      if !fault && current != End && current.index < |emptied| {
        var data := emptied[current.index];
        if data in freed {
          fault := true;
        } else {
          if data in empty {
            left := RemoveFirst(left, data);
            freed := freed + {data};
          }
          current := Next(emptied);
        }
      }
    }
  }

  function StillEmpty(emptied: seq<nat>, empty: set<nat>): set<nat> {
    set d | d in emptied && d in empty
  }

  // With at most one emptied listener the loop ends, and has removed it if it is still empty.
  lemma DeletesTheOne(listeners: seq<nat>, emptied: seq<nat>, empty: set<nat>)
    requires NoDup(listeners) && |emptied| <= 1
    ensures var r := Rounds(Start(listeners, emptied), emptied, empty, |emptied|);
            && r.at == End && !r.fault
            && r.listeners == Left(listeners, StillEmpty(emptied, empty))
  {
    if emptied == [] {
      LeftAll(listeners, {});
      assert StillEmpty(emptied, empty) == {};
    } else {
      var d := emptied[0];
      var s := Start(listeners, emptied);
      assert Rounds(s, emptied, empty, 0) == s;
      assert Rounds(s, emptied, empty, 1) == Round(s, emptied, empty);
      if d in empty {
        assert StillEmpty(emptied, empty) == {d};
        WithoutIsLeft(listeners, d);
      } else {
        assert StillEmpty(emptied, empty) == {};
        LeftAll(listeners, {});
      }
    }
  }

  // With more, it visits the first, then the second, and the second again.
  lemma {:induction false} VisitsTheSecond(listeners: seq<nat>, emptied: seq<nat>, empty: set<nat>, k: nat)
    requires |emptied| > 1 && emptied[0] != emptied[1] && k > 0
    ensures var r := Rounds(Start(listeners, emptied), emptied, empty, k);
            && r.at == At(1)
            && r.freed == empty * (if k == 1 then {emptied[0]} else {emptied[0], emptied[1]})
            && r.fault == (k > 2 && emptied[1] in empty)
    decreases k
  {
    if k == 1 {
      assert Rounds(Start(listeners, emptied), emptied, empty, 0) == Start(listeners, emptied);
    } else {
      VisitsTheSecond(listeners, emptied, empty, k - 1);
    }
  }

  // The loop ends if and only if one message emptied at most one listener.
  lemma DeletionEndsIff(listeners: seq<nat>, emptied: seq<nat>, empty: set<nat>)
    requires NoDup(listeners) && NoDup(emptied)
    ensures (exists k: nat :: Rounds(Start(listeners, emptied), emptied, empty, k).at == End) <==> |emptied| <= 1
  {
    if |emptied| <= 1 {
      DeletesTheOne(listeners, emptied, empty);
    } else {
      forall k: nat ensures Rounds(Start(listeners, emptied), emptied, empty, k).at != End {
        if k > 0 {
          VisitsTheSecond(listeners, emptied, empty, k);
        }
      }
    }
  }

  // It visits a listener that it has freed if and only if it emptied two or more and the second of them is
  // still empty; else it goes round for ever, and either way it never reaches the third.
  lemma RevisitsFreedIff(listeners: seq<nat>, emptied: seq<nat>, empty: set<nat>)
    requires NoDup(listeners) && NoDup(emptied)
    ensures (exists k: nat :: Rounds(Start(listeners, emptied), emptied, empty, k).fault)
       <==> |emptied| > 1 && emptied[1] in empty
    ensures forall k: nat, i :: 2 <= i < |emptied| ==>
      emptied[i] !in Rounds(Start(listeners, emptied), emptied, empty, k).freed
  {
    if |emptied| > 1 {
      forall k: nat ensures var r := Rounds(Start(listeners, emptied), emptied, empty, k);
                            && (r.fault ==> emptied[1] in empty)
                            && forall i :: 2 <= i < |emptied| ==> emptied[i] !in r.freed
      {
        if k > 0 {
          VisitsTheSecond(listeners, emptied, empty, k);
        }
      }
      VisitsTheSecond(listeners, emptied, empty, 3);
    } else {
      forall k: nat ensures !Rounds(Start(listeners, emptied), emptied, empty, k).fault {
        NoFaultAlone(listeners, emptied, empty, k);
      }
    }
  }

  lemma {:induction false} NoFaultAlone(listeners: seq<nat>, emptied: seq<nat>, empty: set<nat>, k: nat)
    requires |emptied| <= 1
    ensures var r := Rounds(Start(listeners, emptied), emptied, empty, k);
            !r.fault && (r.at == End || (k == 0 && r.freed == {}))
    decreases k
  {
    if k > 0 {
      NoFaultAlone(listeners, emptied, empty, k - 1);
    }
  }
}
