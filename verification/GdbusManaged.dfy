/**
 * GetManagedObjects: the walk over the object tree, and the client that joins late.
 */
module GdbusManaged {
  import opened Lists
  import opened GdbusObjects
  import opened GdbusCore
  import opened GdbusTree

  ghost function Below(t: Table, p: Path): set<Path> {
    set q | q in t && p < q
  }

  lemma PrefixTrans(c: Path, d: Path, q: Path)
    requires c <= d && d <= q
    ensures c <= q
  {
    assert d[..|c|] == q[..|c|];
  }

  lemma ChildBelow(t: Table, p: Path, c: Path)
    requires Nested(t) && p in t && c in t[p].objects
    ensures c in t && p < c && Below(t, c) < Below(t, p)
  {
    assert ChildrenOk(t, p) && Placed(t, c);
    NearestIsAbove(t, c);
    assert c in Below(t, p) && c !in Below(t, c);
    forall q | q in Below(t, c) ensures q in Below(t, p) {
      PrefixTrans(p, c, q);
    }
  }

  // The objects appended for the children cs of p, each followed by those below it.
  ghost function Listed(t: Table, p: Path, cs: seq<Path>): seq<Path>
    requires Nested(t) && p in t && forall c :: c in cs ==> c in t[p].objects
    decreases Below(t, p), |cs|
  {
    if cs == [] then []
    else
      ChildBelow(t, p, cs[0]);
      [cs[0]] + Listed(t, cs[0], t[cs[0]].objects) + Listed(t, p, cs[1..])
  }

  lemma PrefixOfBoth(c: Path, d: Path, q: Path)
    requires c <= q && d <= q && |c| <= |d|
    ensures c <= d
  {
    assert d[..|c|] == q[..|c|];
  }

  lemma {:induction false} NearestIsLongest(t: Table, q: Path, c: Path)
    requires c in t && c < q
    ensures Nearest(t, q).Some? && c <= Nearest(t, q).value < q
    decreases |q|
  {
    var up := q[..|q| - 1];
    assert up < q;
    PrefixOfBoth(c, up, q);
    assert |c| == |up| ==> c == up;
    if up !in t {
      NearestIsLongest(t, up, c);
    }
  }

  // The child of c on the way to q.
  lemma {:induction false} Towards(t: Table, c: Path, q: Path) returns (d: Path)
    requires Nested(t) && c in t && q in t && c < q
    ensures d in t[c].objects && d <= q
    decreases |q|
  {
    NearestIsLongest(t, q, c);
    assert Placed(t, q);
    var m := Nearest(t, q).value;
    if m == c {
      d := q;
    } else {
      d := Towards(t, c, m);
      PrefixOfBoth(d, q, q);
    }
  }

  // The child above a listed object.
  lemma {:induction false} ListedBelow(t: Table, p: Path, cs: seq<Path>, q: Path) returns (c: Path)
    requires Nested(t) && p in t && (forall c :: c in cs ==> c in t[p].objects)
    requires q in Listed(t, p, cs)
    ensures q in t && c in cs && c <= q
    decreases Below(t, p), |cs|
  {
    c := cs[0];
    ChildBelow(t, p, c);
    if q in Listed(t, c, t[c].objects) {
      var d := ListedBelow(t, c, t[c].objects, q);
      ChildBelow(t, c, d);
      PrefixTrans(c, d, q);
    } else if q != c {
      c := ListedBelow(t, p, cs[1..], q);
    }
  }

  lemma {:induction false} ListedAll(t: Table, p: Path, cs: seq<Path>, c: Path, q: Path)
    requires Nested(t) && p in t && (forall d :: d in cs ==> d in t[p].objects)
    requires c in cs && q in t && c <= q
    ensures q in Listed(t, p, cs)
    decreases Below(t, p), |cs|
  {
    ChildBelow(t, p, cs[0]);
    if c != cs[0] {
      ListedAll(t, p, cs[1..], c, q);
    } else if c != q {
      var d := Towards(t, c, q);
      ListedAll(t, c, t[c].objects, d, q);
    }
  }

  // No object is below two children of one parent.
  lemma SiblingsApart(t: Table, p: Path, c: Path, d: Path, q: Path)
    requires Nested(t) && p in t && c in t[p].objects && d in t[p].objects && c <= q && d <= q
    ensures c == d
  {
    if |c| <= |d| {
      ClimbStops(t, p, c, d, q);
    } else {
      ClimbStops(t, p, d, c, q);
    }
  }

  lemma ClimbStops(t: Table, p: Path, c: Path, d: Path, q: Path)
    requires Nested(t) && p in t && c in t[p].objects && d in t[p].objects && c <= q && d <= q && |c| <= |d|
    ensures c == d
  {
    PrefixOfBoth(c, d, q);
    ChildBelow(t, p, c);
    ChildBelow(t, p, d);
    assert ChildrenOk(t, p) && Placed(t, d);
    if c < d {
      NearestIsLongest(t, d, c);
    }
  }

  lemma NoDupAppend(a: seq<Path>, b: seq<Path>)
    requires NoDup(a) && NoDup(b) && forall x :: x in a ==> x !in b
    ensures NoDup(a + b)
  {
    var s := a + b;
    forall i, j | 0 <= i < j < |s| ensures s[i] != s[j] {
      if i < |a| && |a| <= j {
        assert a[i] in a && b[j - |a|] in b;
      }
    }
  }

  lemma BranchBelow(t: Table, p: Path, c: Path, q: Path)
    requires Nested(t) && p in t && c in t[p].objects && c in t && q in [c] + Listed(t, c, t[c].objects)
    ensures c <= q
  {
    if q != c {
      var d := ListedBelow(t, c, t[c].objects, q);
      ChildBelow(t, c, d);
      PrefixTrans(c, d, q);
    }
  }

  lemma BranchesApart(t: Table, p: Path, cs: seq<Path>, q: Path)
    requires Nested(t) && p in t && (forall c :: c in cs ==> c in t[p].objects) && NoDup(cs) && cs != [] && cs[0] in t
    requires q in [cs[0]] + Listed(t, cs[0], t[cs[0]].objects)
    ensures q !in Listed(t, p, cs[1..])
  {
    BranchBelow(t, p, cs[0], q);
    if q in Listed(t, p, cs[1..]) {
      var d := ListedBelow(t, p, cs[1..], q);
      SiblingsApart(t, p, cs[0], d, q);
    }
  }

  lemma OwnBranch(t: Table, p: Path, c: Path)
    requires Nested(t) && p in t && c in t[p].objects && c in t
    ensures c !in Listed(t, c, t[c].objects)
  {
    if c in Listed(t, c, t[c].objects) {
      var d := ListedBelow(t, c, t[c].objects, c);
      ChildBelow(t, c, d);
    }
  }

  lemma {:induction false} ListedOnce(t: Table, p: Path, cs: seq<Path>)
    requires Nested(t) && p in t && (forall c :: c in cs ==> c in t[p].objects) && NoDup(cs)
    ensures NoDup(Listed(t, p, cs))
    decreases Below(t, p), |cs|
  {
    if cs != [] {
      var c := cs[0];
      ChildBelow(t, p, c);
      assert ChildrenOk(t, c);
      ListedOnce(t, c, t[c].objects);
      ListedOnce(t, p, cs[1..]);
      OwnBranch(t, p, c);
      NoDupAppend([c], Listed(t, c, t[c].objects));
      forall x | x in [c] + Listed(t, c, t[c].objects) ensures x !in Listed(t, p, cs[1..]) {
        BranchesApart(t, p, cs, x);
      }
      NoDupAppend([c] + Listed(t, c, t[c].objects), Listed(t, p, cs[1..]));
    }
  }

  // The reply lists every object but the manager itself, each of them once.
  lemma ManagedObjects(t: Table)
    requires Nested(t)
    ensures NoDup(Listed(t, ROOT, t[ROOT].objects))
    ensures forall q :: q in Listed(t, ROOT, t[ROOT].objects) <==> q in t && q != ROOT
  {
    assert ChildrenOk(t, ROOT);
    ListedOnce(t, ROOT, t[ROOT].objects);
    forall q ensures q in Listed(t, ROOT, t[ROOT].objects) <==> q in t && q != ROOT {
      if q in Listed(t, ROOT, t[ROOT].objects) {
        var c := ListedBelow(t, ROOT, t[ROOT].objects, q);
        ChildBelow(t, ROOT, c);
      } else if q in t && q != ROOT {
        var d := Towards(t, ROOT, q);
        ListedAll(t, ROOT, t[ROOT].objects, d, q);
      }
    }
  }

  // ---------- A client that joins late ----------

  // What the reply gives the client.
  ghost predicate InReply(t: Table, p: Path, n: Name)
    requires Nested(t)
  {
    p in t && p in Listed(t, ROOT, t[ROOT].objects) && n in t[p].interfaces && !Builtin(n)
  }

  // From some earlier knowledge, the signals from position k on.
  ghost function Heard(c: Proxies, bus: seq<Signal>, k: nat): Proxies
    requires k <= |bus|
    decreases |bus|
  {
    if k == |bus| then c else Apply(Heard(c, bus[..|bus| - 1], k), bus[|bus| - 1])
  }

  ghost predicate OnlyLive(t: Table, c: Proxies) {
    forall p, n :: (p, n) in c ==> p in t && p != ROOT && n in t[p].interfaces && !Builtin(n)
  }

  lemma HeardNext(c: Proxies, bus: seq<Signal>, k: nat, more: seq<Signal>, t: Table)
    requires k <= |bus| && |more| <= 1 && OnlyLive(t, Heard(c, bus, k))
    requires forall x :: x in more ==> x.InterfacesAdded? ==>
      x.path in t && x.path != ROOT && forall n :: n in x.names ==> n in t[x.path].interfaces
    ensures OnlyLive(t, Heard(c, bus + more, k))
  {
    if more == [] {
      assert bus + more == bus;
    } else {
      assert (bus + more)[..|bus|] == bus;
    }
  }

  lemma ProcessedHeard(c: Proxies, s: State, p: Path, k: nat)
    requires k <= |s.bus| && p in s.table && ObjectOk(p, s.table[p]) && OnlyLive(s.table, Heard(c, s.bus, k))
    ensures var r := ProcessChanges(s, p); k <= |r.bus| && OnlyLive(r.table, Heard(c, r.bus, k))
  {
    var o := s.table[p];
    var r := ProcessChanges(s, p);
    if p == ROOT {
      assert r.bus == s.bus;
    } else {
      var mid := s.bus + AddedSignal(p, o.added);
      HeardNext(c, s.bus, k, AddedSignal(p, o.added), s.table);
      HeardNext(c, mid, k, RemovedSignal(p, o.removed), s.table);
      assert r.bus == mid + RemovedSignal(p, o.removed);
    }
    StillLive(s.table, r.table, Heard(c, r.bus, k));
  }

  lemma StillLive(t: Table, u: Table, c: Proxies)
    requires OnlyLive(t, c) && u.Keys == t.Keys && forall q :: q in t ==> u[q].interfaces == t[q].interfaces
    ensures OnlyLive(u, c)
  {
  }

  ghost predicate Waiting(s: State) {
    Flushable(s) && forall p :: p in s.table ==> ObjectOk(p, s.table[p])
  }

  lemma WaitingNext(s: State)
    requires Waiting(s) && s.pending != []
    ensures Waiting(ProcessChanges(s, s.pending[0]))
  {
    ProcessFirst(s);
    var r := ProcessChanges(s, s.pending[0]);
    forall p | p in r.table ensures ObjectOk(p, r.table[p]) {
      assert ObjectOk(p, s.table[p]);
    }
  }

  lemma {:induction false} FlushHeard(c: Proxies, s: State, k: nat)
    requires Waiting(s) && k <= |s.bus| && OnlyLive(s.table, Heard(c, s.bus, k))
    ensures var r := Flush(s); k <= |r.bus| && OnlyLive(r.table, Heard(c, r.bus, k))
    decreases |s.pending|
  {
    if s.pending != [] {
      var p := s.pending[0];
      assert ObjectOk(p, s.table[p]);
      ProcessedHeard(c, s, p, k);
      WaitingNext(s);
      FlushHeard(c, ProcessChanges(s, p), k);
    }
  }

  // A client without proxies that asks for the objects hears the flush that precedes the reply, then the
  // reply: it has the server's interfaces, whatever was waiting.
  lemma LateClientIsExact(s: State)
    requires Core(s, false) && Nested(s.table)
    ensures var r := Flush(s);
            && |s.bus| <= |r.bus|
            && forall p, n :: (p, n) in Heard({}, r.bus, |s.bus|) || InReply(s.table, p, n)
                         <==> p in s.table && p != ROOT && n in s.table[p].interfaces && !Builtin(n)
  {
    FlushHeard({}, s, |s.bus|);
    FlushInterfaces(s);
    ManagedObjects(s.table);
  }

  lemma {:induction false} FlushInterfaces(s: State)
    requires Flushable(s)
    ensures Flush(s).table.Keys == s.table.Keys
    ensures forall p :: p in s.table ==> Flush(s).table[p].interfaces == s.table[p].interfaces
    decreases |s.pending|
  {
    if s.pending != [] {
      ProcessFirst(s);
      FlushInterfaces(ProcessChanges(s, s.pending[0]));
    }
  }
}
