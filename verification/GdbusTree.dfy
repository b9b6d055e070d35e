/**
 * The tree of objects: parents are registered before their children and removed after them.
 */
module GdbusTree {
  import opened Lists
  import opened Wrappers
  import opened GdbusObjects

  type Table = map<Path, Object>

  // The nearest registered ancestor.
  function Nearest(t: Table, p: Path): Option<Path>
    decreases |p|
  {
    if p == ROOT then None
    else
      var up := p[..|p| - 1];
      if up in t then Some(up) else Nearest(t, up)
  }

  lemma {:induction false} NearestIsAbove(t: Table, p: Path)
    requires ROOT in t && p != ROOT
    ensures Nearest(t, p).Some? && Nearest(t, p).value in t && Nearest(t, p).value < p
    decreases |p|
  {
    var up := p[..|p| - 1];
    assert up < p;
    if up !in t {
      NearestIsAbove(t, up);
    }
  }

  lemma {:induction false} NearestDepends(t: Table, u: Table, p: Path)
    requires forall q :: q < p ==> (q in t <==> q in u)
    ensures Nearest(t, p) == Nearest(u, p)
    decreases |p|
  {
    if p != ROOT {
      var up := p[..|p| - 1];
      assert up < p;
      NearestDepends(t, u, up);
    }
  }

  // A registered object is below its nearest ancestor, once.
  ghost predicate Placed(t: Table, p: Path)
    requires p in t
  {
    p != ROOT ==>
      && t[p].parent == Nearest(t, p) && t[p].parent.Some?
      && t[p].parent.value in t && p in t[t[p].parent.value].objects
  }

  ghost predicate ChildrenOk(t: Table, p: Path)
    requires p in t
  {
    NoDup(t[p].objects) && forall c :: c in t[p].objects ==> c in t && c != ROOT && t[c].parent == Some(p)
  }

  ghost predicate Nested(t: Table) {
    && ROOT in t
    && (forall p :: p in t ==> Placed(t, p))
    && (forall p :: p in t ==> ChildrenOk(t, p))
  }

  ghost predicate NoneBelow(t: Table, p: Path) {
    forall q :: q in t ==> !(p < q)
  }

  // Nothing to repair along a well-placed path.
  lemma {:induction false} AdoptNothing(t: Table, c: Path)
    requires forall p :: p <= c && p in t ==> Placed(t, p)
    ensures Adopt(t, c) == (t, Nearest(t, c))
    decreases |c|
  {
    if c != ROOT {
      var up := c[..|c| - 1];
      AdoptNothing(t, up);
      if c in t {
        assert Placed(t, c);
      }
    }
  }

  function WithChild(t: Table, p: Path, q: Path): Table
    requires q in t
  {
    t[q := t[q].(objects := [p] + t[q].objects)][p := NEW_OBJECT.(parent := Some(q))]
  }

  lemma AdoptAbove(t: Table, p: Path)
    requires Nested(t) && p !in t && NoneBelow(t, p)
    ensures Adopt(t[p := NEW_OBJECT], p[..|p| - 1]) == (t[p := NEW_OBJECT], Nearest(t, p[..|p| - 1]))
  {
    var u := t[p := NEW_OBJECT];
    var up := p[..|p| - 1];
    forall c | c <= up && c in u ensures Placed(u, c) {
      assert c != p && Placed(t, c);
      NearestDepends(t, u, c);
    }
    AdoptNothing(u, up);
    NearestDepends(t, u, up);
  }

  lemma Entered(t: Table, p: Path, q: Path)
    requires q in t && p != q
    ensures t[p := NEW_OBJECT][q := t[q].(objects := [p] + t[q].objects)][p := NEW_OBJECT.(parent := Some(q))]
         == WithChild(t, p, q)
  {
  }

  lemma AdoptNew(t: Table, p: Path)
    requires Nested(t) && p !in t && NoneBelow(t, p)
    ensures Nearest(t, p).Some? && Nearest(t, p).value in t
    ensures Adopt(t[p := NEW_OBJECT], p).0 == WithChild(t, p, Nearest(t, p).value)
  {
    AdoptAbove(t, p);
    NearestIsAbove(t, p);
    var q := Nearest(t, p).value;
    assert ChildrenOk(t, q);
    Entered(t, p, q);
  }

  lemma CreatedNested(t: Table, p: Path)
    requires Nested(t) && p !in t && NoneBelow(t, p) && Nearest(t, p).Some? && Nearest(t, p).value in t
    ensures Nested(WithChild(t, p, Nearest(t, p).value))
  {
    var q := Nearest(t, p).value;
    var u := WithChild(t, p, q);
    forall c | c in u ensures Placed(u, c) && ChildrenOk(u, c) {
      NearestDepends(t, u, c);
      if c != p {
        assert Placed(t, c) && ChildrenOk(t, c);
      }
    }
  }

  // The table without p, and without p among its parent's children.
  function WithoutChild(t: Table, p: Path): Table
    requires p in t
  {
    Unlinked(t, p) - {p}
  }

  lemma NoChildren(t: Table, p: Path)
    requires Nested(t) && p in t && NoneBelow(t, p)
    ensures t[p].objects == []
  {
    assert ChildrenOk(t, p);
    if t[p].objects != [] {
      var c := t[p].objects[0];
      assert Placed(t, c);
      NearestIsAbove(t, c);
    }
  }

  lemma DeletedPlace(t: Table, p: Path, c: Path)
    requires Nested(t) && p in t && p != ROOT && NoneBelow(t, p) && c in t && c != p
    ensures c in WithoutChild(t, p) && Placed(WithoutChild(t, p), c)
  {
    assert Placed(t, p) && Placed(t, c);
    NoChildren(t, p);
    var q := t[p].parent.value;
    assert ChildrenOk(t, q);
    WithoutMembers(t[q].objects, p);
    NearestDepends(t, WithoutChild(t, p), c);
  }

  lemma DeletedChildren(t: Table, p: Path, c: Path)
    requires Nested(t) && p in t && p != ROOT && c in t && c != p
    ensures c in WithoutChild(t, p) && ChildrenOk(WithoutChild(t, p), c)
  {
    assert Placed(t, p) && ChildrenOk(t, c);
    WithoutMembers(t[c].objects, p);
  }

  lemma DeletedNested(t: Table, p: Path)
    requires Nested(t) && p in t && p != ROOT && NoneBelow(t, p)
    ensures Nested(WithoutChild(t, p))
  {
    var u := WithoutChild(t, p);
    forall c | c in u ensures Placed(u, c) && ChildrenOk(u, c) {
      DeletedPlace(t, p, c);
      DeletedChildren(t, p, c);
    }
    DeletedPlace(t, p, ROOT);
  }

  // Only the shape matters.
  lemma NestedDepends(t: Table, u: Table)
    requires Nested(t) && t.Keys == u.Keys
    requires forall p :: p in t ==> u[p].parent == t[p].parent && u[p].objects == t[p].objects
    ensures Nested(u)
  {
    forall p | p in u ensures Placed(u, p) && ChildrenOk(u, p) {
      assert Placed(t, p) && ChildrenOk(t, p);
      NearestDepends(t, u, p);
    }
  }
}
