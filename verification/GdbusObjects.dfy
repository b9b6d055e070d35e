/**
 * The object server: the table of objects, their interfaces, and the changes waiting to be announced.
 *
 * An interface is known by its name: an object never holds two of one name, so a pointer to one and its
 * name identify the same thing. Every operation is a function from state to state; GdbusServer has the
 * code.
 */
module GdbusObjects {
  import opened Lists
  import opened Wrappers

  // An object path by its components; the root is the empty one.
  type Path = seq<string>

  const ROOT: Path := []

  datatype Name = Introspectable | Properties | ObjectManager | Other(name: string)

  predicate Builtin(n: Name) {
    n == Introspectable || n == Properties
  }

  // The source's generic_data; queued says that its process_id is positive.
  datatype Object = Object(refcount: nat, interfaces: seq<Name>, added: seq<Name>, removed: seq<Name>,
                           queued: bool, parent: Option<Path>, objects: seq<Path>)

  datatype Signal = InterfacesAdded(path: Path, names: seq<Name>)
                  | InterfacesRemoved(path: Path, names: seq<Name>)

  datatype State = State(table: map<Path, Object>, pending: seq<Path>, bus: seq<Signal>)

  function Put(s: State, p: Path, o: Object): State {
    s.(table := s.table[p := o])
  }

  // ---------- Steps ----------

  function AddPending(s: State, p: Path): State
    requires p in s.table
  {
    var o := s.table[p];
    if o.queued then s else Put(s, p, o.(queued := true)).(pending := s.pending + [p])
  }

  function AddInterface(s: State, p: Path, n: Name): State
    requires p in s.table
  {
    var o := s.table[p];
    var o1 := o.(interfaces := o.interfaces + [n]);
    if o.parent == None then Put(s, p, o1)
    else AddPending(Put(s, p, o1.(added := o.added + [n])), p)
  }

  function RemoveInterface(s: State, p: Path, n: Name): State
    requires p in s.table
  {
    var o := s.table[p];
    var o1 := o.(interfaces := Without(o.interfaces, n));
    if n !in o.interfaces then s
    else if n in o.added then Put(s, p, o1.(added := Without(o.added, n)))
    else if o.parent == None then Put(s, p, o1)
    else AddPending(Put(s, p, o1.(removed := [n] + o.removed)), p)
  }

  // What processing an object's changes puts on the bus: additions first.
  function Announced(p: Path, o: Object): seq<Signal> {
    if p == ROOT then [] else AddedSignal(p, o.added) + RemovedSignal(p, o.removed)
  }

  function AddedSignal(p: Path, names: seq<Name>): seq<Signal> {
    if names == [] then [] else [InterfacesAdded(p, names)]
  }

  function RemovedSignal(p: Path, names: seq<Name>): seq<Signal> {
    if names == [] then [] else [InterfacesRemoved(p, names)]
  }

  // The object when its changes are processed; the manager's own are kept, never sent.
  function Settled(p: Path, o: Object): Object {
    if p == ROOT then o.(queued := false) else o.(queued := false, added := [], removed := [])
  }

  function ProcessChanges(s: State, p: Path): State
    requires p in s.table
  {
    var o := s.table[p];
    State(s.table[p := Settled(p, o)], Without(s.pending, p), s.bus + Announced(p, o))
  }

  function Flush(s: State): State
    requires forall i :: 0 <= i < |s.pending| ==> s.pending[i] in s.table
    decreases |s.pending|
  {
    if s.pending == [] then s
    else
      var s1 := ProcessChanges(s, s.pending[0]);
      assert s1.pending == s.pending[1..];
      Flush(s1)
  }

  // ---------- The object tree ----------

  // What the source's invalidate_parent_data does to the tree, and the object it returns.
  function Adopt(t: map<Path, Object>, child: Path): (map<Path, Object>, Option<Path>)
    decreases |child|
  {
    if child == ROOT then (t, None)
    else
      var up := child[..|child| - 1];
      var (t1, above) := Adopt(t, up);
      var owner := if up in t1 then Some(up) else above;
      if owner == None || owner.value !in t1 || child !in t1 || child in t1[owner.value].objects then (t1, owner)
      else
        var q := owner.value;
        var t2 := t1[q := t1[q].(objects := [child] + t1[q].objects)];
        (t2[child := t2[child].(parent := owner)], owner)
  }

  const NEW_OBJECT := Object(1, [], [], [], false, None, [])

  function ObjectRef(s: State, p: Path): (r: State)
    ensures p in r.table
  {
    if p in s.table then Put(s, p, s.table[p].(refcount := s.table[p].refcount + 1))
    else
      AdoptKeeps(s.table[p := NEW_OBJECT], p);
      var s1 := s.(table := Adopt(s.table[p := NEW_OBJECT], p).0);
      AddInterface(s1, p, Introspectable)
  }

  lemma {:induction false} AdoptKeeps(t: map<Path, Object>, child: Path)
    ensures Adopt(t, child).0.Keys == t.Keys
    decreases |child|
  {
    if child != ROOT {
      AdoptKeeps(t, child[..|child| - 1]);
    }
  }

  // The children of an object that goes away are handed to its parent, but not entered there.
  function Orphaned(t: map<Path, Object>, p: Path): map<Path, Object>
    requires p in t
  {
    map q | q in t :: if q in t[p].objects then t[q].(parent := t[p].parent) else t[q]
  }

  function Unlinked(t: map<Path, Object>, p: Path): map<Path, Object>
    requires p in t
  {
    match t[p].parent
    case None => t
    case Some(q) => if q in t then t[q := t[q].(objects := Without(t[q].objects, p))] else t
  }

  // The source's generic_unregister.
  function Destroy(s: State, p: Path): State
    requires p in s.table
  {
    var s1 := s.(table := Unlinked(s.table, p));
    var s2 := if s1.table[p].queued then ProcessChanges(s1, p) else s1;
    s2.(table := Orphaned(s2.table, p) - {p})
  }

  // The last reference is gone: the server's own interfaces go, then the object.
  function GiveUp(s: State, p: Path): State
    requires p in s.table
  {
    var s1 := RemoveInterface(RemoveInterface(s, p, Introspectable), p, Properties);
    AdoptKeeps(s1.table, p);
    Destroy(s1.(table := Adopt(s1.table, p).0), p)
  }

  function ObjectUnref(s: State, p: Path): State {
    if p !in s.table then s
    else
      var o := s.table[p];
      var s1 := Put(s, p, o.(refcount := if o.refcount > 0 then o.refcount - 1 else 0));
      if s1.table[p].refcount > 0 then s1 else GiveUp(s1, p)
  }

  // ---------- Calls ----------

  // usable is false when every method, signal and property given is experimental or there are none.
  function Register(s: State, p: Path, n: Name, usable: bool, properties: bool): (State, bool) {
    var s1 := ObjectRef(s, p);
    if n in s1.table[p].interfaces || !usable then (ObjectUnref(s1, p), false)
    else
      var s2 := AddInterface(s1, p, n);
      (if properties && Properties !in s2.table[p].interfaces then AddInterface(s2, p, Properties) else s2, true)
  }

  function Unregister(s: State, p: Path, n: Name): (State, bool) {
    if p !in s.table || n !in s.table[p].interfaces then (s, false)
    else (ObjectUnref(RemoveInterface(s, p, n), p), true)
  }

  // The server once the object manager is attached to an empty connection.
  const MANAGER := Object(1, [Introspectable, ObjectManager], [], [], false, None, [])

  const START := State(map[ROOT := MANAGER], [], [])
}
