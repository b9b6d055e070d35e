/**
 * The object server's code: it updates the path table, the waiting list and the bus in place.
 */
module GdbusServer {
  import opened Lists
  import opened Wrappers
  import opened GdbusObjects
  import opened GdbusCore

  class ObjectServer {
    var table: map<Path, Object>
    var pending: seq<Path>
    var bus: seq<Signal>

    function Now(): State
      reads this
    {
      State(table, pending, bus)
    }

    // Attaching the object manager to an empty connection.
    constructor ()
      ensures Now() == START
    {
      table, pending, bus := map[], [], [];
      new;
      ObjectRef(ROOT);
      AddInterface(ROOT, ObjectManager);
      assert table[ROOT] == MANAGER;
    }

    method AddPending(p: Path)
      requires p in table
      modifies this
      ensures Now() == GdbusObjects.AddPending(old(Now()), p)
    {
      var waiting := table[p].queued;
      table := table[p := table[p].(queued := true)];
      if waiting {
        assert table == old(table);
        return;
      }
      pending := pending + [p];
    }

    method RemovePending(p: Path)
      requires p in table
      modifies this
      ensures table == old(table)[p := old(table)[p].(queued := false)] && bus == old(bus)
      ensures pending == Without(old(pending), p)
    {
      table := table[p := table[p].(queued := false)];
      pending := RemoveFirst(pending, p);
    }

    method AddInterface(p: Path, n: Name)
      requires p in table
      modifies this
      ensures Now() == GdbusObjects.AddInterface(old(Now()), p, n)
    {
      table := table[p := table[p].(interfaces := table[p].interfaces + [n])];
      if table[p].parent == None {
        return;
      }
      table := table[p := table[p].(added := table[p].added + [n])];
      AddPending(p);
    }

    method RemoveInterface(p: Path, n: Name) returns (found: bool)
      requires p in table
      modifies this
      ensures found == (n in old(table[p].interfaces))
      ensures Now() == GdbusObjects.RemoveInterface(old(Now()), p, n)
    {
      if n !in table[p].interfaces {
        return false;
      }
      var left := RemoveFirst(table[p].interfaces, n);
      table := table[p := table[p].(interfaces := left)];
      if n in table[p].added {
        left := RemoveFirst(table[p].added, n);
        table := table[p := table[p].(added := left)];
        return true;
      }
      if table[p].parent == None {
        return true;
      }
      table := table[p := table[p].(removed := [n] + table[p].removed)];
      AddPending(p);
      return true;
    }

    method EmitAdded(p: Path)
      requires p in table
      modifies this
      ensures pending == old(pending)
      ensures table == old(if p == ROOT then table else table[p := table[p].(added := [])])
      ensures bus == old(bus) + if p == ROOT then [] else [InterfacesAdded(p, old(table)[p].added)]
    {
      if p == ROOT {
        return;
      }
      bus := bus + [InterfacesAdded(p, table[p].added)];
      table := table[p := table[p].(added := [])];
    }

    method EmitRemoved(p: Path)
      requires p in table
      modifies this
      ensures pending == old(pending)
      ensures table == old(if p == ROOT then table else table[p := table[p].(removed := [])])
      ensures bus == old(bus) + if p == ROOT then [] else [InterfacesRemoved(p, old(table)[p].removed)]
    {
      if p == ROOT {
        return;
      }
      bus := bus + [InterfacesRemoved(p, table[p].removed)];
      table := table[p := table[p].(removed := [])];
    }

    method TellAdded(p: Path)
      requires p in table
      modifies this
      ensures pending == old(pending)
      ensures table == old(if p == ROOT then table else table[p := table[p].(added := [])])
      ensures bus == old(bus) + if p == ROOT then [] else AddedSignal(p, old(table)[p].added)
    {
      if table[p].added != [] {
        EmitAdded(p);
      }
    }

    method TellRemoved(p: Path)
      requires p in table
      modifies this
      ensures pending == old(pending)
      ensures table == old(if p == ROOT then table else table[p := table[p].(removed := [])])
      ensures bus == old(bus) + if p == ROOT then [] else RemovedSignal(p, old(table)[p].removed)
    {
      if table[p].removed != [] {
        EmitRemoved(p);
      }
    }

    method ProcessChanges(p: Path)
      requires p in table
      modifies this
      ensures Now() == GdbusObjects.ProcessChanges(old(Now()), p)
    {
      ghost var o := table[p];
      RemovePending(p);
      TellAdded(p);
      TellRemoved(p);
      assert table == old(table)[p := Settled(p, o)];
      table := table[p := table[p].(queued := false)];
    }

    // Idle work for every object on the list, in order.
    method Flush()
      requires Flushable(Now())
      modifies this
      ensures Now() == GdbusObjects.Flush(old(Now()))
    {
      ghost var all := GdbusObjects.Flush(Now());
      while pending != []
        invariant Flushable(Now()) && GdbusObjects.Flush(Now()) == all
        decreases |pending|
      {
        ProcessFirst(Now());
        ProcessChanges(pending[0]);
      }
    }

    // Enters a new object below its nearest ancestor, working down from the root.
    method InvalidateParent(child: Path) returns (owner: Option<Path>)
      modifies this`table
      ensures (table, owner) == Adopt(old(table), child)
      decreases |child|
    {
      if child == ROOT {
        return None;
      }
      var up := child[..|child| - 1];
      AdoptKeeps(table, up);
      var above := InvalidateParent(up);
      owner := if up in table then Some(up) else above;
      if owner == None || owner.value !in table || child !in table || child in table[owner.value].objects {
        return;
      }
      var q := owner.value;
      table := table[q := table[q].(objects := [child] + table[q].objects)];
      table := table[child := table[child].(parent := owner)];
    }

    method ObjectRef(p: Path)
      modifies this
      ensures Now() == GdbusObjects.ObjectRef(old(Now()), p)
    {
      if p in table {
        table := table[p := table[p].(refcount := table[p].refcount + 1)];
        return;
      }
      table := table[p := NEW_OBJECT];
      AdoptKeeps(table, p);
      var _ := InvalidateParent(p);
      AddInterface(p, Introspectable);
    }

    // What the connection does when the path is given up.
    method Unregistered(p: Path)
      requires p in table
      modifies this
      ensures Now() == Destroy(old(Now()), p)
    {
      var parent := table[p].parent;
      if parent.Some? && parent.value in table {
        var left := RemoveFirst(table[parent.value].objects, p);
        table := table[parent.value := table[parent.value].(objects := left)];
      }
      if table[p].queued {
        ProcessChanges(p);
      }
      table := Orphaned(table, p);
      table := table - {p};
    }

    method GiveUp(p: Path)
      requires p in table
      modifies this
      ensures Now() == GdbusObjects.GiveUp(old(Now()), p)
    {
      var _ := RemoveInterface(p, Introspectable);
      var _ := RemoveInterface(p, Properties);
      AdoptKeeps(table, p);
      var _ := InvalidateParent(p);
      Unregistered(p);
    }

    method ObjectUnref(p: Path)
      modifies this
      ensures Now() == GdbusObjects.ObjectUnref(old(Now()), p)
    {
      if p !in table {
        return;
      }
      table := table[p := table[p].(refcount := if table[p].refcount > 0 then table[p].refcount - 1 else 0)];
      if table[p].refcount > 0 {
        return;
      }
      GiveUp(p);
    }

    method Register(p: Path, n: Name, usable: bool, properties: bool) returns (ok: bool)
      modifies this
      ensures (Now(), ok) == GdbusObjects.Register(old(Now()), p, n, usable, properties)
    {
      ObjectRef(p);
      if n in table[p].interfaces {
        ObjectUnref(p);
        return false;
      }
      if !usable {
        ObjectUnref(p);
        return false;
      }
      AddInterface(p, n);
      if properties && Properties !in table[p].interfaces {
        AddInterface(p, Properties);
      }
      return true;
    }

    method Unregister(p: Path, n: Name) returns (ok: bool)
      modifies this
      ensures (Now(), ok) == GdbusObjects.Unregister(old(Now()), p, n)
    {
      if p !in table {
        return false;
      }
      var found := RemoveInterface(p, n);
      if !found {
        return false;
      }
      ObjectUnref(p);
      return true;
    }
  }
}
