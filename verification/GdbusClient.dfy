/**
 * The client's list of proxies, kept up to date from the signals it receives.
 */
module GdbusClient {
  import opened Lists
  import opened GdbusObjects
  import opened GdbusCore

  class Client {
    var proxies: seq<(Path, Name)>

    ghost predicate Valid()
      reads this
    {
      NoDup(proxies)
    }

    ghost function Known(): Proxies
      reads this
    {
      set x | x in proxies
    }

    constructor ()
      ensures Valid() && Known() == {}
    {
      proxies := [];
    }

    // The position of the first proxy for the interface, or the length of the list.
    method Lookup(p: Path, n: Name) returns (i: nat)
      ensures i <= |proxies| && (p, n) !in proxies[..i]
      ensures i < |proxies| ==> proxies[i] == (p, n)
    {
      i := 0;
      while i < |proxies| && proxies[i] != (p, n)
        invariant i <= |proxies| && (p, n) !in proxies[..i]
      {
        i := i + 1;
      }
    }

    // One interface an object is said to have.
    method ParseProperties(p: Path, n: Name)
      requires Valid()
      modifies this
      ensures Valid() && Known() == old(Known()) + if Builtin(n) then {} else {(p, n)}
    {
      if n == Introspectable || n == Properties {
        return;
      }
      var i := Lookup(p, n);
      if i < |proxies| {
        assert (p, n) in Known();
        return;
      }
      assert proxies[..i] == proxies;
      proxies := proxies + [(p, n)];
    }

    method ProxyRemove(p: Path, n: Name)
      requires Valid()
      modifies this
      ensures Valid() && Known() == old(Known()) - {(p, n)}
    {
      var i := Lookup(p, n);
      if i < |proxies| {
        DropMembers(proxies, i);
        proxies := proxies[..i] + proxies[i + 1..];
      } else {
        assert proxies[..i] == proxies;
      }
    }

    method InterfacesAdded(p: Path, names: seq<Name>)
      requires Valid()
      modifies this
      ensures Valid() && Known() == Apply(old(Known()), Signal.InterfacesAdded(p, names))
    {
      for i := 0 to |names|
        invariant Valid() && Known() == Apply(old(Known()), Signal.InterfacesAdded(p, names[..i]))
      {
        AddedNext(old(Known()), p, names, i);
        ParseProperties(p, names[i]);
      }
      assert names[..|names|] == names;
    }

    method InterfacesRemoved(p: Path, names: seq<Name>)
      requires Valid()
      modifies this
      ensures Valid() && Known() == Apply(old(Known()), Signal.InterfacesRemoved(p, names))
    {
      for i := 0 to |names|
        invariant Valid() && Known() == Apply(old(Known()), Signal.InterfacesRemoved(p, names[..i]))
      {
        RemovedNext(old(Known()), p, names, i);
        ProxyRemove(p, names[i]);
      }
      assert names[..|names|] == names;
    }

    // The signals as they come off the bus.
    method Follow(bus: seq<Signal>)
      requires Valid() && Known() == {}
      modifies this
      ensures Valid() && Known() == View(bus)
    {
      for i := 0 to |bus|
        invariant Valid() && Known() == View(bus[..i])
      {
        assert bus[..i + 1] == bus[..i] + [bus[i]];
        ViewNext(bus[..i], bus[i]);
        match bus[i] {
          case InterfacesAdded(p, names) => InterfacesAdded(p, names);
          case InterfacesRemoved(p, names) => InterfacesRemoved(p, names);
        }
      }
      assert bus[..|bus|] == bus;
    }
  }

  lemma DropMembers(s: seq<(Path, Name)>, i: nat)
    requires NoDup(s) && i < |s|
    ensures NoDup(s[..i] + s[i + 1..])
    ensures forall x :: x in s[..i] + s[i + 1..] <==> x in s && x != s[i]
  {
    var t := s[..i] + s[i + 1..];
    forall x | x in s && x != s[i] ensures x in t {
      var k :| 0 <= k < |s| && s[k] == x;
      assert if k < i then t[k] == x else t[k - 1] == x;
    }
  }

  lemma AddedNext(c: Proxies, p: Path, names: seq<Name>, i: nat)
    requires i < |names|
    ensures Apply(c, InterfacesAdded(p, names[..i + 1]))
         == Apply(c, InterfacesAdded(p, names[..i])) + if Builtin(names[i]) then {} else {(p, names[i])}
  {
    assert names[..i + 1] == names[..i] + [names[i]];
  }

  lemma RemovedNext(c: Proxies, p: Path, names: seq<Name>, i: nat)
    requires i < |names|
    ensures Apply(c, InterfacesRemoved(p, names[..i + 1]))
         == Apply(c, InterfacesRemoved(p, names[..i])) - {(p, names[i])}
  {
    assert names[..i + 1] == names[..i] + [names[i]];
  }
}
