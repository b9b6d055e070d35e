/**
 * Installing firmware on one of two partitions while the hub runs from the other.
 */
module FwInstall {
  import opened Wrappers
  import opened Decimals
  import opened FwRootfs

  datatype Slot = One | Two

  function Other(s: Slot): Slot {
    if s == One then Two else One
  }

  // A kernel partition's boot index file, images and device tree, and its root file system. An index file
  // that is absent reads like an empty one.
  datatype Part = Part(index: string, kernel: Bytes, dtb: Bytes, rootfs: Bytes)

  datatype Hub = Hub(one: Part, two: Part, running: Slot)

  function PartOf(h: Hub, s: Slot): Part {
    if s == One then h.one else h.two
  }

  datatype Archive = Archive(kernel: Option<Bytes>, dtb: Option<Bytes>, rootfs: Option<Bytes>)

  // ---------- Choosing the target ----------

  function ReadIndex(p: Part): int {
    match ReadInt(p.index)
    case None => -1
    case Some(v) => v
  }

  function IndexOf(h: Hub, s: Slot): int {
    ReadIndex(PartOf(h, s))
  }

  // When the target is not the running partition.
  predicate Chooses(index1: int, index2: int, running: Slot) {
    if index1 > index2 then running == One || index2 >= -1
    else if index2 > index1 then running == Two || index1 >= 0
    else running == Two
  }

  // The newer partition is discarded when the hub does not run from it; the older of what is left is the
  // target. It is not the running one if and only if Chooses holds, and then it gets the running
  // partition's index plus one; the running one gets that only if both indices are the same, and else zero.
  method SelectTarget(index1: int, index2: int, running: Slot) returns (target: Slot, update: int)
    ensures target != running <==> Chooses(index1, index2, running)
    ensures target != running ==> update == (if running == One then index1 else index2) + 1
    ensures target == running ==> update == if index1 == index2 then index1 + 1 else 0
    ensures (target, update) == Target(index1, index2, running)
  {
    var i1, i2 := index1, index2;
    if i1 > i2 && running != One {
      i1 := -1;
    } else if i2 > i1 && running != Two {
      i2 := -1;
    }
    if i1 > i2 {
      target, update := Two, i1 + 1;
    } else {
      target, update := One, i2 + 1;
    }
  }

  function Target(index1: int, index2: int, running: Slot): (Slot, int) {
    var i1 := if index1 > index2 && running != One then -1 else index1;
    var i2 := if index2 > index1 && running != Two then -1 else index2;
    if i1 > i2 then (Two, i1 + 1) else (One, i2 + 1)
  }

  // ---------- One install ----------

  // The images of the archive are in place.
  ghost predicate Installed(p: Part, a: Archive) {
    && (a.kernel.Some? ==> p.kernel == a.kernel.value)
    && (a.dtb.Some? ==> p.dtb == a.dtb.value)
    && (a.rootfs.Some? ==> |a.rootfs.value| <= |p.rootfs| && p.rootfs[..|a.rootfs.value|] == a.rootfs.value)
  }

  // A file after it was to be replaced, and the power left: an equal file is left alone, any other is
  // emptied first and then filled as far as the power lasts.
  function Replaced(was: Bytes, image: Bytes, power: nat): (Bytes, nat) {
    if was == image || power == 0 then (was, power)
    else if power < ReplaceCost(was, image) then (image[..power - 1], 0)
    else (image, power - ReplaceCost(was, image))
  }

  function ReplaceCost(was: Bytes, image: Bytes): nat {
    if was == image then 0 else 1 + |image|
  }

  predicate Fits(p: Part, a: Archive) {
    a.rootfs.Some? ==> |a.rootfs.value| <= |p.rootfs|
  }

  // What there is to write before the index.
  function Cost(p: Part, a: Archive): nat
    requires Fits(p, a)
  {
    (if a.kernel.Some? then ReplaceCost(p.kernel, a.kernel.value) else 0)
    + (if a.dtb.Some? then ReplaceCost(p.dtb, a.dtb.value) else 0)
    + (if a.rootfs.Some? then |a.rootfs.value| - FirstDifference(a.rootfs.value, p.rootfs, 0) else 0)
  }

  // The power lasts for everything but the index.
  predicate Reaches(p: Part, a: Archive, power: nat) {
    Fits(p, a) && Cost(p, a) <= power
  }

  // The power fails just after the index was emptied.
  predicate CutsIndex(p: Part, a: Archive, power: nat) {
    Fits(p, a) && power == Cost(p, a) + 1
  }

  function IndexLine(update: int): string {
    Decimal(update) + ['\n']
  }

  // The line as far as it is written, byte by byte.
  function Written(line: string, power: nat): string {
    if power < |line| then line[..power] else line
  }

  function IndexAfter(p: Part, a: Archive, update: int, power: nat): string {
    if !Reaches(p, a, power) || power == Cost(p, a) then p.index
    else Written(IndexLine(update), power - Cost(p, a) - 1)
  }

  // What becomes of the target, wherever the install stops: images before the index.
  ghost predicate Becomes(p: Part, q: Part, a: Archive, update: int, power: nat) {
    q.index == IndexAfter(p, a, update, power) && (Reaches(p, a, power) ==> Installed(q, a))
  }

  ghost predicate InstallStep(h: Hub, h': Hub, a: Archive, power: nat) {
    var (target, update) := Target(IndexOf(h, One), IndexOf(h, Two), h.running);
    && h'.running == h.running && PartOf(h', Other(target)) == PartOf(h, Other(target))
    && Becomes(PartOf(h, target), PartOf(h', target), a, update, power)
  }

  // The hub overwrites what it runs from if and only if Chooses fails; with the power to finish, the
  // archive then replaces it.
  lemma OverwritesRunning(h: Hub, h': Hub, a: Archive, power: nat)
    requires InstallStep(h, h', a, power)
    ensures var (target, update) := Target(IndexOf(h, One), IndexOf(h, Two), h.running);
            && (target == h.running <==> !Chooses(IndexOf(h, One), IndexOf(h, Two), h.running))
            && PartOf(h', Other(target)) == PartOf(h, Other(target))
            && (Reaches(PartOf(h, target), a, power) ==> Installed(PartOf(h', target), a))
  {
  }

  // That happens to a hub that runs from the first partition and finds neither index.
  lemma NoIndexNoChoice(h: Hub)
    requires ReadInt(h.one.index) == None && ReadInt(h.two.index) == None && h.running == One
    ensures !Chooses(IndexOf(h, One), IndexOf(h, Two), h.running)
    ensures Target(IndexOf(h, One), IndexOf(h, Two), h.running) == (One, 0)
  {
  }

  datatype Outcome = Done | RootfsError | PowerLost

  // A partition as the code sees it: files to be replaced and a device to be written.
  class Partition {
    var index: string
    var kernel: Bytes
    var dtb: Bytes
    const device: array<bv8>

    constructor (index: string, kernel: Bytes, dtb: Bytes, device: array<bv8>)
      ensures this.index == index && this.kernel == kernel && this.dtb == dtb && this.device == device
    {
      this.index, this.kernel, this.dtb, this.device := index, kernel, dtb, device;
    }

    function Now(): Part
      reads this, device
    {
      Part(index, kernel, dtb, device[..])
    }

    // Unlink and copy, when the file differs; power is what there is left to write with.
    method PutKernel(image: Bytes, power: nat) returns (left: nat, ok: bool)
      modifies this`kernel
      ensures (kernel, left) == Replaced(old(kernel), image, power)
      ensures ok <==> ReplaceCost(old(kernel), image) <= power
      ensures ok ==> kernel == image && left == power - ReplaceCost(old(kernel), image)
    {
      if kernel == image {
        return power, true;
      }
      if power == 0 {
        return 0, false;
      }
      kernel := [];
      if power - 1 < |image| {
        kernel := image[..power - 1];
        return 0, false;
      }
      kernel := image;
      return power - 1 - |image|, true;
    }

    method PutTree(image: Bytes, power: nat) returns (left: nat, ok: bool)
      modifies this`dtb
      ensures (dtb, left) == Replaced(old(dtb), image, power)
      ensures ok <==> ReplaceCost(old(dtb), image) <= power
      ensures ok ==> dtb == image && left == power - ReplaceCost(old(dtb), image)
    {
      if dtb == image {
        return power, true;
      }
      if power == 0 {
        return 0, false;
      }
      dtb := [];
      if power - 1 < |image| {
        dtb := image[..power - 1];
        return 0, false;
      }
      dtb := image;
      return power - 1 - |image|, true;
    }

    // Copy and verify; verifying never fails after a copy that did not.
    method PutRootfs(file: Bytes, verify: bool, power: nat) returns (left: nat, outcome: Outcome)
      modifies device
      ensures outcome == Done <==>
        |file| <= device.Length && |file| - FirstDifference(file, old(device[..]), 0) <= power
      ensures outcome == Done ==>
        device[..] == Overlay(file, old(device[..])) && left == power - (|file| - FirstDifference(file, old(device[..]), 0))
      ensures Between(file, old(device[..]), device[..])
      ensures outcome == RootfsError ==> |file| > device.Length
    {
      var res;
      res, left := Copy(device, file, power);
      if res == 0 && verify {
        assert device[..|file|] == file;
        res := Verify(device, file);
      }
      if res != 0 {
        return left, if |file| > device.Length then RootfsError else PowerLost;
      }
      return left, Done;
    }

    // Opening the index for writing empties it first.
    method PutIndex(update: int, power: nat) returns (ok: bool)
      modifies this`index
      ensures index == if power == 0 then old(index) else Written(IndexLine(update), power - 1)
      ensures ok <==> power > |IndexLine(update)|
    {
      if power == 0 {
        return false;
      }
      index := [];
      var line := IndexLine(update);
      for i := 0 to |line|
        invariant i <= power - 1 && index == line[..i]
      {
        if i == power - 1 {
          return false;
        }
        index := index + [line[i]];
      }
      assert line[..|line|] == line;
      return true;
    }

    method InstallFiles(a: Archive, verify: bool, power: nat) returns (left: nat, outcome: Outcome)
      modifies this`kernel, this`dtb, device
      ensures outcome == Done <==> Reaches(old(Now()), a, power)
      ensures outcome == Done ==> Installed(Now(), a) && left == power - Cost(old(Now()), a)
      ensures outcome == RootfsError ==> a.rootfs.Some? && |a.rootfs.value| > device.Length
    {
      left, outcome := power, Done;
      if a.kernel.Some? {
        var ok;
        left, ok := PutKernel(a.kernel.value, left);
        if !ok {
          return left, PowerLost;
        }
      }
      if a.dtb.Some? {
        var ok;
        left, ok := PutTree(a.dtb.value, left);
        if !ok {
          return left, PowerLost;
        }
      }
      if a.rootfs.Some? {
        left, outcome := PutRootfs(a.rootfs.value, verify, left);
      }
    }

    // The index is written only when everything else is in place.
    method InstallTo(a: Archive, verify: bool, update: int, power: nat) returns (outcome: Outcome)
      modifies this, device
      ensures Becomes(old(Now()), Now(), a, update, power)
      ensures outcome == Done <==> Fits(old(Now()), a) && power > Cost(old(Now()), a) + |IndexLine(update)|
      ensures outcome == RootfsError ==> !Fits(old(Now()), a)
    {
      var left;
      left, outcome := InstallFiles(a, verify, power);
      if outcome != Done {
        return;
      }
      var ok := PutIndex(update, left);
      if !ok {
        outcome := PowerLost;
      }
    }
  }

  // The whole install: read the indices, choose, write the target, commit.
  method Install(one: Partition, two: Partition, running: Slot, a: Archive, verify: bool, power: nat)
    returns (outcome: Outcome)
    requires one != two && one.device != two.device
    modifies one, two, one.device, two.device
    ensures InstallStep(old(Hub(one.Now(), two.Now(), running)), Hub(one.Now(), two.Now(), running), a, power)
    ensures outcome == Done ==>
      var (target, update) := old(Target(ReadIndex(one.Now()), ReadIndex(two.Now()), running));
      var p := if target == One then one.Now() else two.Now();
      Installed(p, a) && ReadIndex(p) == update
  {
    var index1, index2 := ReadIndex(one.Now()), ReadIndex(two.Now());
    var target, update := SelectTarget(index1, index2, running);
    if target == One {
      outcome := one.InstallTo(a, verify, update, power);
    } else {
      outcome := two.InstallTo(a, verify, update, power);
    }
    DecimalRead(update, ['\n']);
  }
}
