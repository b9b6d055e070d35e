/**
 * Installing a root file system: blocks are compared until one differs, and written from there on.
 */
module FwRootfs {

  const READ_BLOCK_SIZE: nat := 1024
  const IMAGE_VALIDATE_ERR: nat := 2

  type Bytes = seq<bv8>

  function BlockSize(remaining: nat): nat {
    if remaining > READ_BLOCK_SIZE then READ_BLOCK_SIZE else remaining
  }

  // Where the first block that differs begins, from pos on; the end of the file if there is none.
  function FirstDifference(file: Bytes, device: Bytes, pos: nat): (p: nat)
    requires pos <= |file| <= |device|
    ensures pos <= p <= |file|
    decreases |file| - pos
  {
    var n := BlockSize(|file| - pos);
    if n == 0 then pos
    else if file[pos..pos + n] == device[pos..pos + n] then FirstDifference(file, device, pos + n)
    else pos
  }

  // Everything before it is the same.
  lemma {:induction false} SameBefore(file: Bytes, device: Bytes, pos: nat)
    requires pos <= |file| <= |device|
    ensures file[pos..FirstDifference(file, device, pos)] == device[pos..FirstDifference(file, device, pos)]
    decreases |file| - pos
  {
    var n := BlockSize(|file| - pos);
    if n > 0 && file[pos..pos + n] == device[pos..pos + n] {
      SameBefore(file, device, pos + n);
      var p := FirstDifference(file, device, pos + n);
      assert file[pos..p] == file[pos..pos + n] + file[pos + n..p];
      assert device[pos..p] == device[pos..pos + n] + device[pos + n..p];
    }
  }

  lemma Parts(s: Bytes, a: nat, b: nat, n: nat)
    requires a + n <= b <= |s|
    ensures s[a..b][..n] == s[a..a + n] && s[a..b][n..] == s[a + n..b]
  {
  }

  // With byte d the first that differs, it is the start of the block of 1024 that byte d is in.
  lemma {:induction false} DifferenceAt(file: Bytes, device: Bytes, pos: nat, d: nat)
    requires pos <= d < |file| <= |device| && pos % 1024 == 0
    requires file[d] != device[d] && file[pos..d] == device[pos..d]
    ensures FirstDifference(file, device, pos) == d - d % 1024
    decreases d - pos
  {
    var n := BlockSize(|file| - pos);
    if pos + n <= d {
      Parts(file, pos, d, n);
      Parts(device, pos, d, n);
      DifferenceAt(file, device, pos + n, d);
    } else {
      assert file[pos..pos + n][d - pos] != device[pos..pos + n][d - pos];
    }
  }

  lemma NoDifference(file: Bytes, device: Bytes)
    requires |file| <= |device|
    ensures FirstDifference(file, device, 0) == |file| <==> file == device[..|file|]
  {
    SameBefore(file, device, 0);
    if FirstDifference(file, device, 0) == |file| {
      assert file == file[0..|file|] && device[..|file|] == device[0..|file|];
    }
    if file == device[..|file|] {
      AllSame(file, device, 0);
    }
  }

  lemma {:induction false} AllSame(file: Bytes, device: Bytes, pos: nat)
    requires pos <= |file| <= |device| && file == device[..|file|]
    ensures FirstDifference(file, device, pos) == |file|
    decreases |file| - pos
  {
    var n := BlockSize(|file| - pos);
    if n > 0 {
      assert file[pos..pos + n] == device[..|file|][pos..pos + n] == device[pos..pos + n];
      AllSame(file, device, pos + n);
    }
  }

  // The file at the start of the device, the rest as it was.
  function Overlay(file: Bytes, device: Bytes): Bytes
    requires |file| <= |device|
  {
    file + device[|file|..]
  }

  // Every byte is the old one or the new one.
  ghost predicate Between(file: Bytes, was: Bytes, now: Bytes) {
    |now| == |was| && forall k :: 0 <= k < |now| ==> now[k] == was[k] || (k < |file| && now[k] == file[k])
  }

  // The write system call: as many bytes as fit on the device and as the power lasts for.
  method Write(device: array<bv8>, pos: nat, data: Bytes, power: nat) returns (n: nat)
    requires pos <= device.Length
    modifies device
    ensures n <= |data| && n <= power && pos + n <= device.Length
    ensures n == |data| <==> |data| <= power && pos + |data| <= device.Length
    ensures device[..] == old(device[..pos]) + data[..n] + old(device[pos + n..])
  {
    n := |data|;
    if n > power {
      n := power;
    }
    if n > device.Length - pos {
      n := device.Length - pos;
    }
    forall k | 0 <= k < n {
      device[pos + k] := data[k];
    }
  }

  // Half way through the copy: the first pos bytes are the file's, the rest the device's own.
  ghost predicate Copied(file: Bytes, was: Bytes, now: Bytes, pos: nat) {
    pos <= |file| && pos <= |was| == |now| && now == file[..pos] + was[pos..]
  }

  lemma CopiedMore(file: Bytes, was: Bytes, now: Bytes, pos: nat, n: nat, next: Bytes)
    requires Copied(file, was, now, pos) && pos + n <= |file| && pos + n <= |was|
    requires next == now[..pos] + file[pos..pos + n] + now[pos + n..]
    ensures Copied(file, was, next, pos + n)
  {
  }

  lemma CopiedSame(file: Bytes, was: Bytes, pos: nat, n: nat)
    requires Copied(file, was, was, pos) && pos + n <= |file| && pos + n <= |was|
    requires file[pos..pos + n] == was[pos..pos + n]
    ensures Copied(file, was, was, pos + n)
  {
    CopiedMore(file, was, was, pos, n, was);
  }

  lemma CopiedBetween(file: Bytes, was: Bytes, now: Bytes, pos: nat)
    requires Copied(file, was, now, pos)
    ensures Between(file, was, now)
  {
  }

  // Why the copy stops: compared so far, it has nothing to write yet; writing, it began where the first
  // difference is.
  ghost predicate Progress(file: Bytes, was: Bytes, now: Bytes, pos: nat, compare: bool, written: nat) {
    && Copied(file, was, now, pos)
    && (compare ==> now == was && written == 0)
    && (|file| <= |was| ==>
          var first := FirstDifference(file, was, 0);
          if compare then pos <= first == FirstDifference(file, was, pos)
          else first + written == pos)
  }

  lemma ComparedEqual(file: Bytes, was: Bytes, pos: nat)
    requires Progress(file, was, was, pos, true, 0) && pos < |file|
    requires var n := BlockSize(|file| - pos); pos + n <= |was| && file[pos..pos + n] == was[pos..pos + n]
    ensures Progress(file, was, was, pos + BlockSize(|file| - pos), true, 0)
  {
    CopiedSame(file, was, pos, BlockSize(|file| - pos));
  }

  lemma WrittenBlock(file: Bytes, was: Bytes, now: Bytes, pos: nat, written: nat, n: nat, next: Bytes)
    requires Progress(file, was, now, pos, false, written) && n == BlockSize(|file| - pos) && pos + n <= |was|
    requires next == now[..pos] + file[pos..pos + n] + now[pos + n..]
    ensures Progress(file, was, next, pos + n, false, written + n)
  {
    CopiedMore(file, was, now, pos, n, next);
  }

  // The copy loop. It succeeds when the device is long enough and the power lasts for what is to be
  // written: the file from its first differing block on.
  method Copy(device: array<bv8>, file: Bytes, power: nat) returns (res: nat, left: nat)
    modifies device
    ensures res <= 1 && left <= power && Between(file, old(device[..]), device[..])
    ensures |file| > device.Length ==> res == 1
    ensures |file| <= device.Length ==>
      var cost := |file| - FirstDifference(file, old(device[..]), 0);
      && (res == 0 <==> cost <= power)
      && (res == 0 ==> device[..] == Overlay(file, old(device[..])) && left == power - cost)
  {
    ghost var was := device[..];
    var remaining, pos, compare := |file|, 0, true;
    res, left := 0, power;
    while res == 0 && remaining > 0
      invariant res <= 1 && left <= power && pos + remaining == |file|
      invariant res == 0 ==> Progress(file, was, device[..], pos, compare, power - left)
      invariant res == 1 ==> Between(file, was, device[..])
      invariant res == 1 && |file| <= device.Length ==> |file| - FirstDifference(file, was, 0) > power
      decreases remaining, res == 0
    {
      res, pos, compare, left := CopyBlock(device, file, power, pos, compare, left, was);
      remaining := |file| - pos;
    }
    if res == 0 {
      CopiedBetween(file, was, device[..], pos);
      assert file[..pos] == file;
    }
  }

  // One round: a block is compared, and written once a difference has been found.
  method CopyBlock(device: array<bv8>, file: Bytes, ghost power: nat, pos: nat, compare: bool, left: nat, ghost was: Bytes)
    returns (res: nat, pos': nat, compare': bool, left': nat)
    requires pos < |file| && left <= power && Progress(file, was, device[..], pos, compare, power - left)
    modifies device
    ensures res <= 1 && left' <= left && pos' <= |file| && (res == 0 ==> pos < pos') && (res == 1 ==> pos' == pos)
    ensures res == 0 ==> Progress(file, was, device[..], pos', compare', power - left')
    ensures res == 1 ==> Between(file, was, device[..])
    ensures res == 1 && |file| <= device.Length ==> |file| - FirstDifference(file, was, 0) > power
  {
    var n := BlockSize(|file| - pos);
    var block := file[pos..pos + n];
    res, pos', compare', left' := 0, pos, compare, left;
    CopiedBetween(file, was, device[..], pos);
    if compare {
      if pos + n > device.Length {
        res := 1;
        return;
      }
      if block == device[pos..pos + n] {
        ComparedEqual(file, was, pos);
        pos' := pos + n;
        return;
      }
      compare' := false;
      StartWriting(file, was, pos);
    }
    res, left' := WriteBlock(device, file, power, pos, left, was);
    if res == 0 {
      pos' := pos + n;
    }
  }

  lemma StartWriting(file: Bytes, was: Bytes, pos: nat)
    requires Progress(file, was, was, pos, true, 0) && pos < |file|
    requires var n := BlockSize(|file| - pos); pos + n <= |was| && file[pos..pos + n] != was[pos..pos + n]
    ensures Progress(file, was, was, pos, false, 0)
  {
  }

  method WriteBlock(device: array<bv8>, file: Bytes, ghost power: nat, pos: nat, left: nat, ghost was: Bytes)
    returns (res: nat, left': nat)
    requires pos < |file| && left <= power && Progress(file, was, device[..], pos, false, power - left)
    modifies device
    ensures res <= 1 && left' <= left
    ensures res == 0 ==> Progress(file, was, device[..], pos + BlockSize(|file| - pos), false, power - left')
    ensures res == 1 ==> Between(file, was, device[..])
    ensures res == 1 && |file| <= device.Length ==> |file| - FirstDifference(file, was, 0) > power
  {
    var n := BlockSize(|file| - pos);
    var block := file[pos..pos + n];
    ghost var now := device[..];
    var k := Write(device, pos, block, left);
    Parts(file, pos, pos + n, k);
    if k != n {
      ShortWrite(file, was, now, pos, k, device[..]);
      return 1, left;
    }
    WrittenBlock(file, was, now, pos, power - left, n, device[..]);
    return 0, left - n;
  }

  lemma ShortWrite(file: Bytes, was: Bytes, now: Bytes, pos: nat, k: nat, next: Bytes)
    requires Copied(file, was, now, pos) && pos + k <= |file| && pos + k <= |was|
    requires next == now[..pos] + file[pos..pos + k] + now[pos + k..]
    ensures Between(file, was, next)
  {
    CopiedMore(file, was, now, pos, k, next);
    CopiedBetween(file, was, next, pos + k);
  }

  // The verify loop.
  method Verify(device: array<bv8>, file: Bytes) returns (res: nat)
    ensures res == 0 <==> |file| <= device.Length && device[..|file|] == file
    ensures res == 1 ==> |file| > device.Length
    ensures res == 0 || res == 1 || res == IMAGE_VALIDATE_ERR
  {
    var remaining: nat, pos: nat := |file|, 0;
    res := 0;
    while res == 0 && remaining > 0
      invariant pos + remaining == |file| && (res == 0 || res == 1 || res == IMAGE_VALIDATE_ERR)
      invariant res == 0 ==> pos <= device.Length && device[..pos] == file[..pos]
      invariant res == 1 ==> |file| > device.Length
      invariant res == IMAGE_VALIDATE_ERR ==> |file| > device.Length || device[..|file|] != file
      decreases remaining, res == 0
    {
      var n := BlockSize(remaining);
      if pos + n > device.Length {
        res := 1;
      } else if file[pos..pos + n] == device[pos..pos + n] {
        assert device[..pos + n] == device[..pos] + device[pos..pos + n];
        assert file[..pos + n] == file[..pos] + file[pos..pos + n];
        remaining, pos := remaining - n, pos + n;
      } else {
        res := IMAGE_VALIDATE_ERR;
        assert |file| <= device.Length ==> device[..|file|][pos..pos + n] == device[pos..pos + n];
      }
    }
    assert file[..|file|] == file;
  }
}
