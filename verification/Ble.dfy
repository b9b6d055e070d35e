/**
 * The code that sends a frame and waits for one, over the serial line to the Bluetooth chip.
 */
module Ble {
  import opened Base64
  import opened Base64Code
  import opened Base64Scan
  import opened Base64Decoder
  import opened CrcCode
  import opened BleFrame

  // What the serial line has for the next read: a byte, or nothing before the read gives up.
  datatype Event = Byte(b: bv8) | Quiet

  // ---------- Lines out of a stream ----------

  // The bytes one line read returns and what is left; a read that gives up returns none, and the bytes
  // it had are gone.
  function NextLine(input: seq<Event>, got: Bytes): (r: (Bytes, seq<Event>))
    requires |got| < MAX_BUF_SIZE
    ensures |r.0| <= MAX_BUF_SIZE && |r.1| <= |input|
    decreases input
  {
    if input == [] then ([], [])
    else match input[0]
      case Quiet => ([], input[1..])
      case Byte(c) =>
        if c == LF then (got, input[1..])
        else if |got| + 1 == MAX_BUF_SIZE then (got + [c], input[1..])
        else NextLine(input[1..], got + [c])
  }

  function Events(s: Bytes): (e: seq<Event>)
    ensures |e| == |s| && forall i :: 0 <= i < |s| ==> e[i] == Byte(s[i])
  {
    seq(|s|, i requires 0 <= i < |s| => Byte(s[i]))
  }

  lemma {:induction false} NextLineReads(got: Bytes, line: Bytes, rest: seq<Event>)
    requires |got| + |line| < MAX_BUF_SIZE && LF !in line
    ensures NextLine(Events(line + [LF]) + rest, got) == (got + line, rest)
    decreases |line|
  {
    var input := Events(line + [LF]) + rest;
    if line == [] {
      assert input[1..] == rest && got + line == got;
    } else {
      assert input[1..] == Events(line[1..] + [LF]) + rest;
      assert got + [line[0]] + line[1..] == got + line;
      NextLineReads(got + [line[0]], line[1..], rest);
    }
  }

  // The receiver, with time for so many lines.
  ghost function Listen(input: seq<Event>, rounds: nat): (Reading, seq<Event>)
    decreases rounds
  {
    if rounds == 0 then (Skip, input)
    else
      var (line, rest) := NextLine(input, []);
      match ReadLine(line)
      case Skip => Listen(rest, rounds - 1)
      case r => (r, rest)
  }

  // A line is read back from the wire when it is short and has no line feed in it.
  ghost predicate Transportable(lines: seq<Bytes>) {
    forall i :: 0 <= i < |lines| ==> |lines[i]| < MAX_BUF_SIZE && LF !in lines[i]
  }

  lemma {:induction false} QuietListen(rounds: nat)
    ensures Listen([], rounds) == (Skip, [])
  {
    if rounds > 0 {
      QuietListen(rounds - 1);
    }
  }

  lemma WireFirst(lines: seq<Bytes>)
    requires lines != []
    ensures Events(Wire(lines)) == Events(lines[0] + [LF]) + Events(Wire(lines[1..]))
  {
  }

  lemma ListenFirst(line: Bytes, rest: seq<Event>, rounds: nat)
    requires |line| < MAX_BUF_SIZE && LF !in line && rounds > 0
    ensures Listen(Events(line + [LF]) + rest, rounds).0 == OrElse(ReadLine(line), Listen(rest, rounds - 1).0)
  {
    NextLineReads([], line, rest);
    assert [] + line == line;
  }

  // Off the wire, the receiver sees the lines that were put on it.
  lemma {:induction false} ListenToWire(lines: seq<Bytes>, rounds: nat)
    requires Transportable(lines) && |lines| <= rounds
    ensures Listen(Events(Wire(lines)), rounds).0 == FirstMessage(lines)
    decreases lines
  {
    if lines == [] {
      assert Events(Wire(lines)) == [];
      QuietListen(rounds);
    } else {
      var rest := Events(Wire(lines[1..]));
      WireFirst(lines);
      ListenToWire(lines[1..], rounds - 1);
      ListenFirst(lines[0], rest, rounds);
    }
  }

  // ---------- The code ----------

  method CopyInto(dst: array<bv8>, at: nat, src: array<bv8>, from: nat, n: nat)
    requires dst != src && at + n <= dst.Length && from + n <= src.Length
    modifies dst
    ensures dst[at..at + n] == src[from..from + n]
    ensures dst[..at] == old(dst[..at]) && dst[at + n..] == old(dst[at + n..])
  {
    forall k | 0 <= k < n {
      dst[at + k] := src[from + k];
    }
  }

  // What comes of sending a body: it is on the wire, refused, or longer than the sender's own buffer.
  datatype Sending = Sent | Failed | Overrun

  class Link {
    const txBuf: array<bv8>
    const rxBuf: array<bv8>
    var sent: Bytes
    var input: seq<Event>

    ghost predicate Valid() {
      txBuf.Length == MAX_BUF_SIZE && rxBuf.Length == MAX_BUF_SIZE && txBuf != rxBuf
    }

    constructor ()
      ensures Valid() && fresh(txBuf) && fresh(rxBuf) && sent == [] && input == []
    {
      txBuf := new bv8[MAX_BUF_SIZE](_ => 0);
      rxBuf := new bv8[MAX_BUF_SIZE](_ => 0);
      sent, input := [], [];
    }

    method TxRaw(bytes: Bytes)
      modifies this`sent
      ensures sent == old(sent) + bytes
    {
      sent := sent + bytes;
    }

    method PutBody(body: Bytes)
      requires Valid() && |body| <= 508
      modifies txBuf
      ensures txBuf[2..2 + |body|] == body && txBuf[..2] == old(txBuf[..2])
    {
      for i := 0 to |body|
        invariant txBuf[2..2 + i] == body[..i] && txBuf[..2] == old(txBuf[..2])
      {
        txBuf[2 + i] := body[i];
      }
    }

    // A body that the buffer has no room for is not followed further.
    method BuildFrame(body: Bytes) returns (fits: bool)
      requires Valid()
      modifies txBuf
      ensures fits <==> |body| <= 508
      ensures fits ==> txBuf[..|body| + 4] == Frame(body)
    {
      var n := |body|;
      if n + 4 > txBuf.Length {
        return false;
      }
      txBuf[0], txBuf[1] := ByteNumbers.Byte((n + 2) / 256), ByteNumbers.Byte((n + 2) % 256);
      assert txBuf[..2] == LengthBytes(n + 2);
      PutBody(body);
      var crc := Crc(body, true);
      CrcOfIsTheCrc(body, crc);
      ghost var was := txBuf[..];
      txBuf[2 + n], txBuf[2 + n + 1] := HighByte(crc), LowByte(crc);
      FrameParts(body, was, txBuf[..]);
      return true;
    }

    // One chunk of the text, behind its marker and ended by a line feed.
    method WriteLine(text: Bytes, written: nat, writeLen: nat, marker: Bytes)
      requires written < |text| && writeLen == Cut(text[written..])
      modifies this`sent
      ensures sent + Wire(LinesOf(text[written + writeLen..], CONT)) == old(sent) + Wire(LinesOf(text[written..], marker))
    {
      WireStep(sent, text, written, marker);
      TxRaw(marker);
      TxRaw(text[written..written + writeLen]);
      TxRaw([LF]);
    }

    method WriteLines(text: Bytes)
      modifies this`sent
      ensures sent == old(sent) + Wire(LinesOf(text, START))
    {
      ghost var all := sent + Wire(LinesOf(text, START));
      var written, marker := 0, START;
      assert text[0..] == text;
      while written < |text|
        invariant written <= |text| && marker == (if written == 0 then START else CONT)
        invariant sent + Wire(LinesOf(text[written..], marker)) == all
        decreases |text| - written
      {
        var writeLen := if 124 < |text| - written then 124 else |text| - written;
        WriteLine(text, written, writeLen, marker);
        written, marker := written + writeLen, CONT;
      }
      assert text[written..] == [];
    }

    // The text of a frame, in a buffer of its own.
    method EncodeFrame(frame: Bytes) returns (ok: bool, text: Bytes)
      requires 0 < |frame| <= MAX_BUF_SIZE
      ensures ok <==> |Encode(frame)| < MAX_BUF_SIZE
      ensures ok ==> text == Encode(frame)
    {
      var encoded := new bv8[MAX_BUF_SIZE](_ => 0);
      var status, n := EncodeBuffer(encoded, encoded.Length, frame);
      ok := status == Success;
      text := if ok then encoded[..n] else [];
    }

    method Transmit(body: Bytes) returns (r: Sending)
      requires Valid()
      modifies this`sent, txBuf
      ensures r == Sent <==> |body| <= 377
      ensures r == Overrun <==> |body| > 508
      ensures sent == old(sent) + if r == Sent then Wire(LinesOf(Encode(Frame(body)), START)) else []
    {
      var fits := BuildFrame(body);
      if !fits {
        return Overrun;
      }
      EncodedLength(Frame(body));
      var ok, text := EncodeFrame(txBuf[..|body| + 4]);
      if !ok {
        return Failed;
      }
      WriteLines(text);
      return Sent;
    }

    method GetLine() returns (len: nat)
      requires Valid()
      modifies this`input, rxBuf
      ensures (rxBuf[..if len <= MAX_BUF_SIZE then len else 0], input) == NextLine(old(input), [])
      ensures len <= MAX_BUF_SIZE
    {
      var index := 0;
      ghost var all := NextLine(input, []);
      while input != []
        invariant index < MAX_BUF_SIZE && NextLine(input, rxBuf[..index]) == all
        decreases |input|
      {
        var e := input[0];
        input := input[1..];
        if e == Quiet {
          return 0;
        }
        if e.b == LF {
          return index;
        }
        ghost var was := rxBuf[..index];
        rxBuf[index] := e.b;
        index := index + 1;
        assert rxBuf[..index] == was + [e.b];
        if index == MAX_BUF_SIZE {
          return MAX_BUF_SIZE;
        }
      }
      return 0;
    }

    // The decoded text of a first line, checked against the length it announces.
    method HandleFirst(decoded: array<bv8>, decodedLen: nat) returns (r: Reading)
      requires Valid() && decoded != rxBuf && decodedLen <= decoded.Length <= MAX_BUF_SIZE
      modifies rxBuf
      ensures r == match Unframe(decoded[..decodedLen]) case None => Skip case Some(m) => Deliver(m)
      ensures r.Deliver? ==> |r.message| <= MAX_BUF_SIZE && rxBuf[..|r.message|] == r.message
    {
      if decodedLen < 2 {
        return Skip;
      }
      var totalLen := ByteNumbers.Value(decoded[0]) * 256 + ByteNumbers.Value(decoded[1]);
      var index := decodedLen - 2;
      CopyInto(rxBuf, 0, decoded, 2, index);
      assert rxBuf[..index] == rxBuf[0..0 + index] == decoded[..decodedLen][2..];
      return if index == totalLen then Deliver(rxBuf[..totalLen]) else Skip;
    }

    method HandleText(first: bool, text: Bytes) returns (r: Reading)
      requires Valid() && |text| < MAX_BUF_SIZE
      modifies rxBuf
      ensures r == ReadText(first, text)
      ensures r.Deliver? ==> |r.message| <= MAX_BUF_SIZE && rxBuf[..|r.message|] == r.message
    {
      var decoded := new bv8[MAX_BUF_SIZE](_ => 0);
      ShortTextFits(text);
      var status, decodedLen := DecodeBuffer(decoded, decoded.Length, text);
      if status != Success || decodedLen == 0 {
        return Skip;
      }
      if first {
        r := HandleFirst(decoded, decodedLen);
      } else {
        // A continuation announces no length: what it holds never makes a message.
        var totalLen, index := 0, decodedLen;
        CopyInto(rxBuf, 0, decoded, 0, decodedLen);
        r := if index == totalLen then Deliver([]) else Skip;
      }
    }

    method HandleLine(len: nat) returns (r: Reading, crcOk: bool)
      requires Valid() && len <= MAX_BUF_SIZE
      modifies rxBuf
      ensures r == ReadLine(old(rxBuf[..len]))
      ensures r.Deliver? ==> |r.message| <= MAX_BUF_SIZE && rxBuf[..|r.message|] == r.message
      ensures r.Deliver? ==> (crcOk <==> CrcOf(r.message) == 0)
    {
      r, crcOk := Skip, false;
      if len == 0 || len == MAX_BUF_SIZE {
        return;
      }
      var line := DropReturn(rxBuf[..len]);
      if !HasMarker(line) {
        return;
      }
      if |line| == 2 {
        r := Overread;
        return;
      }
      r := HandleText(line[..2] == START, TextOf(line));
      if r.Deliver? {
        var crc := Crc(r.message, true);
        CrcOfIsTheCrc(r.message, crc);
        crcOk := crc == 0;
      }
    }

    // Lines until one of them is a message or the time is up; a bad CRC is reported and returned all the
    // same.
    method GetMsg(rounds: nat) returns (r: Reading, crcOk: bool)
      requires Valid()
      modifies this`input, rxBuf
      ensures (r, input) == Listen(old(input), rounds)
      ensures r.Deliver? ==> |r.message| <= MAX_BUF_SIZE && rxBuf[..|r.message|] == r.message
      ensures r.Deliver? ==> (crcOk <==> CrcOf(r.message) == 0)
    {
      r, crcOk := Skip, false;
      var left := rounds;
      while left > 0 && r == Skip
        invariant if r == Skip then Listen(input, left) == Listen(old(input), rounds)
                  else (r, input) == Listen(old(input), rounds)
        invariant r.Deliver? ==> |r.message| <= MAX_BUF_SIZE && rxBuf[..|r.message|] == r.message
        invariant r.Deliver? ==> (crcOk <==> CrcOf(r.message) == 0)
        decreases left
      {
        ghost var was := input;
        var len := GetLine();
        r, crcOk := HandleLine(len);
        left := left - 1;
      }
    }
  }

  lemma ShortTextFits(text: Bytes)
    requires |text| < MAX_BUF_SIZE
    ensures SizeNeeded(|Strip(text)|, Pads(Strip(text))) <= MAX_BUF_SIZE
  {
  }

  // ---------- Responses on the wire ----------

  lemma {:induction false} EndedAt(lines: seq<Bytes>, last: bv8)
    ensures |EndAll(lines, last)| == |lines|
    ensures forall i :: 0 <= i < |lines| ==> EndAll(lines, last)[i] == lines[i] + [last]
  {
    if lines != [] {
      EndedAt(lines[1..], last);
    }
  }

  lemma LineTravels(line: Bytes, marker: Bytes, last: bv8)
    requires GoodLine(line, marker) && (marker == START || marker == CONT) && last != LF
    ensures |line + [last]| < MAX_BUF_SIZE && LF !in line + [last]
  {
    assert line == line[..2] + line[2..];
    if LF in line[2..] {
      var i :| 0 <= i < |line[2..]| && line[2..][i] == LF;
      SymbolNotBlank(line[2..][i]);
    }
  }

  // A response sent by the chip as the hub sends its requests reaches the hub if and only if it fits one
  // line.
  lemma ResponseReceivedIffOneLine(body: Bytes, last: bv8, rounds: nat)
    requires |body| + 2 < 0x1_0000 && last != LF
    requires |LinesOf(Encode(Frame(body)), START)| <= rounds
    ensures Listen(Events(Wire(EndAll(LinesOf(Encode(Frame(body)), START), last))), rounds).0
         == if |Encode(Frame(body))| <= LINE_TEXT then Deliver(body + CrcBytes(body)) else Skip
  {
    var text := Encode(Frame(body));
    var lines := LinesOf(text, START);
    var ended := EndAll(lines, last);
    EncodedText(Frame(body));
    LinesDecode(text, START);
    EndedAt(lines, last);
    forall i | 0 <= i < |ended| ensures |ended[i]| < MAX_BUF_SIZE && LF !in ended[i] {
      LineTravels(lines[i], if i == 0 then START else CONT, last);
    }
    ListenToWire(ended, rounds);
    ReceivedIffOneLine(body, last);
  }

  lemma FrameParts(body: Bytes, was: Bytes, now: Bytes)
    requires |body| <= 508 && |was| == |now| == MAX_BUF_SIZE
    requires was[..2] == LengthBytes(|body| + 2) && was[2..2 + |body|] == body
    requires now == was[2 + |body| := CrcBytes(body)[0]][3 + |body| := CrcBytes(body)[1]]
    ensures now[..|body| + 4] == Frame(body)
  {
    assert now[..2] == was[..2] && now[2..2 + |body|] == body;
    assert now[2 + |body|..|body| + 4] == CrcBytes(body);
    assert now[..|body| + 4] == now[..2] + (now[2..2 + |body|] + now[2 + |body|..|body| + 4]);
  }

  lemma WireStep(sent: Bytes, text: Bytes, written: nat, marker: Bytes)
    requires written < |text|
    ensures var n := Cut(text[written..]);
            sent + Wire(LinesOf(text[written..], marker))
            == sent + marker + text[written..written + n] + [LF] + Wire(LinesOf(text[written + n..], CONT))
  {
    var t := text[written..];
    var n := Cut(t);
    var lines := LinesOf(t, marker);
    assert t[n..] == text[written + n..] && t[..n] == text[written..written + n];
    assert lines[1..] == LinesOf(t[n..], CONT);
  }
}
