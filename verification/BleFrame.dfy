/**
 * A byte and its value.
 */
module ByteNumbers {
  function Value(b: bv8): nat {
    b as int
  }

  function Byte(m: nat): bv8
    requires m < 256
  {
    m as bv8
  }

  lemma ByteBack(m: nat)
    requires m < 256
    ensures Value(Byte(m)) == m
  {
    Converted(m);
  }

  lemma Converted(m: int)
    requires 0 <= m < 256
    ensures (m as bv8) as int == m
  {
    assert 0 <= (m as bv8) as int < 256;
  }
}

/**
 * The frames the hub exchanges with its Bluetooth chip's boot loader, and the lines they travel in.
 *
 * A frame is a length, the body and its CRC; its base64 text is cut into lines that begin with one of
 * two markers. The sender's cutting and the receiver's reading of one line are described here on
 * values; Ble has the code.
 */
module BleFrame {
  import opened Wrappers
  import opened Base64
  import opened Base64Scan
  import opened CrcCode
  import ByteNumbers

  type Bytes = seq<bv8>

  const START: Bytes := [6, 9]
  const CONT: Bytes := [4, 20]
  const MAX_BUF_SIZE: nat := 512
  const LINE_TEXT: nat := 124

  // ---------- Frames ----------

  function LengthBytes(n: nat): (t: Bytes)
    requires n < 0x1_0000
    ensures |t| == 2
  {
    [ByteNumbers.Byte(n / 256), ByteNumbers.Byte(n % 256)]
  }

  function LengthOf(t: Bytes): nat
    requires |t| >= 2
  {
    ByteNumbers.Value(t[0]) * 256 + ByteNumbers.Value(t[1])
  }

  lemma LengthBack(n: nat)
    requires n < 0x1_0000
    ensures LengthOf(LengthBytes(n)) == n
  {
    ByteNumbers.ByteBack(n / 256);
    ByteNumbers.ByteBack(n % 256);
  }

  function CrcBytes(body: Bytes): (t: Bytes)
    ensures |t| == 2
  {
    [HighByte(CrcOf(body)), LowByte(CrcOf(body))]
  }

  function Frame(body: Bytes): (f: Bytes)
    requires |body| + 2 < 0x1_0000
    ensures |f| == |body| + 4
  {
    LengthBytes(|body| + 2) + (body + CrcBytes(body))
  }

  // What a frame says: everything after its length, if that is as much as the length announces.
  function Unframe(f: Bytes): Option<Bytes> {
    if |f| >= 2 && LengthOf(f) == |f| - 2 then Some(f[2..]) else None
  }

  lemma FrameRoundTrip(body: Bytes)
    requires |body| + 2 < 0x1_0000
    ensures Unframe(Frame(body)) == Some(body + CrcBytes(body)) && CrcOf(body + CrcBytes(body)) == 0
  {
    LengthBack(|body| + 2);
    assert Frame(body)[..2] == LengthBytes(|body| + 2);
    assert Frame(body)[2..] == body + CrcBytes(body);
    CheckPassesOnlyForCrc(body, CrcBytes(body));
  }

  lemma FramePlaces(body: Bytes) returns (h: bv8, l: bv8)
    requires |body| + 2 < 0x1_0000
    ensures var f, n := Frame(body), |body|;
            && f[..2] == LengthBytes(n + 2) && f[2..n + 2] == body && f[n + 2] == h && f[n + 3] == l
            && h == HighByte(CrcOf(body)) && l == LowByte(CrcOf(body))
  {
    h, l := HighByte(CrcOf(body)), LowByte(CrcOf(body));
    assert CrcBytes(body) == [h, l];
  }

  lemma WordOfBytes(c: bv16, h: bv8, l: bv8)
    requires h == HighByte(c) && l == LowByte(c)
    ensures (h as bv16 << 8) | l as bv16 == c
  {
  }

  // The frame by its bytes: a length of two bytes that counts body and CRC, the body, the CRC, both high byte
  // first.
  lemma FrameBytes(body: Bytes)
    requires |body| + 2 < 0x1_0000
    ensures var f, n := Frame(body), |body|;
            && f[0] as int * 256 + f[1] as int == n + 2 && f[2..n + 2] == body
            && (f[n + 2] as bv16 << 8) | f[n + 3] as bv16 == CrcOf(body)
  {
    var h, l := FramePlaces(body);
    WordOfBytes(CrcOf(body), h, l);
    LengthBack(|body| + 2);
    LengthPlaces(Frame(body), |body| + 2);
  }

  lemma LengthPlaces(f: Bytes, n: nat)
    requires n < 0x1_0000 && |f| >= 2 && f[..2] == LengthBytes(n)
    ensures f[0] as int * 256 + f[1] as int == n
  {
    LengthBack(n);
    assert f[0] == f[..2][0] && f[1] == f[..2][1];
    assert LengthOf(f) == LengthOf(LengthBytes(n));
  }

  // ---------- Cutting a text into lines ----------

  function Cut(text: Bytes): nat {
    if LINE_TEXT < |text| then LINE_TEXT else |text|
  }

  function LinesOf(text: Bytes, marker: Bytes): seq<Bytes>
    decreases |text|
  {
    if text == [] then [] else [marker + text[..Cut(text)]] + LinesOf(text[Cut(text)..], CONT)
  }

  // The bytes on the wire.
  function Wire(lines: seq<Bytes>): Bytes {
    if lines == [] then [] else lines[0] + [LF] + Wire(lines[1..])
  }

  // Undoing it: the lines' texts decoded one by one, the markers dropped.
  function Payload(lines: seq<Bytes>): Bytes {
    if lines == [] then []
    else (if |lines[0]| >= 2 then Decode(lines[0][2..]) else []) + Payload(lines[1..])
  }

  ghost predicate GoodLine(line: Bytes, marker: Bytes) {
    && 2 < |line| && |line| + 1 <= 127 && line[..2] == marker
    && |line[2..]| % 4 == 0 && WellPadded(line[2..])
  }

  // Exactly the first line carries the start marker, every line is short and decodes by itself, and
  // together they decode to what the whole text decodes to.
  lemma {:induction false} LinesDecode(text: Bytes, marker: Bytes)
    requires |marker| == 2 && |text| % 4 == 0 && WellPadded(text)
    ensures var lines := LinesOf(text, marker);
            && Payload(lines) == Decode(text)
            && |lines| == (|text| + LINE_TEXT - 1) / LINE_TEXT
            && (forall i :: 0 <= i < |lines| ==> GoodLine(lines[i], if i == 0 then marker else CONT))
    decreases |text|
  {
    if text != [] {
      var n := Cut(text);
      WellPaddedParts(text, n);
      CutKeepsGroups(|text|, n);
      LinesDecode(text[n..], CONT);
      assert text == text[..n] + text[n..];
      DecodeSplits(text[..n], text[n..]);
      var line := marker + text[..n];
      assert line[2..] == text[..n] && line[..2] == marker;
      assert LinesOf(text, marker)[1..] == LinesOf(text[n..], CONT);
    }
  }

  lemma CutKeepsGroups(m: nat, n: nat)
    requires m % 4 == 0 && m > 0 && n == if LINE_TEXT < m then LINE_TEXT else m
    ensures n % 4 == 0 && (m - n) % 4 == 0 && n > 0
    ensures (m + LINE_TEXT - 1) / LINE_TEXT == 1 + (m - n + LINE_TEXT - 1) / LINE_TEXT
  {
  }

  // The lines without their markers, joined.
  function Texts(lines: seq<Bytes>): Bytes {
    if lines == [] then [] else (if |lines[0]| >= 2 then lines[0][2..] else []) + Texts(lines[1..])
  }

  // The bytes 6 and 9 before the first 124 characters, 4 and 20 before each further 124 and what is left.
  lemma {:induction false} LinesHoldText(text: Bytes, marker: Bytes)
    requires |marker| == 2
    ensures var lines := LinesOf(text, marker);
            && Texts(lines) == text
            && (forall i :: 0 <= i < |lines| ==> |lines[i]| >= 2 && lines[i][..2] == if i == 0 then marker else [4, 20])
            && (forall i :: 0 <= i < |lines| - 1 ==> |lines[i]| == 2 + 124)
    decreases |text|
  {
    if text != [] {
      var n := Cut(text);
      LinesHoldText(text[n..], CONT);
      var line := marker + text[..n];
      assert line[2..] == text[..n] && line[..2] == marker && text == text[..n] + text[n..];
      assert LinesOf(text, marker)[1..] == LinesOf(text[n..], CONT);
    }
  }

  // Every body survives the trip: frame, encode, cut, decode line by line, unframe.
  lemma TransmissionRoundTrip(body: Bytes)
    requires |body| + 2 < 0x1_0000
    ensures Unframe(Payload(LinesOf(Encode(Frame(body)), START))) == Some(body + CrcBytes(body))
  {
    RoundTrip(Frame(body));
    EncodedLength(Frame(body));
    LinesDecode(Encode(Frame(body)), START);
    FrameRoundTrip(body);
  }

  // ---------- The receiver ----------

  // What the receiver makes of one line: nothing, a message, or, for a line that is only a marker, a
  // read of 2^32 - 1 bytes that this model does not follow.
  datatype Reading = Skip | Deliver(message: Bytes) | Overread

  function DropReturn(line: Bytes): Bytes {
    if |line| > 1 && line[0] == CR then line[1..] else line
  }

  // A carriage return before a line is not part of it, but counts towards a full buffer.
  lemma ReturnDropped(line: Bytes)
    requires line != [] && line[0] != 13 && |line| < 512
    ensures ReadLine([13] + line) == if |line| == 511 then Skip else ReadLine(line)
  {
    assert ([13] + line)[1..] == line;
  }

  predicate HasMarker(l: Bytes) {
    |l| >= 2 && (l[..2] == CONT || l[..2] == START)
  }

  // The text of a line: the marker and the last byte are not part of it.
  function TextOf(l: Bytes): Bytes
    requires |l| > 2
  {
    l[2..|l| - 1]
  }

  ghost function ReadLine(line: Bytes): Reading {
    var l := DropReturn(line);
    if |line| == 0 || |line| == MAX_BUF_SIZE || !HasMarker(l) then Skip
    else if |l| == 2 then Overread
    else ReadText(l[..2] == START, TextOf(l))
  }

  ghost function ReadText(first: bool, text: Bytes): Reading {
    if !Accepts(text) || !first then Skip
    else match Unframe(Decode(Strip(text)))
      case None => Skip
      case Some(m) => Deliver(m)
  }

  function OrElse(r: Reading, next: Reading): Reading {
    if r == Skip then next else r
  }

  // The first message among the lines.
  ghost function FirstMessage(lines: seq<Bytes>): Reading {
    if lines == [] then Skip else OrElse(ReadLine(lines[0]), FirstMessage(lines[1..]))
  }

  lemma StartLine(text: Bytes, last: bv8)
    requires 0 < |text| <= 508 && WellPadded(text)
    ensures ReadLine(START + text + [last]) == match Unframe(Decode(text)) case None => Skip case Some(m) => Deliver(m)
  {
    var l := START + text + [last];
    assert l[..2] == START && TextOf(l) == text && l[0] == 6;
    ReadPlain(text);
  }

  lemma ReadPlain(text: Bytes)
    requires 0 < |text| && WellPadded(text)
    ensures ReadText(true, text) == match Unframe(Decode(text)) case None => Skip case Some(m) => Deliver(m)
  {
    PlainTextAccepted(text);
  }

  lemma ContLine(text: Bytes)
    requires 0 < |text|
    ensures ReadLine(CONT + text) == Skip
  {
    var l := CONT + text;
    assert l[..2] == CONT && l[0] == 4;
  }

  // A whole frame in one line is received, with its CRC behind it and the check passing.
  lemma OneLineReceived(body: Bytes, last: bv8)
    requires |body| + 2 < 0x1_0000 && |Encode(Frame(body))| <= 508
    ensures ReadLine([6, 9] + Encode(Frame(body)) + [last]) == Deliver(body + CrcBytes(body))
    ensures CrcOf(body + CrcBytes(body)) == 0
  {
    RoundTrip(Frame(body));
    EncodedLength(Frame(body));
    StartLine(Encode(Frame(body)), last);
    FrameRoundTrip(body);
  }

  // ---------- Responses in several lines ----------

  // The lines as the chip ends them, with one more byte before the line feed.
  function EndAll(lines: seq<Bytes>, last: bv8): seq<Bytes> {
    if lines == [] then [] else [lines[0] + [last]] + EndAll(lines[1..], last)
  }

  lemma {:induction false} ContinuationsSkipped(text: Bytes, last: bv8)
    ensures FirstMessage(EndAll(LinesOf(text, CONT), last)) == Skip
    decreases |text|
  {
    if text != [] {
      var n := Cut(text);
      var lines := LinesOf(text, CONT);
      assert lines[1..] == LinesOf(text[n..], CONT);
      assert EndAll(lines, last)[1..] == EndAll(lines[1..], last);
      assert CONT + text[..n] + [last] == CONT + (text[..n] + [last]);
      ContLine(text[..n] + [last]);
      ContinuationsSkipped(text[n..], last);
    }
  }

  // A response cut as the sender cuts is received if and only if it fits one line: the total length
  // the first line announces is forgotten before the second is read.
  lemma ReceivedIffOneLine(body: Bytes, last: bv8)
    requires |body| + 2 < 0x1_0000
    ensures var text := Encode(Frame(body));
            FirstMessage(EndAll(LinesOf(text, START), last))
            == if |text| <= LINE_TEXT then Deliver(body + CrcBytes(body)) else Skip
  {
    var text := Encode(Frame(body));
    var n := Cut(text);
    var lines := LinesOf(text, START);
    RoundTrip(Frame(body));
    EncodedLength(Frame(body));
    assert lines[0] == START + text[..n] && lines[1..] == LinesOf(text[n..], CONT);
    assert EndAll(lines, last)[0] == START + text[..n] + [last];
    assert EndAll(lines, last)[1..] == EndAll(lines[1..], last);
    ContinuationsSkipped(text[n..], last);
    WellPaddedParts(text, n);
    StartLine(text[..n], last);
    if n == |text| {
      assert text[..n] == text;
      FrameRoundTrip(body);
    } else {
      PartOfFrame(body, n);
    }
  }

  lemma {:induction false} OwnContinuationsSkipped(text: Bytes)
    ensures FirstMessage(LinesOf(text, CONT)) == Skip
    decreases |text|
  {
    if text != [] {
      var n := Cut(text);
      assert LinesOf(text, CONT)[1..] == LinesOf(text[n..], CONT);
      ContLine(text[..n]);
      OwnContinuationsSkipped(text[n..]);
    }
  }

  // Without that one more byte the receiver drops the last symbol of the text, and its group with it: it
  // receives nothing the sender sends.
  lemma OwnLinesNotReceived(body: Bytes)
    requires |body| + 2 < 0x1_0000
    ensures FirstMessage(LinesOf(Encode(Frame(body)), START)) == Skip
  {
    EncodedText(Frame(body));
    PartOfFrame(body, Cut(Encode(Frame(body))) - 4);
    OwnLines(Encode(Frame(body)));
  }

  lemma EncodedText(f: Bytes)
    requires f != []
    ensures WellPadded(Encode(f)) && |Encode(f)| % 4 == 0 && 4 <= Cut(Encode(f)) && Cut(Encode(f)) % 4 == 0
  {
    RoundTrip(f);
    EncodedLength(f);
    WholeCut(|Encode(f)|);
  }

  lemma WholeCut(n: nat)
    requires n > 0 && n % 4 == 0
    ensures n >= 4 && LINE_TEXT % 4 == 0
  {
  }

  lemma OwnLines(text: Bytes)
    requires 4 <= Cut(text) && Cut(text) % 4 == 0 && WellPadded(text) && Unframe(Decode(text[..Cut(text) - 4])) == None
    ensures FirstMessage(LinesOf(text, START)) == Skip
  {
    var n := Cut(text);
    assert LinesOf(text, START)[1..] == LinesOf(text[n..], CONT);
    OwnContinuationsSkipped(text[n..]);
    OwnFirstLine(text, n);
  }

  lemma OwnFirstLine(text: Bytes, n: nat)
    requires 4 <= n <= |text| && n <= LINE_TEXT && n % 4 == 0 && WellPadded(text) && Unframe(Decode(text[..n - 4])) == None
    ensures ReadLine(START + text[..n]) == Skip
  {
    LastSymbolLost(text, n);
    WellPaddedParts(text, n - 1);
    assert START + text[..n] == START + text[..n - 1] + [text[n - 1]];
    StartLine(text[..n - 1], text[n - 1]);
  }

  lemma LastSymbolLost(text: Bytes, n: nat)
    requires 4 <= n <= |text| && n % 4 == 0
    ensures Decode(text[..n - 1]) == Decode(text[..n - 4])
  {
    assert text[..n - 1] == text[..n - 4] + text[n - 4..n - 1];
    DecodeUnfinished(text[..n - 4], text[n - 4..n - 1]);
  }

  // The start of a frame announces more than it holds.
  lemma PartOfFrame(body: Bytes, n: nat)
    requires |body| + 2 < 0x1_0000
    requires var text := Encode(Frame(body)); n % 4 == 0 && n < |text|
    ensures Unframe(Decode(Encode(Frame(body))[..n])) == None
  {
    DecodeCut(Frame(body), n);
    StartOfFrame(body, Decode(Encode(Frame(body))[..n]), Decode(Encode(Frame(body))[n..]));
  }

  lemma DecodeCut(f: Bytes, n: nat)
    requires n % 4 == 0 && n < |Encode(f)|
    ensures f == Decode(Encode(f)[..n]) + Decode(Encode(f)[n..]) && Decode(Encode(f)[n..]) != []
  {
    RoundTrip(f);
    EncodedLength(f);
    TextCut(Encode(f), n);
  }

  lemma RestNotEmpty(t: Bytes, n: nat)
    requires WellPadded(t) && |t| % 4 == 0 && n % 4 == 0 && n < |t|
    ensures Decode(t[n..]) != []
  {
    WellPaddedParts(t, n);
    AtLeastFour(|t|, n);
    DecodeNotEmpty(t[n..]);
  }

  lemma TextCut(t: Bytes, n: nat)
    requires WellPadded(t) && |t| % 4 == 0 && n % 4 == 0 && n < |t|
    ensures Decode(t) == Decode(t[..n]) + Decode(t[n..]) && Decode(t[n..]) != []
  {
    RestNotEmpty(t, n);
    DecodeSplits(t[..n], t[n..]);
    assert t == t[..n] + t[n..];
  }

  lemma AtLeastFour(m: nat, n: nat)
    requires m % 4 == 0 && n % 4 == 0 && n < m
    ensures m - n >= 4
  {
  }

  lemma StartOfFrame(body: Bytes, d: Bytes, e: Bytes)
    requires |body| + 2 < 0x1_0000 && Frame(body) == d + e && e != []
    ensures Unframe(d) == None
  {
    if |d| >= 2 {
      assert d[0] == (d + e)[0] && d[1] == (d + e)[1];
      assert LengthOf(d) == LengthOf(Frame(body)) == LengthOf(LengthBytes(|body| + 2));
      LengthBack(|body| + 2);
    }
  }

  lemma DecodeNotEmpty(t: Bytes)
    requires WellPadded(t) && |t| >= 4
    ensures Decode(t) != []
  {
    DecodeFirstGroup(t);
  }
}
