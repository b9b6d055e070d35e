/**
 * A reader of JSON (RFC 8259): objects, arrays, strings and whole numbers, with white space where it may stand.
 */
module JsonReader {
  import opened Wrappers
  import opened Decimals
  import opened WifiText
  import opened WifiScan

  datatype Json = Str(text: Text) | Num(number: int) | Arr(items: seq<Json>) | Obj(members: seq<(Text, Json)>)

  predicate Blank(c: char) {
    c == ' ' || c == '\n' || c == '\t' || c == '\r'
  }

  function Trim(t: Text): (u: Text)
    ensures |u| <= |t|
  {
    if t != [] && Blank(t[0]) then Trim(t[1..]) else t
  }

  // The character that comes next, and what is behind it.
  function Skip(t: Text, c: char): (r: Option<Text>)
    ensures r.Some? ==> |r.value| < |t|
  {
    var u := Trim(t);
    if u != [] && u[0] == c then Some(u[1..]) else None
  }

  function ReadNatural(t: Text): (r: Option<(nat, Text)>)
    ensures r.Some? ==> |r.value.1| < |t|
  {
    var d := Leading(t);
    LeadingPart(t);
    if d == [] then None else Some((Value(d), t[|d|..]))
  }

  function ReadNumber(t: Text): (r: Option<(int, Text)>)
    ensures r.Some? ==> |r.value.1| < |t|
  {
    var minus := t != [] && t[0] == '-';
    match ReadNatural(if minus then t[1..] else t)
    case None => None
    case Some((v, rest)) => Some((if minus then 0 - v else v, rest))
  }

  lemma {:induction false} LeadingPart(t: Text)
    ensures |Leading(t)| <= |t|
  {
    if t != [] && IsDigit(t[0]) {
      LeadingPart(t[1..]);
    }
  }

  lemma {:induction false} StringPart(t: Text)
    ensures ReadString(t).Some? ==> |ReadString(t).value.1| < |t|
    decreases |t|
  {
    if t != [] && t[0] != '"' {
      if t[0] == '\\' && |t| > 1 {
        StringPart(t[2..]);
      } else {
        StringPart(t[1..]);
      }
    }
  }

  function ReadName(t: Text): (r: Option<(Text, Text)>)
    ensures r.Some? ==> |r.value.1| < |t|
  {
    match Skip(t, '"')
    case None => None
    case Some(u) => StringPart(u); ReadString(u)
  }

  function ReadValue(t: Text): (r: Option<(Json, Text)>)
    ensures r.Some? ==> |r.value.1| < |t|
    decreases |t|, 2
  {
    var u := Trim(t);
    if u == [] then None
    else if u[0] == '"' then
      (match ReadName(u) case None => None case Some((s, rest)) => Some((Str(s), rest)))
    else if u[0] == '[' then
      (match Skip(u[1..], ']')
       case Some(rest) => Some((Arr([]), rest))
       case None => match ReadItems(u[1..]) case None => None case Some((vs, rest)) => Some((Arr(vs), rest)))
    else if u[0] == '{' then
      (match Skip(u[1..], '}')
       case Some(rest) => Some((Obj([]), rest))
       case None => match ReadMembers(u[1..]) case None => None case Some((ms, rest)) => Some((Obj(ms), rest)))
    else
      (match ReadNumber(u) case None => None case Some((n, rest)) => Some((Num(n), rest)))
  }

  // What is left of an array, from a value on.
  function ReadItems(t: Text): (r: Option<(seq<Json>, Text)>)
    ensures r.Some? ==> |r.value.1| < |t|
    decreases |t|, 3
  {
    match ReadValue(t)
    case None => None
    case Some((v, rest)) =>
      if Skip(rest, ']').Some? then Some(([v], Skip(rest, ']').value))
      else match Skip(rest, ',')
        case None => None
        case Some(more) => match ReadItems(more) case None => None case Some((vs, end)) => Some(([v] + vs, end))
  }

  // What is left of an object, from a name on.
  function ReadMembers(t: Text): (r: Option<(seq<(Text, Json)>, Text)>)
    ensures r.Some? ==> |r.value.1| < |t|
    decreases |t|, 3
  {
    match ReadName(t)
    case None => None
    case Some((name, behind)) =>
      match Skip(behind, ':')
      case None => None
      case Some(at) =>
        match ReadValue(at)
        case None => None
        case Some((v, rest)) =>
          if Skip(rest, '}').Some? then Some(([(name, v)], Skip(rest, '}').value))
          else match Skip(rest, ',')
            case None => None
            case Some(more) =>
              match ReadMembers(more) case None => None case Some((ms, end)) => Some(([(name, v)] + ms, end))
  }

  // A whole text: one value and white space.
  function Read(t: Text): Option<Json> {
    match ReadValue(t)
    case None => None
    case Some((v, rest)) => if Trim(rest) == [] then Some(v) else None
  }

  // ---------- Reading what was written ----------

  lemma SkipAt(c: char, rest: Text)
    requires !Blank(c)
    ensures Skip([c] + rest, c) == Some(rest) && Trim([c] + rest) == [c] + rest
    ensures forall d :: d != c ==> Skip([c] + rest, d) == None
  {
    assert ([c] + rest)[1..] == rest;
  }

  lemma TrimBlank(c: char, rest: Text)
    requires Blank(c)
    ensures Trim([c] + rest) == Trim(rest)
  {
    assert ([c] + rest)[1..] == rest;
  }

  function Quoted(s: Text): Text {
    ['"'] + Escape(s) + ['"']
  }

  lemma NameRead(s: Text, rest: Text)
    ensures ReadName(Quoted(s) + rest) == Some((s, rest))
    ensures Trim(Quoted(s) + rest) == Quoted(s) + rest && (Quoted(s) + rest)[0] == '"'
  {
    var t := Escape(s) + ['"'] + rest;
    assert Quoted(s) + rest == ['"'] + t;
    SkipAt('"', t);
    EscapeRoundTrip(s, rest);
  }

  // Text e is read as v, whatever follows that is no digit.
  ghost predicate Reads(e: Text, v: Json) {
    forall rest: Text {:trigger ReadValue(e + rest)} :: rest != [] && !IsDigit(rest[0]) ==> ReadValue(e + rest) == Some((v, rest))
  }

  lemma StringReads(s: Text)
    ensures Reads(Quoted(s), Str(s))
  {
    forall rest: Text | rest != [] && !IsDigit(rest[0]) ensures ReadValue(Quoted(s) + rest) == Some((Str(s), rest)) {
      NameRead(s, rest);
    }
  }

  lemma NaturalRead(d: Text, rest: Text)
    requires d != [] && AllDigits(d) && (rest == [] || !IsDigit(rest[0]))
    ensures ReadNatural(d + rest) == Some((Value(d), rest)) && (d + rest)[0] == d[0]
  {
    LeadingDigits(d, rest);
    assert (d + rest)[|d|..] == rest;
  }

  lemma MinusRead(t: Text)
    ensures ReadNumber(['-'] + t) == match ReadNatural(t) case None => None case Some((v, rest)) => Some((0 - v, rest))
  {
    assert (['-'] + t)[1..] == t;
  }

  ghost predicate ReadsAs(d: Text, v: nat) {
    forall rest: Text {:trigger ReadNatural(d + rest)} :: (rest == [] || !IsDigit(rest[0])) ==> ReadNatural(d + rest) == Some((v, rest))
  }

  // A number as a sign, or none, and digits.
  lemma DecimalParts(n: int) returns (sign: Text, d: Text, v: nat)
    ensures Decimal(n) == sign + d && sign == (if n < 0 then ['-'] else []) && v == (if n < 0 then -n else n)
    ensures d != [] && IsDigit(d[0]) && ReadsAs(d, v)
  {
    v := if n < 0 then -n else n;
    d := Natural(v);
    sign := if n < 0 then ['-'] else [];
    NaturalValue(v);
    forall rest: Text | rest == [] || !IsDigit(rest[0]) ensures ReadNatural(d + rest) == Some((v, rest)) {
      NaturalRead(d, rest);
    }
  }

  lemma PlainRead(t: Text, v: nat, rest: Text)
    requires t != [] && t[0] != '-' && ReadNatural(t) == Some((v, rest))
    ensures ReadNumber(t) == Some((v, rest))
  {
  }

  lemma PartsRead(sign: Text, d: Text, v: nat, rest: Text)
    requires d != [] && IsDigit(d[0]) && ReadsAs(d, v) && (sign == [] || sign == ['-']) && (rest == [] || !IsDigit(rest[0]))
    ensures ReadNumber(sign + d + rest) == Some((if sign == [] then v else 0 - v, rest))
  {
    assert ReadNatural(d + rest) == Some((v, rest));
    if sign == [] {
      assert sign + d + rest == d + rest;
      PlainRead(d + rest, v, rest);
    } else {
      MinusRead(d + rest);
      assert sign + d + rest == ['-'] + (d + rest);
    }
  }

  lemma NumberReads(n: int)
    ensures Reads(Decimal(n), Num(n))
  {
    var sign, d, v := DecimalParts(n);
    forall rest: Text | rest != [] && !IsDigit(rest[0]) ensures ReadValue(Decimal(n) + rest) == Some((Num(n), rest)) {
      PartsRead(sign, d, v, rest);
      assert (Decimal(n) + rest)[0] == Decimal(n)[0];
    }
  }

  // A member and its value, up to what is behind the value.
  lemma MemberRead(name: Text, e: Text, v: Json, after: Text) returns (t: Text, behind: Text, at: Text)
    requires Reads(e, v) && after != [] && !IsDigit(after[0])
    ensures t == Quoted(name) + ([':'] + (e + after)) && ReadName(t) == Some((name, behind))
    ensures Skip(behind, ':') == Some(at) && ReadValue(at) == Some((v, after))
  {
    at := e + after;
    behind := [':'] + at;
    t := Quoted(name) + behind;
    NameRead(name, behind);
    SkipAt(':', at);
  }

  // The closing brace follows, or a comma and further members.
  lemma LastMember(name: Text, e: Text, v: Json, rest: Text)
    requires Reads(e, v)
    ensures ReadMembers(Quoted(name) + ([':'] + (e + (['}'] + rest)))) == Some(([(name, v)], rest))
  {
    var t, behind, at := MemberRead(name, e, v, ['}'] + rest);
    SkipAt('}', rest);
  }

  lemma MemberAndMore(name: Text, e: Text, v: Json, more: Text, ms: seq<(Text, Json)>, rest: Text)
    requires Reads(e, v) && ReadMembers(more) == Some((ms, rest))
    ensures ReadMembers(Quoted(name) + ([':'] + (e + ([','] + more)))) == Some(([(name, v)] + ms, rest))
  {
    var t, behind, at := MemberRead(name, e, v, [','] + more);
    SkipAt(',', more);
  }

  lemma MembersBlank(c: char, more: Text)
    requires Blank(c)
    ensures ReadMembers([c] + more) == ReadMembers(more)
  {
    TrimBlank(c, more);
    assert Skip([c] + more, '"') == Skip(more, '"');
    assert ReadName([c] + more) == ReadName(more);
  }

  lemma SkipNot(t: Text, c: char)
    requires t != [] && !Blank(t[0]) && t[0] != c
    ensures Skip(t, c) == None
  {
  }

  lemma ObjectBranch(u: Text)
    requires u != [] && u[0] == '{' && Skip(u[1..], '}') == None
    ensures ReadValue(u) == match ReadMembers(u[1..]) case None => None case Some((ms, rest)) => Some((Obj(ms), rest))
  {
  }

  lemma ObjectReads(members: Text, ms: seq<(Text, Json)>, rest: Text)
    requires members != [] && !Blank(members[0]) && members[0] != '}' && ReadMembers(members) == Some((ms, rest))
    ensures ReadValue(['{'] + members) == Some((Obj(ms), rest))
  {
    var u := ['{'] + members;
    assert u[1..] == members;
    SkipNot(members, '}');
    ObjectBranch(u);
  }

  // An item with the closing bracket, or with a comma and further items.
  lemma LastItem(e: Text, v: Json, rest: Text)
    requires Reads(e, v)
    ensures ReadItems(e + ([']'] + rest)) == Some(([v], rest))
  {
    var after := [']'] + rest;
    assert ReadValue(e + after) == Some((v, after));
    SkipAt(']', rest);
  }

  lemma ItemAndMore(e: Text, v: Json, more: Text, vs: seq<Json>, rest: Text)
    requires Reads(e, v) && ReadItems(more) == Some((vs, rest))
    ensures ReadItems(e + ([','] + more)) == Some(([v] + vs, rest))
  {
    var after := [','] + more;
    assert ReadValue(e + after) == Some((v, after));
    SkipAt(',', more);
  }

  lemma ValueBlank(c: char, t: Text)
    requires Blank(c)
    ensures ReadValue([c] + t) == ReadValue(t) && ReadItems([c] + t) == ReadItems(t)
  {
    TrimBlank(c, t);
  }

  lemma BlankReads(c: char, e: Text, v: Json)
    requires Blank(c) && Reads(e, v)
    ensures Reads([c] + e, v)
  {
    forall rest: Text | rest != [] && !IsDigit(rest[0]) ensures ReadValue([c] + e + rest) == Some((v, rest)) {
      assert [c] + e + rest == [c] + (e + rest);
      ValueBlank(c, e + rest);
    }
  }

  lemma ArrayBranch(u: Text)
    requires u != [] && u[0] == '[' && Skip(u[1..], ']') == None
    ensures ReadValue(u) == match ReadItems(u[1..]) case None => None case Some((vs, rest)) => Some((Arr(vs), rest))
  {
  }

  lemma ArrayRead(items: Text, vs: seq<Json>, rest: Text)
    requires items != [] && !Blank(items[0]) && items[0] != ']' && ReadItems(items) == Some((vs, rest))
    ensures ReadValue(['['] + items) == Some((Arr(vs), rest))
  {
    var u := ['['] + items;
    assert u[1..] == items;
    SkipNot(items, ']');
    ArrayBranch(u);
  }

  lemma EmptyArrayReads()
    ensures Reads(['[', ']'], Arr([]))
  {
    forall rest: Text | rest != [] && !IsDigit(rest[0]) ensures ReadValue(['[', ']'] + rest) == Some((Arr([]), rest)) {
      assert ['[', ']'] + rest == ['['] + ([']'] + rest);
      SkipAt('[', [']'] + rest);
      assert (['['] + ([']'] + rest))[1..] == [']'] + rest;
      SkipAt(']', rest);
    }
  }
}
