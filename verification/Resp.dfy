/**
 The Redis serialization protocol (RESP2) as hiredis reads it: concrete syntax, its printer,
 and a recursive-descent parser. The stream reader of read.c is proved against the parser,
 and the parser is proved to be the inverse of the printer.
 */
module Resp {
  import opened Bytes
  import Decimal

  /** The type bytes, in the order of the switch in `processItem`. */
  datatype Kind = ErrorLine | StatusLine | IntegerLine | BulkString | MultiBulk

  /** One protocol item as it stands on the wire. The two bytes after a bulk payload are kept: nobody checks them. */
  datatype Item =
    | Line(status: bool, text: bytes)
    | Number(value: int)
    | Bulk(payload: bytes, trailer: bytes)
    | NilBulk
    | NilArray
    | Multi(items: seq<Item>)

  /** What a `redisReply` tree holds. */
  datatype Reply =
    | Status(text: bytes)
    | Error(text: bytes)
    | Integer(value: int)
    | String(payload: bytes)
    | Nil
    | Array(elements: seq<Reply>)

  /** Why a stream is refused. All of them set REDIS_ERR_PROTOCOL; the message tells them apart. */
  datatype Fault =
    | TypeByte(b: byte)
    | BadInteger
    | BadBulkLength
    | BulkOutOfRange
    | BadMultiBulkLength
    | MultiBulkOutOfRange
    | TooDeep

  datatype Parse = Done(item: Item, rest: bytes) | More | Fail(fault: Fault)

  /** Items live at stack indexes 0 to 8; an array marker at index 8 is refused. */
  const DEEPEST: nat := 8

  function Meaning(i: Item): Reply {
    match i
    case Line(status, text) => if status then Status(text) else Error(text)
    case Number(v) => Integer(v)
    case Bulk(payload, _) => String(payload)
    case NilBulk => Nil
    case NilArray => Nil
    case Multi(items) => Array(MeaningAll(items))
  }

  function MeaningAll(items: seq<Item>): (r: seq<Reply>)
    ensures |r| == |items|
    ensures forall k :: 0 <= k < |items| ==> r[k] == Meaning(items[k])
  {
    if items == [] then [] else [Meaning(items[0])] + MeaningAll(items[1..])
  }

  // ----- Printer -----

  function Header(marker: byte, n: int): bytes {
    [marker] + Decimal.Text(n) + CRLF
  }

  function Encode(i: Item): bytes {
    match i
    case Line(status, text) => [if status then PLUS else MINUS] + text + CRLF
    case Number(v) => Header(COLON, v)
    case Bulk(payload, trailer) => Header(DOLLAR, |payload|) + payload + trailer
    case NilBulk => Header(DOLLAR, -1)
    case NilArray => Header(STAR, -1)
    case Multi(items) => Header(STAR, |items|) + EncodeAll(items)
  }

  function EncodeAll(items: seq<Item>): bytes {
    if items == [] then [] else Encode(items[0]) + EncodeAll(items[1..])
  }

  predicate WellFormed(i: Item) {
    match i
    case Line(_, text) => IsLine(text)
    case Number(v) => INT64_MIN <= v <= INT64_MAX
    case Bulk(payload, trailer) => |payload| <= INT64_MAX && |trailer| == 2
    case NilBulk => true
    case NilArray => true
    case Multi(items) => |items| <= INT_MAX && forall k :: 0 <= k < |items| ==> WellFormed(items[k])
  }

  /** How many array markers are nested in an item, nil and empty arrays included. */
  function Markers(i: Item): nat {
    match i
    case NilArray => 1
    case Multi(items) => 1 + MarkersAll(items)
    case _ => 0
  }

  function MarkersAll(items: seq<Item>): (m: nat)
  {
    if items == [] then 0
    else
      var first, others := Markers(items[0]), MarkersAll(items[1..]);
      if first > others then first else others
  }

  // ----- Recursive-descent parser -----

  datatype Cut = NoLine | Cut(line: bytes, rest: bytes)

  /** Cut the input at its first CR LF. */
  function CutLine(s: bytes): (c: Cut)
    ensures c.Cut? ==> s == c.line + CRLF + c.rest
  {
    if |s| < 2 then NoLine
    else if s[0] == CR && s[1] == LF then Cut([], s[2..])
    else
      var c := CutLine(s[1..]);
      if c.NoLine? then NoLine else Cut([s[0]] + c.line, c.rest)
  }

  /** Text that can stand before a CR LF without ending early. */
  predicate IsLine(line: bytes) {
    CutLine(line + CRLF) == Cut(line, [])
  }

  function KindOf(b: byte): Option<Kind> {
    if b == MINUS then Some(ErrorLine)
    else if b == PLUS then Some(StatusLine)
    else if b == COLON then Some(IntegerLine)
    else if b == DOLLAR then Some(BulkString)
    else if b == STAR then Some(MultiBulk)
    else None
  }

  function ParseItem(level: nat, s: bytes): (p: Parse)
    requires level <= DEEPEST
    ensures p.Done? ==> |p.rest| < |s|
    decreases |s|, 1
  {
    if s == [] then More
    else if KindOf(s[0]).None? then Fail(TypeByte(s[0]))
    else ParseBody(KindOf(s[0]).value, level, s[1..])
  }

  /** The rest of an item whose type byte has been read. */
  function ParseBody(kind: Kind, level: nat, s: bytes): (p: Parse)
    requires level <= DEEPEST
    ensures p.Done? ==> |p.rest| < |s|
    decreases |s|, 0
  {
    if kind == MultiBulk && level == DEEPEST then Fail(TooDeep)
    else
      var c := CutLine(s);
      if c.NoLine? then More
      else if kind == BulkString then ParseBulk(c.line, c.rest)
      else if kind == MultiBulk then
        var h := ParseCount(c.line);
        if h.Bad? then Fail(h.fault)
        else if h.n == -1 then Done(NilArray, c.rest)
        else ParseItems(level + 1, h.n, [], c.rest)
      else ParseLine(kind, c.line, c.rest)
  }

  function ParseLine(kind: Kind, line: bytes, rest: bytes): (p: Parse)
    requires kind != BulkString && kind != MultiBulk
    ensures p.Done? ==> p.rest == rest
  {
    if kind == IntegerLine then
      var v := Decimal.Parse(line);
      if v.None? then Fail(BadInteger) else Done(Number(v.value), rest)
    else
      Done(Line(kind == StatusLine, line), rest)
  }

  function ParseBulk(line: bytes, rest: bytes): (p: Parse)
    ensures p.Done? ==> |p.rest| <= |rest|
  {
    var v := Decimal.Parse(line);
    if v.None? then Fail(BadBulkLength)
    else if v.value < -1 then Fail(BulkOutOfRange)
    else if v.value == -1 then Done(NilBulk, rest)
    else if |rest| < v.value + 2 then More
    else Done(Bulk(rest[..v.value], rest[v.value..v.value + 2]), rest[v.value + 2..])
  }

  datatype Count = Bad(fault: Fault) | Count(n: int)

  function ParseCount(line: bytes): (h: Count)
    ensures h.Count? ==> -1 <= h.n <= INT_MAX
  {
    var v := Decimal.Parse(line);
    if v.None? then Bad(BadMultiBulkLength)
    else if v.value < -1 || v.value > INT_MAX then Bad(MultiBulkOutOfRange)
    else Count(v.value)
  }

  /** n more elements of an array, after the elements in acc. */
  function ParseItems(level: nat, n: nat, acc: seq<Item>, s: bytes): (p: Parse)
    requires level <= DEEPEST
    ensures p.Done? ==> |p.rest| <= |s|
    decreases |s|, 2, n
  {
    if n == 0 then Done(Multi(acc), s)
    else
      var p := ParseItem(level, s);
      if p.Done? then ParseItems(level, n - 1, acc + [p.item], p.rest) else p
  }

  // ----- Lines -----

  lemma {:induction false} CutLineAppend(s: bytes, t: bytes)
    requires CutLine(s).Cut?
    ensures CutLine(s + t) == Cut(CutLine(s).line, CutLine(s).rest + t)
  {
    if s[0] == CR && s[1] == LF {
      assert (s + t)[2..] == s[2..] + t;
    } else {
      CutLineAppend(s[1..], t);
      assert (s + t)[1..] == s[1..] + t;
    }
  }

  /** A line ends at its first CR LF, whatever follows. */
  lemma CutLineAt(line: bytes, rest: bytes)
    requires IsLine(line)
    ensures CutLine(line + CRLF + rest) == Cut(line, rest)
  {
    CutLineAppend(line + CRLF, rest);
    assert [] + rest == rest;
  }

  lemma {:induction false} CutLineIsLine(s: bytes)
    requires CutLine(s).Cut?
    ensures IsLine(CutLine(s).line)
  {
    var line := CutLine(s).line;
    if line != [] {
      CutLineIsLine(s[1..]);
      assert (line + CRLF)[1..] == line[1..] + CRLF;
      assert s[1] == (line + CRLF)[1];
    }
  }

  /** Text without CR is a line. */
  lemma {:induction false} NoReturnIsLine(line: bytes)
    requires CR !in line
    ensures IsLine(line)
  {
    if line != [] {
      NoReturnIsLine(line[1..]);
      assert (line + CRLF)[1..] == line[1..] + CRLF;
      assert line == [line[0]] + line[1..];
    }
  }

  lemma CutHeader(n: int, rest: bytes)
    ensures CutLine(Decimal.Text(n) + CRLF + rest) == Cut(Decimal.Text(n), rest)
  {
    Decimal.DigitsAreCanonical(if n < 0 then -n else n);
    NoReturnIsLine(Decimal.Text(n));
    CutLineAt(Decimal.Text(n), rest);
  }

  // ----- Parser and printer are inverse -----

  /** The first line of an item, without its type byte. */
  function HeadLine(i: Item): bytes {
    match i
    case Line(_, text) => text
    case Number(v) => Decimal.Text(v)
    case Bulk(payload, _) => Decimal.Text(|payload|)
    case NilBulk => Decimal.Text(-1)
    case NilArray => Decimal.Text(-1)
    case Multi(items) => Decimal.Text(|items|)
  }

  function HeadByte(i: Item): byte {
    match i
    case Line(status, _) => if status then PLUS else MINUS
    case Number(_) => COLON
    case Bulk(_, _) => DOLLAR
    case NilBulk => DOLLAR
    case NilArray => STAR
    case Multi(_) => STAR
  }

  function Tail(i: Item): bytes {
    match i
    case Bulk(payload, trailer) => payload + trailer
    case Multi(items) => EncodeAll(items)
    case _ => []
  }

  lemma EncodeParts(i: Item, rest: bytes)
    ensures Encode(i) + rest == [HeadByte(i)] + (HeadLine(i) + CRLF + (Tail(i) + rest))
  {
    var head := [HeadByte(i)] + HeadLine(i) + CRLF;
    assert Encode(i) == head + Tail(i);
    assert head + Tail(i) + rest == head + (Tail(i) + rest);
  }

  lemma CutEncoded(i: Item, rest: bytes)
    requires WellFormed(i)
    ensures var s := Encode(i) + rest;
            s != [] && s[0] == HeadByte(i) && CutLine(s[1..]) == Cut(HeadLine(i), Tail(i) + rest)
  {
    EncodeParts(i, rest);
    assert (Encode(i) + rest)[1..] == HeadLine(i) + CRLF + (Tail(i) + rest);
    if i.Line? {
      CutLineAt(i.text, Tail(i) + rest);
    } else {
      var n := match i case Number(v) => v case Bulk(payload, _) => |payload| case Multi(items) => |items| case _ => -1;
      CutHeader(n, Tail(i) + rest);
      Decimal.ParseIffText(HeadLine(i), n);
    }
  }

  /**
   Completeness: a well-formed item on the wire is read back, and its bytes are all that is consumed,
   unless one of its array markers stands at stack index 8: then, and only then, it is refused as too deep.
   */
  lemma {:induction false} ParseEncoded(level: nat, i: Item, rest: bytes)
    requires level <= DEEPEST && WellFormed(i)
    ensures ParseItem(level, Encode(i) + rest) ==
            if level + Markers(i) <= DEEPEST then Done(i, rest) else Fail(TooDeep)
    decreases i
  {
    CutEncoded(i, rest);
    var s := Encode(i) + rest;
    if i.Multi? {
      ParseMultiEncoded(level, i.items, s[1..], rest);
    } else {
      ParseLeafEncoded(level, i, s[1..], rest);
    }
  }

  lemma {:induction false} ParseMultiEncoded(level: nat, items: seq<Item>, s: bytes, rest: bytes)
    requires level <= DEEPEST && WellFormed(Multi(items))
    requires CutLine(s) == Cut(Decimal.Text(|items|), EncodeAll(items) + rest)
    ensures ParseBody(MultiBulk, level, s) ==
            if level + Markers(Multi(items)) <= DEEPEST then Done(Multi(items), rest) else Fail(TooDeep)
    decreases items, 1
  {
    NumberText(|items|);
    if level < DEEPEST {
      ParseAllEncoded(level + 1, [], items, rest);
      assert [] + items == items;
    }
  }

  lemma ParseLeafEncoded(level: nat, i: Item, s: bytes, rest: bytes)
    requires level <= DEEPEST && WellFormed(i) && !i.Multi?
    requires CutLine(s) == Cut(HeadLine(i), Tail(i) + rest)
    ensures ParseBody(KindOf(HeadByte(i)).value, level, s) ==
            if level + Markers(i) <= DEEPEST then Done(i, rest) else Fail(TooDeep)
  {
    if i.Bulk? {
      BulkParts(i.payload, i.trailer, rest);
    } else {
      assert Tail(i) + rest == rest;
      if i.Number? {
        NumberText(i.value);
      } else if i.NilBulk? {
        NumberText(-1);
        assert ParseBulk(HeadLine(i), rest) == Done(NilBulk, rest);
      } else if i.NilArray? {
        NumberText(-1);
        assert ParseCount(HeadLine(i)) == Count(-1);
      }
    }
  }

  lemma NumberText(v: int64)
    ensures Decimal.Parse(Decimal.Text(v)) == Some(v)
  {
    Decimal.ParseIffText(Decimal.Text(v), v);
  }

  lemma BulkParts(payload: bytes, trailer: bytes, rest: bytes)
    requires |payload| <= INT64_MAX && |trailer| == 2
    ensures ParseBulk(Decimal.Text(|payload|), payload + trailer + rest) == Done(Bulk(payload, trailer), rest)
  {
    var body, n := payload + trailer + rest, |payload|;
    NumberText(n);
    assert body[..n] == payload && body[n..n + 2] == trailer && body[n + 2..] == rest;
  }

  lemma ParseItemsStep(level: nat, n: nat, acc: seq<Item>, s: bytes)
    requires level <= DEEPEST && n > 0
    ensures ParseItems(level, n, acc, s) == Then(ParseItem(level, s), level, n - 1, acc)
  {
  }

  /** Go on with n more elements after one element has been parsed. */
  function Then(p: Parse, level: nat, n: nat, acc: seq<Item>): Parse
    requires level <= DEEPEST
  {
    if p.Done? then ParseItems(level, n, acc + [p.item], p.rest) else p
  }

  lemma {:induction false} ParseAllEncoded(level: nat, acc: seq<Item>, items: seq<Item>, rest: bytes)
    requires level <= DEEPEST && forall k :: 0 <= k < |items| ==> WellFormed(items[k])
    ensures ParseItems(level, |items|, acc, EncodeAll(items) + rest) ==
            if level + MarkersAll(items) <= DEEPEST then Done(Multi(acc + items), rest) else Fail(TooDeep)
    decreases items, 0
  {
    var s := EncodeAll(items) + rest;
    if items == [] {
      assert s == rest && acc + items == acc;
    } else {
      var first, others := items[0], items[1..];
      var s' := EncodeAll(others) + rest;
      assert s == Encode(first) + s';
      ParseEncoded(level, first, s');
      ParseItemsStep(level, |items|, acc, s);
      ParseAllEncoded(level, acc + [first], others, rest);
      assert acc + [first] + others == acc + items;
    }
  }

  /** Soundness: what the parser consumed is the printed form of the item it returns. */
  lemma {:induction false} ParseSound(level: nat, s: bytes)
    requires level <= DEEPEST && ParseItem(level, s).Done?
    ensures
      var p := ParseItem(level, s);
      WellFormed(p.item) && level + Markers(p.item) <= DEEPEST && s == Encode(p.item) + p.rest
    decreases |s|, 4
  {
    hide Encode, CutLine, WellFormed, Markers, ParseLine, ParseBulk, ParseItems, ParseCount;
    var kind, c := KindOf(s[0]).value, CutLine(s[1..]);
    CutLineIsLine(s[1..]);
    var i, rest := ParseItem(level, s).item, ParseItem(level, s).rest;
    if kind == BulkString {
      ParseBulkSound(c.line, c.rest);
    } else if kind == MultiBulk {
      ParseMultiSound(level, s[1..]);
    } else {
      ParseLineSound(kind, c.line, c.rest);
    }
    assert s == [s[0]] + s[1..];
    EncodeParts(i, rest);
  }

  lemma ParseLineSound(kind: Kind, line: bytes, rest: bytes)
    requires kind != BulkString && kind != MultiBulk && IsLine(line) && ParseLine(kind, line, rest).Done?
    ensures
      var i := ParseLine(kind, line, rest).item;
      WellFormed(i) && Markers(i) == 0 && KindOf(HeadByte(i)) == Some(kind) && HeadLine(i) == line &&
      Tail(i) + rest == rest
  {
    if kind == IntegerLine {
      Decimal.ParseIffText(line, Decimal.Parse(line).value);
    }
  }

  lemma ParseBulkSound(line: bytes, rest: bytes)
    requires ParseBulk(line, rest).Done?
    ensures
      var p := ParseBulk(line, rest);
      && WellFormed(p.item) && Markers(p.item) == 0
      && HeadByte(p.item) == DOLLAR && HeadLine(p.item) == line && Tail(p.item) + p.rest == rest
  {
    Decimal.ParseIffText(line, Decimal.Parse(line).value);
  }

  lemma {:induction false} ParseMultiSound(level: nat, s: bytes)
    requires level <= DEEPEST && ParseBody(MultiBulk, level, s).Done?
    ensures
      var c, p := CutLine(s), ParseBody(MultiBulk, level, s);
      && WellFormed(p.item) && level + Markers(p.item) <= DEEPEST
      && HeadByte(p.item) == STAR && HeadLine(p.item) == c.line && Tail(p.item) + p.rest == c.rest
    decreases |s|, 6
  {
    hide ParseItem, ParseItems, CutLine, Encode, Decimal.Text;
    var c := CutLine(s);
    var n := ParseCount(c.line).n;
    Decimal.ParseIffText(c.line, n);
    if n >= 0 {
      ParseItemsSound(level + 1, n, [], c.rest);
      var items := ParseItems(level + 1, n, [], c.rest).item.items;
      assert items[0..] == items;
    } else {
      assert [] + c.rest == c.rest;
    }
  }

  /** The items are well formed, fit under the limit, and are what was read of s. */
  ghost predicate ReadOff(level: nat, items: seq<Item>, s: bytes, rest: bytes) {
    && (forall k :: 0 <= k < |items| ==> WellFormed(items[k]))
    && level + MarkersAll(items) <= DEEPEST && s == EncodeAll(items) + rest
  }

  lemma ReadOffMore(level: nat, i: Item, items: seq<Item>, s: bytes, s': bytes, rest: bytes)
    requires WellFormed(i) && level + Markers(i) <= DEEPEST && s == Encode(i) + s' && ReadOff(level, items, s', rest)
    ensures ReadOff(level, [i] + items, s, rest)
  {
    hide Encode, Markers, WellFormed;
    assert ([i] + items)[1..] == items;
    assert Encode(i) + (EncodeAll(items) + rest) == Encode(i) + EncodeAll(items) + rest;
  }

  lemma ReadOffNone(level: nat, s: bytes)
    requires level <= DEEPEST
    ensures ReadOff(level, [], s, s)
  {
    assert [] + s == s;
  }

  lemma {:induction false} ParseItemsSound(level: nat, n: nat, acc: seq<Item>, s: bytes)
    requires level <= DEEPEST && ParseItems(level, n, acc, s).Done?
    ensures
      var p := ParseItems(level, n, acc, s);
      && p.item.Multi? && |p.item.items| == |acc| + n && p.item.items[..|acc|] == acc
      && ReadOff(level, p.item.items[|acc|..], s, p.rest)
    decreases |s|, 5, n
  {
    hide ParseItem, ReadOff, Encode, WellFormed, Markers;
    if n == 0 {
      assert acc[..|acc|] == acc && acc[|acc|..] == [];
      ReadOffNone(level, s);
    } else {
      var first := ParseItem(level, s);
      ParseItemsStep(level, n, acc, s);
      ParseSound(level, s);
      ParseItemsSound(level, n - 1, acc + [first.item], first.rest);
      var p := ParseItems(level, n, acc, s);
      var later := p.item.items[|acc| + 1..];
      ReadOffMore(level, first.item, later, s, first.rest, p.rest);
      FirstOfItems(acc, first.item, p.item.items);
    }
  }

  lemma FirstOfItems(acc: seq<Item>, i: Item, items: seq<Item>)
    requires |items| > |acc| && items[..|acc| + 1] == acc + [i]
    ensures items[..|acc|] == acc && items[|acc|..] == [i] + items[|acc| + 1..]
  {
    assert items[..|acc|] == items[..|acc| + 1][..|acc|];
    assert items[|acc|] == items[..|acc| + 1][|acc|];
  }

  /** Bytes that arrive later change neither an item already read nor a refusal. */
  lemma {:induction false} ParseExtend(level: nat, s: bytes, t: bytes)
    requires level <= DEEPEST && !ParseItem(level, s).More?
    ensures ParseItem(level, s + t) == Later(ParseItem(level, s), t)
    decreases |s|, 1
  {
    assert (s + t)[1..] == s[1..] + t;
    if KindOf(s[0]).Some? {
      ParseBodyExtend(KindOf(s[0]).value, level, s[1..], t);
    }
  }

  function Later(p: Parse, t: bytes): Parse {
    if p.Done? then Done(p.item, p.rest + t) else p
  }

  lemma {:induction false} ParseBodyExtend(kind: Kind, level: nat, s: bytes, t: bytes)
    requires level <= DEEPEST && !ParseBody(kind, level, s).More?
    ensures ParseBody(kind, level, s + t) == Later(ParseBody(kind, level, s), t)
    decreases |s|, 0
  {
    var c := CutLine(s);
    if c.Cut? {
      CutLineAppend(s, t);
      if kind == BulkString {
        ParseBulkExtend(c.line, c.rest, t);
      } else if kind == MultiBulk && level < DEEPEST {
        var h := ParseCount(c.line);
        if h.Count? && h.n >= 0 {
          ParseItemsExtend(level + 1, h.n, [], c.rest, t);
        }
      }
    }
  }

  lemma ParseBulkExtend(line: bytes, rest: bytes, t: bytes)
    requires !ParseBulk(line, rest).More?
    ensures ParseBulk(line, rest + t) == Later(ParseBulk(line, rest), t)
  {
    var v := Decimal.Parse(line);
    if v.Some? && v.value >= 0 {
      assert (rest + t)[v.value + 2..] == rest[v.value + 2..] + t;
      assert (rest + t)[..v.value] == rest[..v.value];
      assert (rest + t)[v.value..v.value + 2] == rest[v.value..v.value + 2];
    }
  }

  lemma {:induction false} ParseItemsExtend(level: nat, n: nat, acc: seq<Item>, s: bytes, t: bytes)
    requires level <= DEEPEST && !ParseItems(level, n, acc, s).More?
    ensures ParseItems(level, n, acc, s + t) == Later(ParseItems(level, n, acc, s), t)
    decreases |s|, 2, n
  {
    if n > 0 {
      ParseExtend(level, s, t);
      var p := ParseItem(level, s);
      if p.Done? {
        ParseItemsExtend(level, n - 1, acc + [p.item], p.rest, t);
      }
    }
  }
}
