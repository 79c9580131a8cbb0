/**
 What a stream of replies says, when it is refused and why, and when there is more to come: stated on its bytes. The
 parser of `Resp` gives these verdicts and no others.
 */
module Verdicts {
  import opened Bytes
  import opened Resp
  import Decimal
  import Streams

  // ----- Lines -----

  /** No CR LF in s. */
  predicate Unbroken(s: bytes) {
    forall k :: 0 <= k < |s| - 1 ==> !(s[k] == 13 && s[k + 1] == 10)
  }

  /** The first CR LF of s stands after line and before rest. */
  predicate FirstLine(s: bytes, line: bytes, rest: bytes) {
    s == line + [13, 10] + rest && Unbroken(line + [13])
  }

  /** The line is the decimal text of a number from lo to hi. */
  ghost predicate Names(line: bytes, lo: int, hi: int) {
    exists n :: lo <= n <= hi && line == Decimal.Text(n)
  }

  lemma {:induction false} CutIsFirst(s: bytes)
    ensures match CutLine(s)
            case NoLine => Unbroken(s)
            case Cut(line, rest) => FirstLine(s, line, rest)
  {
    if |s| >= 2 && !(s[0] == 13 && s[1] == 10) {
      CutIsFirst(s[1..]);
      if CutLine(s).Cut? {
        assert forall k :: 1 <= k < |CutLine(s).line + [13]| ==>
            (CutLine(s).line + [13])[k] == (CutLine(s[1..]).line + [13])[k - 1];
      } else {
        assert forall k :: 1 <= k < |s| ==> s[k] == s[1..][k - 1];
      }
    }
  }

  lemma {:induction false} OneFirst(s: bytes, line: bytes, rest: bytes)
    requires FirstLine(s, line, rest)
    ensures CutLine(s) == Cut(line, rest)
  {
    if line == [] {
      assert s[2..] == rest;
    } else {
      assert s[0] == (line + [13])[0] && s[1] == (line + [13])[1];
      assert s[1..] == line[1..] + [13, 10] + rest;
      assert line[1..] + [13] == (line + [13])[1..];
      OneFirst(s[1..], line[1..], rest);
      assert [line[0]] + line[1..] == line;
    }
  }

  // ----- What the bytes say -----

  /** The bytes s are this reply, at a level of nesting at which arrays may stand while it is below 8. */
  ghost predicate Says(level: nat, r: Reply, s: bytes)
    decreases r
  {
    match r
    case Status(text) => s == [43] + text + [13, 10] && Unbroken(text + [13])
    case Error(text) => s == [45] + text + [13, 10] && Unbroken(text + [13])
    case Integer(n) => -0x8000_0000_0000_0000 <= n < 0x8000_0000_0000_0000 && s == [58] + Decimal.Text(n) + [13, 10]
    case String(payload) =>
      && |payload| < 0x8000_0000_0000_0000
      && exists a, b :: s == [36] + Decimal.Text(|payload|) + [13, 10] + payload + [a, b]
    case Nil => s == [36, 45, 49, 13, 10] || (level < 8 && s == [42, 45, 49, 13, 10])
    case Array(rs) =>
      && level < 8 && |rs| < 0x8000_0000
      && exists body :: s == Opening(|rs|) + body && SayAll(level + 1, rs, body)
  }

  /** The first line of an array of n elements. */
  function Opening(n: nat): bytes {
    [42] + Decimal.Text(n) + [13, 10]
  }

  /** The bytes s are these replies, one after the other. */
  ghost predicate SayAll(level: nat, rs: seq<Reply>, s: bytes)
    decreases rs
  {
    if rs == [] then s == []
    else exists a, b :: s == a + b && Says(level, rs[0], a) && SayAll(level, rs[1..], b)
  }

  /** What the first line, without its first byte b, is refused for. */
  ghost predicate BadLine(b: byte, line: bytes, fault: Fault) {
    match fault
    case BadInteger => b == 58 && !Names(line, -0x8000_0000_0000_0000, 0x7fff_ffff_ffff_ffff)
    case BadBulkLength => b == 36 && !Names(line, -0x8000_0000_0000_0000, 0x7fff_ffff_ffff_ffff)
    case BulkOutOfRange => b == 36 && Names(line, -0x8000_0000_0000_0000, -2)
    case BadMultiBulkLength => b == 42 && !Names(line, -0x8000_0000_0000_0000, 0x7fff_ffff_ffff_ffff)
    case MultiBulkOutOfRange =>
      b == 42 && (Names(line, -0x8000_0000_0000_0000, -2) || Names(line, 0x8000_0000, 0x7fff_ffff_ffff_ffff))
    case _ => false
  }

  /** An item is refused at its start. */
  ghost predicate BadStart(level: nat, s: bytes, fault: Fault) {
    && s != []
    && if s[0] !in {43, 45, 58, 36, 42} then fault == TypeByte(s[0])
       else if s[0] == 42 && level >= 8 then fault == TooDeep
       else exists line, rest :: FirstLine(s[1..], line, rest) && BadLine(s[0], line, fault)
  }

  /** An item is not complete, and all it has so far is its start. */
  ghost predicate Short(level: nat, s: bytes) {
    || s == []
    || (s[0] in {43, 45, 58, 36, 42} && !(s[0] == 42 && level >= 8) && Unbroken(s[1..]))
    || (s[0] == 36 && exists n: nat, rest ::
          n < 0x8000_0000_0000_0000 && s == [36] + Decimal.Text(n) + [13, 10] + rest && |rest| < n + 2)
  }

  /** An array of n elements: these replies stand complete in it, and tail is what there is of the next. */
  ghost predicate OpenAt(level: nat, s: bytes, n: nat, rs: seq<Reply>, front: bytes, tail: bytes) {
    level < 8 && |rs| < n < 0x8000_0000 && s == Opening(n) + front + tail && SayAll(level + 1, rs, front)
  }

  /** The bytes are refused, at the start of an item or in an element of an array. */
  ghost predicate Refused(level: nat, s: bytes, fault: Fault)
    decreases |s|
  {
    || BadStart(level, s, fault)
    || exists n, rs, front, tail ::
         OpenAt(level, s, n, rs, front, tail) && |tail| < |s| && Refused(level + 1, tail, fault)
  }

  /** More bytes must come. */
  ghost predicate Incomplete(level: nat, s: bytes)
    decreases |s|
  {
    || Short(level, s)
    || exists n, rs, front, tail ::
         OpenAt(level, s, n, rs, front, tail) && |tail| < |s| && Incomplete(level + 1, tail)
  }

  // ----- What is said is read -----

  lemma TextLine(n: int, rest: bytes)
    ensures CutLine(Decimal.Text(n) + [13, 10] + rest) == Cut(Decimal.Text(n), rest)
  {
    CutHeader(n, rest);
  }

  /** The verdict on an item whose first line is complete. */
  lemma OfLine(level: nat, s: bytes, line: bytes, tail: bytes)
    requires level <= 8 && s != [] && s[0] in {43, 45, 58, 36, 42} && !(s[0] == 42 && level >= 8)
    requires CutLine(s[1..]) == Cut(line, tail)
    ensures ParseItem(level, s) ==
            match s[0]
            case 36 => ParseBulk(line, tail)
            case 42 =>
              (match ParseCount(line)
               case Bad(fault) => Fail(fault)
               case Count(n) => if n == -1 then Done(NilArray, tail) else ParseItems(level + 1, n, [], tail))
            case _ => ParseLine(KindOf(s[0]).value, line, tail)
  {
    hide ParseItems, CutLine, ParseBulk, ParseLine, ParseCount;
    assert ParseItem(level, s) == ParseBody(KindOf(s[0]).value, level, s[1..]);
  }

  /** A line of a status, an error or an integer. */
  lemma LineRead(level: nat, b: byte, line: bytes, rest: bytes)
    requires level <= 8 && b in {43, 45, 58} && Unbroken(line + [13])
    ensures ParseItem(level, [b] + line + [13, 10] + rest) == ParseLine(KindOf(b).value, line, rest)
  {
    hide ParseItem, ParseItems, CutLine, ParseBulk, ParseLine, ParseCount, Unbroken;
    var s := [b] + line + [13, 10] + rest;
    assert s[1..] == line + [13, 10] + rest;
    OneFirst(s[1..], line, rest);
    OfLine(level, s, line, rest);
  }

  lemma BulkRead(level: nat, n: int, rest: bytes)
    requires level <= 8
    ensures ParseItem(level, [36] + Decimal.Text(n) + [13, 10] + rest) == ParseBulk(Decimal.Text(n), rest)
  {
    hide ParseItem, ParseItems, CutLine, ParseBulk, ParseLine, ParseCount, Decimal.Text;
    var s := [36] + Decimal.Text(n) + [13, 10] + rest;
    assert s[1..] == Decimal.Text(n) + [13, 10] + rest;
    TextLine(n, rest);
    OfLine(level, s, Decimal.Text(n), rest);
  }

  lemma MultiRead(level: nat, n: int, rest: bytes)
    requires level < 8 && -1 <= n < 0x8000_0000
    ensures ParseItem(level, [42] + Decimal.Text(n) + [13, 10] + rest) ==
            if n == -1 then Done(NilArray, rest) else ParseItems(level + 1, n, [], rest)
  {
    hide ParseItem, ParseItems, CutLine, ParseBulk, ParseLine, Decimal.Text;
    var s := [42] + Decimal.Text(n) + [13, 10] + rest;
    assert s[1..] == Decimal.Text(n) + [13, 10] + rest;
    TextLine(n, rest);
    OfLine(level, s, Decimal.Text(n), rest);
    NumberText(n);
  }

  lemma MinusOne()
    ensures Decimal.Text(-1) == [45, 49]
  {
  }

  lemma {:induction false} SaidIsRead(level: nat, r: Reply, s: bytes, rest: bytes) returns (i: Item)
    requires level <= 8 && Says(level, r, s)
    ensures ParseItem(level, s + rest) == Done(i, rest) && Meaning(i) == r
    decreases r
  {
    hide ParseItem, Decimal.Text, SayAll, Unbroken, Meaning;
    match r {
      case Status(text) =>
        i := TextRead(level, true, text, s, rest);
      case Error(text) =>
        i := TextRead(level, false, text, s, rest);
      case Integer(n) =>
        i := IntegerRead(level, n, s, rest);
      case String(payload) =>
        var a, b :| s == [36] + Decimal.Text(|payload|) + [13, 10] + payload + [a, b];
        i := PayloadRead(level, payload, [a, b], s, rest);
      case Nil =>
        i := NilRead(level, s, rest);
      case Array(rs) =>
        var body :| s == Opening(|rs|) + body && SayAll(level + 1, rs, body);
        MultiRead(level, |rs|, body + rest);
        assert s + rest == [42] + Decimal.Text(|rs|) + [13, 10] + (body + rest);
        var items := AllRead(level + 1, |rs|, [], rs, body, rest);
        assert [] + items == items;
        i := Multi(items);
        MultiMeaning(items);
    }
  }

  lemma TextRead(level: nat, status: bool, text: bytes, s: bytes, rest: bytes) returns (i: Item)
    requires level <= 8 && Unbroken(text + [13]) && s == [if status then 43 else 45] + text + [13, 10]
    ensures ParseItem(level, s + rest) == Done(i, rest) && Meaning(i) == if status then Status(text) else Error(text)
  {
    hide ParseItem, Unbroken;
    var b: byte := if status then 43 else 45;
    LineRead(level, b, text, rest);
    assert s + rest == [b] + text + [13, 10] + rest;
    i := Line(status, text);
  }

  lemma IntegerRead(level: nat, n: int64, s: bytes, rest: bytes) returns (i: Item)
    requires level <= 8 && s == [58] + Decimal.Text(n) + [13, 10]
    ensures ParseItem(level, s + rest) == Done(i, rest) && Meaning(i) == Integer(n)
  {
    hide ParseItem, Unbroken, Decimal.Text;
    TextIsLine(n);
    NumberText(n);
    LineRead(level, 58, Decimal.Text(n), rest);
    assert s + rest == [58] + Decimal.Text(n) + [13, 10] + rest;
    i := Number(n);
  }

  lemma TextIsLine(n: int)
    ensures Unbroken(Decimal.Text(n) + [13])
  {
    TextLine(n, []);
    CutIsFirst(Decimal.Text(n) + [13, 10] + []);
  }

  lemma MultiMeaning(items: seq<Item>)
    ensures Meaning(Multi(items)) == Array(MeaningAll(items))
  {
  }

  lemma PayloadRead(level: nat, payload: bytes, trailer: bytes, s: bytes, rest: bytes) returns (i: Item)
    requires level <= 8 && |payload| < 0x8000_0000_0000_0000 && |trailer| == 2
    requires s == [36] + Decimal.Text(|payload|) + [13, 10] + payload + trailer
    ensures ParseItem(level, s + rest) == Done(i, rest) && Meaning(i) == String(payload)
  {
    hide ParseItem, Decimal.Text;
    BulkRead(level, |payload|, payload + trailer + rest);
    assert s + rest == [36] + Decimal.Text(|payload|) + [13, 10] + (payload + trailer + rest);
    BulkParts(payload, trailer, rest);
    i := Bulk(payload, trailer);
  }

  lemma NilRead(level: nat, s: bytes, rest: bytes) returns (i: Item)
    requires level <= 8 && Says(level, Nil, s)
    ensures ParseItem(level, s + rest) == Done(i, rest) && Meaning(i) == Nil
  {
    hide ParseItem;
    MinusOne();
    NumberText(-1);
    if s[0] == 36 {
      BulkRead(level, -1, rest);
      assert s + rest == [36] + Decimal.Text(-1) + [13, 10] + rest;
      i := NilBulk;
    } else {
      MultiRead(level, -1, rest);
      assert s + rest == [42] + Decimal.Text(-1) + [13, 10] + rest;
      i := NilArray;
    }
  }

  /** The elements of an array that are said are read, and those before them stay. */
  lemma {:induction false} AllRead(level: nat, n: nat, acc: seq<Item>, rs: seq<Reply>, front: bytes, rest: bytes)
    returns (items: seq<Item>)
    requires level <= 8 && |rs| <= n && SayAll(level, rs, front)
    ensures ParseItems(level, n, acc, front + rest) == ParseItems(level, n - |rs|, acc + items, rest)
    ensures MeaningAll(items) == rs
    decreases rs
  {
    hide ParseItem, ParseItems, Says, SayAll, Meaning, MeaningAll;
    SayFirst(level, rs, front);
    if rs == [] {
      items := [];
      NoMeaning();
      assert front + rest == rest && acc + items == acc;
    } else {
      var a, b :| front == a + b && Says(level, rs[0], a) && SayAll(level, rs[1..], b);
      var i := SaidIsRead(level, rs[0], a, b + rest);
      assert front + rest == a + (b + rest);
      ParseItemsStep(level, n, acc, front + rest);
      var others := AllRead(level, n - 1, acc + [i], rs[1..], b, rest);
      items := [i] + others;
      MeaningFirst(i, others);
      assert acc + [i] + others == acc + items;
    }
  }

  lemma SayFirst(level: nat, rs: seq<Reply>, s: bytes)
    requires SayAll(level, rs, s)
    ensures if rs == [] then s == []
            else exists a, b :: s == a + b && Says(level, rs[0], a) && SayAll(level, rs[1..], b)
  {
    hide Says;
  }

  lemma NoMeaning()
    ensures MeaningAll([]) == []
  {
  }

  lemma MeaningFirst(i: Item, items: seq<Item>)
    ensures MeaningAll([i] + items) == [Meaning(i)] + MeaningAll(items)
  {
    hide Meaning;
    assert ([i] + items)[1..] == items;
  }

  // ----- What is read is said -----

  lemma {:induction false} EncodedSays(level: nat, i: Item)
    requires WellFormed(i) && level + Markers(i) <= 8
    ensures Says(level, Meaning(i), Encode(i))
    decreases i
  {
    hide Decimal.Text, SayAll, Unbroken, CutLine, MarkersAll, EncodeAll, MeaningAll;
    match i {
      case Line(_, text) => CutIsFirst(text + CRLF);
      case Number(n) =>
      case Bulk(payload, trailer) =>
        assert trailer == [trailer[0], trailer[1]];
        assert Encode(i) == [36] + Decimal.Text(|payload|) + [13, 10] + payload + [trailer[0], trailer[1]];
      case NilBulk => NilEncoded();
      case NilArray => NilEncoded();
      case Multi(items) =>
        AllEncodedSay(level + 1, items);
        assert Encode(i) == Opening(|items|) + EncodeAll(items);
    }
  }

  lemma NilEncoded()
    ensures Encode(NilBulk) == [36, 45, 49, 13, 10] && Encode(NilArray) == [42, 45, 49, 13, 10]
  {
    MinusOne();
  }

  lemma {:induction false} AllEncodedSay(level: nat, items: seq<Item>)
    requires (forall k :: 0 <= k < |items| ==> WellFormed(items[k])) && level + MarkersAll(items) <= 8
    ensures SayAll(level, MeaningAll(items), EncodeAll(items))
    decreases items
  {
    hide Says, WellFormed, Markers, Encode, Meaning;
    if items != [] {
      EncodedSays(level, items[0]);
      AllEncodedSay(level, items[1..]);
      assert MeaningAll(items)[1..] == MeaningAll(items[1..]);
    }
  }

  /** An item that is read is the reply that its bytes say. */
  lemma ReadIsSaid(level: nat, s: bytes)
    requires level <= 8 && ParseItem(level, s).Done?
    ensures var p := ParseItem(level, s); s == Encode(p.item) + p.rest && Says(level, Meaning(p.item), Encode(p.item))
  {
    hide ParseItem, Encode, Says, Meaning, WellFormed;
    ParseSound(level, s);
    EncodedSays(level, ParseItem(level, s).item);
  }

  /** A reply is read off the front of s if and only if the bytes before the rest say it. */
  lemma SaidIff(level: nat, s: bytes, r: Reply, rest: bytes)
    requires level <= 8
    ensures (exists i :: ParseItem(level, s) == Done(i, rest) && Meaning(i) == r) <==>
            (exists a :: s == a + rest && Says(level, r, a))
  {
    hide ParseItem, Encode, Says, Meaning;
    if i :| ParseItem(level, s) == Done(i, rest) && Meaning(i) == r {
      ReadIsSaid(level, s);
    }
    if a :| s == a + rest && Says(level, r, a) {
      var i := SaidIsRead(level, r, a, rest);
    }
  }

  // ----- Refusals and waits at the start of an item -----

  lemma NamedParse(line: bytes, lo: int, hi: int)
    requires -0x8000_0000_0000_0000 <= lo && hi <= 0x7fff_ffff_ffff_ffff
    ensures Names(line, lo, hi) <==> Decimal.Parse(line).Some? && lo <= Decimal.Parse(line).value <= hi
  {
    hide Decimal.Parse, Decimal.Text;
    if Names(line, lo, hi) {
      var n :| lo <= n <= hi && line == Decimal.Text(n);
      Decimal.ParseIffText(line, n);
    }
    if Decimal.Parse(line).Some? {
      Decimal.ParseIffText(line, Decimal.Parse(line).value);
    }
  }

  /** A complete first line is refused for exactly these reasons. */
  lemma LineRefused(level: nat, b: byte, line: bytes, rest: bytes, fault: Fault)
    requires b in {43, 45, 58, 36, 42}
    ensures BadLine(b, line, fault) <==>
            match b
            case 36 => ParseBulk(line, rest) == Fail(fault)
            case 42 => ParseCount(line) == Bad(fault)
            case _ => ParseLine(KindOf(b).value, line, rest) == Fail(fault)
  {
    hide Decimal.Parse, Names;
    NamedParse(line, -0x8000_0000_0000_0000, 0x7fff_ffff_ffff_ffff);
    NamedParse(line, -0x8000_0000_0000_0000, -2);
    NamedParse(line, 0x8000_0000, 0x7fff_ffff_ffff_ffff);
  }

  lemma BadStartFails(level: nat, s: bytes, fault: Fault)
    requires level <= 8 && BadStart(level, s, fault)
    ensures ParseItem(level, s) == Fail(fault)
  {
    hide BadLine, ParseBulk, ParseLine, ParseCount, ParseItems, CutLine, FirstLine;
    if s[0] in {43, 45, 58, 36, 42} && !(s[0] == 42 && level >= 8) {
      var line, rest :| FirstLine(s[1..], line, rest) && BadLine(s[0], line, fault);
      OneFirst(s[1..], line, rest);
      LineRefused(level, s[0], line, rest, fault);
    }
  }

  lemma UnbrokenCut(s: bytes)
    ensures Unbroken(s) <==> CutLine(s).NoLine?
  {
    CutIsFirst(s);
    if CutLine(s).Cut? {
      assert s[|CutLine(s).line|] == 13 && s[|CutLine(s).line| + 1] == 10;
    }
  }

  lemma ShortWaits(level: nat, s: bytes)
    requires level <= 8 && Short(level, s)
    ensures ParseItem(level, s) == More
  {
    hide CutLine, Decimal.Text, Unbroken;
    if s != [] && !(s[0] in {43, 45, 58, 36, 42} && !(s[0] == 42 && level >= 8) && Unbroken(s[1..])) {
      var n: nat, rest :|
        n < 0x8000_0000_0000_0000 && s == [36] + Decimal.Text(n) + [13, 10] + rest && |rest| < n + 2;
      BulkRead(level, n, rest);
      NumberText(n);
    } else if s != [] {
      UnbrokenCut(s[1..]);
    }
  }

  /** What the parser says at the start of an item; n is the number of elements when it opens an array. */
  lemma Starts(level: nat, s: bytes) returns (n: nat, rest: bytes)
    requires level <= 8
    ensures n == 0 ==> (ParseItem(level, s).Fail? ==> BadStart(level, s, ParseItem(level, s).fault)) &&
                       (ParseItem(level, s).More? ==> Short(level, s))
    ensures n > 0 ==> level < 8 && n < 0x8000_0000 && s == Opening(n) + rest &&
                      ParseItem(level, s) == ParseItems(level + 1, n, [], rest)
  {
    hide BadLine, ParseBulk, ParseLine, ParseCount, ParseItems, CutLine, Decimal.Text, Unbroken;
    n, rest := 0, [];
    assert s != [] && KindOf(s[0]).Some? ==> ParseItem(level, s) == ParseBody(KindOf(s[0]).value, level, s[1..]);
    if s != [] && s[0] in {43, 45, 58, 36, 42} && !(s[0] == 42 && level >= 8) {
      var c := CutLine(s[1..]);
      UnbrokenCut(s[1..]);
      if c.Cut? {
        CutIsFirst(s[1..]);
        n, rest := FirstLineStarts(level, s, c.line, c.rest);
      }
    }
  }

  lemma NoItems(level: nat, tail: bytes)
    requires level <= 8
    ensures ParseItems(level, 0, [], tail) == Done(Multi([]), tail)
  {
  }

  lemma FirstLineStarts(level: nat, s: bytes, line: bytes, tail: bytes) returns (n: nat, rest: bytes)
    requires level <= 8 && s != [] && s[0] in {43, 45, 58, 36, 42} && !(s[0] == 42 && level >= 8)
    requires FirstLine(s[1..], line, tail) && CutLine(s[1..]) == Cut(line, tail)
    ensures n == 0 ==> (ParseItem(level, s).Fail? ==> BadStart(level, s, ParseItem(level, s).fault)) &&
                       (ParseItem(level, s).More? ==> Short(level, s))
    ensures n > 0 ==> level < 8 && n < 0x8000_0000 && s == Opening(n) + rest &&
                      ParseItem(level, s) == ParseItems(level + 1, n, [], rest)
  {
    hide BadLine, ParseItem, ParseItems, CutLine, Decimal.Text, FirstLine, Decimal.Parse, ParseBulk;
    n, rest := 0, [];
    OfLine(level, s, line, tail);
    if s[0] == 42 { NoItems(level + 1, tail); }
    match ParseItem(level, s) {
      case Fail(fault) => LineRefused(level, s[0], line, tail, fault);
      case _ =>
    }
    if s[0] == 36 && ParseItem(level, s).More? {
      BulkWaits(level, s, line, tail);
    }
    if s[0] == 42 && ParseCount(line).Count? && ParseCount(line).n > 0 {
      n, rest := ParseCount(line).n, tail;
      Decimal.ParseIffText(line, n);
      HeaderSplit(s, line, tail);
    }
  }

  lemma HeaderSplit(s: bytes, line: bytes, tail: bytes)
    requires s != [] && FirstLine(s[1..], line, tail)
    ensures s == [s[0]] + line + [13, 10] + tail
  {
    assert s == [s[0]] + s[1..];
  }

  lemma BulkWaits(level: nat, s: bytes, line: bytes, tail: bytes)
    requires s != [] && s[0] == 36 && FirstLine(s[1..], line, tail) && ParseBulk(line, tail).More?
    ensures Short(level, s)
  {
    hide Decimal.Text, FirstLine, Decimal.Parse;
    Decimal.ParseIffText(line, Decimal.Parse(line).value);
    HeaderSplit(s, line, tail);
  }

  // ----- Inside arrays -----

  /** An array that is not complete, or is refused: the elements before the one that stops it. */
  lemma {:induction false} ItemsStop(level: nat, n: nat, acc: seq<Item>, s: bytes)
    returns (rs: seq<Reply>, front: bytes, tail: bytes)
    requires level <= 8 && !ParseItems(level, n, acc, s).Done?
    ensures |rs| < n && s == front + tail && SayAll(level, rs, front)
    ensures ParseItem(level, tail) == ParseItems(level, n, acc, s)
    decreases n
  {
    hide ParseItem, Says, Encode, Meaning;
    ParseItemsStep(level, n, acc, s);
    var p := ParseItem(level, s);
    if p.Done? {
      ReadIsSaid(level, s);
      rs, front, tail := ItemsStop(level, n - 1, acc + [p.item], p.rest);
      SayMore(level, Meaning(p.item), rs, Encode(p.item), front);
      rs, front := [Meaning(p.item)] + rs, Encode(p.item) + front;
    } else {
      rs, front, tail := [], [], s;
    }
  }

  lemma SayMore(level: nat, r: Reply, rs: seq<Reply>, a: bytes, b: bytes)
    requires Says(level, r, a) && SayAll(level, rs, b)
    ensures SayAll(level, [r] + rs, a + b)
  {
    hide Says;
    assert ([r] + rs)[1..] == rs;
  }

  /** What stops the parser in an element of an open array stops it. */
  lemma OpenStops(level: nat, s: bytes, n: nat, rs: seq<Reply>, front: bytes, tail: bytes)
    requires OpenAt(level, s, n, rs, front, tail) && !ParseItem(level + 1, tail).Done?
    ensures ParseItem(level, s) == ParseItem(level + 1, tail)
  {
    hide ParseItem, Decimal.Text, SayAll;
    MultiRead(level, n, front + tail);
    assert s == [42] + Decimal.Text(n) + [13, 10] + (front + tail);
    var items := AllRead(level + 1, n, [], rs, front, tail);
    ParseItemsStep(level + 1, n - |rs|, [] + items, tail);
  }

  // ----- Verdicts -----

  lemma {:induction false} RefusedFails(level: nat, s: bytes, fault: Fault)
    requires level <= 8 && Refused(level, s, fault)
    ensures ParseItem(level, s) == Fail(fault)
    decreases |s|
  {
    hide ParseItem, OpenAt, BadStart;
    if BadStart(level, s, fault) {
      BadStartFails(level, s, fault);
    } else {
      var n, rs, front, tail :|
        OpenAt(level, s, n, rs, front, tail) && |tail| < |s| && Refused(level + 1, tail, fault);
      assert level < 8 by { Below(level, s, n, rs, front, tail); }
      RefusedFails(level + 1, tail, fault);
      OpenStops(level, s, n, rs, front, tail);
    }
  }

  lemma Below(level: nat, s: bytes, n: nat, rs: seq<Reply>, front: bytes, tail: bytes)
    requires OpenAt(level, s, n, rs, front, tail)
    ensures level < 8
  {
  }

  lemma {:induction false} IncompleteWaits(level: nat, s: bytes)
    requires level <= 8 && Incomplete(level, s)
    ensures ParseItem(level, s) == More
    decreases |s|
  {
    hide ParseItem, OpenAt, Short;
    if Short(level, s) {
      ShortWaits(level, s);
    } else {
      var n, rs, front, tail :| OpenAt(level, s, n, rs, front, tail) && |tail| < |s| && Incomplete(level + 1, tail);
      assert level < 8 by { Below(level, s, n, rs, front, tail); }
      IncompleteWaits(level + 1, tail);
      OpenStops(level, s, n, rs, front, tail);
    }
  }

  lemma {:induction false} Stopped(level: nat, s: bytes)
    requires level <= 8
    ensures match ParseItem(level, s)
            case Done(_, _) => true
            case Fail(fault) => Refused(level, s, fault)
            case More => Incomplete(level, s)
    decreases |s|
  {
    hide ParseItem, ParseItems, BadStart, Short, SayAll;
    var n, rest := Starts(level, s);
    if n > 0 && !ParseItem(level, s).Done? {
      var rs, front, tail := ItemsStop(level + 1, n, [], rest);
      assert s == Opening(n) + front + tail;
      assert OpenAt(level, s, n, rs, front, tail);
      Stopped(level + 1, tail);
    }
  }

  /** A stream is refused, and for this reason, if and only if its bytes say so. */
  lemma RefusedIff(level: nat, s: bytes, fault: Fault)
    requires level <= 8
    ensures ParseItem(level, s) == Fail(fault) <==> Refused(level, s, fault)
  {
    hide ParseItem, Refused, Incomplete;
    Stopped(level, s);
    if Refused(level, s, fault) { RefusedFails(level, s, fault); }
  }

  /** It is waited for more bytes if and only if what there is of a reply is not complete and not refused. */
  lemma IncompleteIff(level: nat, s: bytes)
    requires level <= 8
    ensures ParseItem(level, s) == More <==> Incomplete(level, s)
  {
    hide ParseItem, Refused, Incomplete;
    Stopped(level, s);
    if Incomplete(level, s) { IncompleteWaits(level, s); }
  }

  // ----- Streams -----

  /** The bytes are these replies, and then tail. */
  ghost predicate Stream(s: bytes, rs: seq<Reply>, tail: bytes) {
    exists front :: s == front + tail && SayAll(0, rs, front)
  }

  lemma StreamMore(s: bytes, a: bytes, r: Reply, rs: seq<Reply>, s': bytes, tail: bytes)
    requires s == a + s' && Says(0, r, a) && Stream(s', rs, tail)
    ensures Stream(s, [r] + rs, tail)
  {
    hide Says, SayAll;
    var front :| s' == front + tail && SayAll(0, rs, front);
    SayMore(0, r, rs, a, front);
    assert s == a + front + tail;
  }

  lemma {:induction false} OutcomesSaid(s: bytes) returns (tail: bytes)
    ensures Stream(s, MeaningAll(Streams.Outcomes(s).items), tail)
    ensures match Streams.Outcomes(s).end
            case Waiting(rest) => tail == rest && Incomplete(0, tail)
            case Refused(fault) => Refused(0, tail, fault)
    decreases |s|
  {
    hide ParseItem, Says, Encode, Meaning, Refused, Incomplete;
    match ParseItem(0, s)
    case Done(i, rest) =>
      ReadIsSaid(0, s);
      tail := OutcomesSaid(rest);
      var items := Streams.Outcomes(rest).items;
      StreamMore(s, Encode(i), Meaning(i), MeaningAll(items), rest, tail);
      assert ([i] + items)[1..] == items;
    case _ =>
      tail := s;
      Stopped(0, s);
      assert s == [] + s;
  }

  lemma {:induction false} SaidOutcomes(rs: seq<Reply>, front: bytes, tail: bytes)
    requires SayAll(0, rs, front) && !ParseItem(0, tail).Done?
    ensures var o := Streams.Outcomes(front + tail);
            && MeaningAll(o.items) == rs
            && o.end == match ParseItem(0, tail)
                        case Fail(fault) => Streams.Refused(fault)
                        case _ => Streams.Waiting(tail)
    decreases rs
  {
    hide ParseItem, Says, Meaning;
    if rs == [] {
      assert front + tail == tail;
    } else {
      var a, b :| front == a + b && Says(0, rs[0], a) && SayAll(0, rs[1..], b);
      assert front + tail == a + (b + tail);
      var i := SaidIsRead(0, rs[0], a, b + tail);
      SaidOutcomes(rs[1..], b, tail);
      var items := Streams.Outcomes(b + tail).items;
      assert ([i] + items)[1..] == items;
    }
  }

  /** A reader shows these replies and a refusal if and only if the bytes say the replies and are then refused. */
  lemma StreamRefusedIff(s: bytes, rs: seq<Reply>, fault: Fault)
    ensures var o := Streams.Outcomes(s);
            MeaningAll(o.items) == rs && o.end == Streams.Refused(fault) <==>
            exists tail :: Stream(s, rs, tail) && Refused(0, tail, fault)
  {
    hide ParseItem, SayAll, Streams.Outcomes, Refused, Incomplete;
    var tail := OutcomesSaid(s);
    if exists tail :: Stream(s, rs, tail) && Refused(0, tail, fault) {
      var tail :| Stream(s, rs, tail) && Refused(0, tail, fault);
      var front :| s == front + tail && SayAll(0, rs, front);
      RefusedFails(0, tail, fault);
      SaidOutcomes(rs, front, tail);
    }
  }

  /** And it waits after them, with tail unread, if and only if the bytes say the replies and tail is incomplete. */
  lemma StreamWaitsIff(s: bytes, rs: seq<Reply>, tail: bytes)
    ensures var o := Streams.Outcomes(s);
            MeaningAll(o.items) == rs && o.end == Streams.Waiting(tail) <==>
            Stream(s, rs, tail) && Incomplete(0, tail)
  {
    hide ParseItem, SayAll, Streams.Outcomes, Refused, Incomplete;
    var rest := OutcomesSaid(s);
    if Stream(s, rs, tail) && Incomplete(0, tail) {
      var front :| s == front + tail && SayAll(0, rs, front);
      IncompleteWaits(0, tail);
      SaidOutcomes(rs, front, tail);
    }
  }
}
