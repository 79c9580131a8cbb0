/**
 The lines that `sdssplitargs` reads: words with blanks between them, a word being bytes that stand for themselves and,
 at its end, perhaps a string in double or single quotes. Stated by what is written, not by how it is read.
 */
module Grammar {
  import opened Bytes
  import opened Quoting

  // ----- What can be written -----

  /** A byte within quotes: for itself, after a backslash, or as two hexadecimal digits. */
  datatype Unit = Raw(b: byte) | Escape(c: byte) | Hex(h: byte, l: byte)

  /** Units within quotes; double says which quotes. */
  datatype Text = Text(double: bool, units: seq<Unit>)

  datatype Word = Word(plain: bytes, quoted: Option<Text>)

  /** A word and the blanks behind it. */
  datatype Spaced = Spaced(word: Word, blanks: bytes)

  predicate Blank(b: byte) {
    b == 32 || b == 9 || b == 10 || b == 11 || b == 12 || b == 13
  }

  predicate Blanks(s: bytes) {
    forall k :: 0 <= k < |s| ==> Blank(s[k])
  }

  const DIGITS: bytes := [48, 49, 50, 51, 52, 53, 54, 55, 56, 57]
  const LOWER: bytes := [97, 98, 99, 100, 101, 102]
  const UPPER: bytes := [65, 66, 67, 68, 69, 70]

  /** The digit d is written as h. */
  predicate Writes(h: byte, d: nat) {
    d < 16 && if d < 10 then h == DIGITS[d] else h == LOWER[d - 10] || h == UPPER[d - 10]
  }

  predicate HexByte(h: byte) {
    h in DIGITS || h in LOWER || h in UPPER
  }

  /** The letters that stand for a control character after a backslash. */
  const LETTERS: map<byte, byte> := map[110 := 10, 114 := 13, 116 := 9, 98 := 8, 97 := 7]

  function UnitBytes(u: Unit): bytes {
    match u
    case Raw(b) => [b]
    case Escape(c) => [92, c]
    case Hex(h, l) => [92, 120, h, l]
  }

  /** A unit in double quotes stands for b; s is what follows. */
  predicate Stands(u: Unit, b: byte, s: bytes) {
    match u
    case Raw(x) => x == b && b !in {0, 34, 92}
    case Escape(c) =>
      && c != 0 && b == (if c in LETTERS then LETTERS[c] else c)
      && !(c == 120 && |s| >= 2 && HexByte(s[0]) && HexByte(s[1]))
    case Hex(h, l) => Writes(h, b / 16) && Writes(l, b % 16)
  }

  /** The same in single quotes. */
  predicate StandsSingle(u: Unit, b: byte, s: bytes) {
    match u
    case Raw(x) => x == b && b !in {0, 39} && !(b == 92 && s != [] && s[0] == 39)
    case Escape(c) => c == 39 && b == 39
    case Hex(_, _) => false
  }

  function UnitsBytes(us: seq<Unit>): bytes {
    if us == [] then [] else UnitBytes(us[0]) + UnitsBytes(us[1..])
  }

  /** The units stand for the bytes of v; s is what follows. */
  predicate StandAll(double: bool, us: seq<Unit>, v: bytes, s: bytes) {
    if us == [] then v == []
    else
      && v != []
      && (if double then Stands(us[0], v[0], UnitsBytes(us[1..]) + s)
          else StandsSingle(us[0], v[0], UnitsBytes(us[1..]) + s))
      && StandAll(double, us[1..], v[1..], s)
  }

  function QuoteOf(double: bool): byte {
    if double then 34 else 39
  }

  /** Bytes that stand for themselves outside quotes. */
  predicate Bare(plain: bytes) {
    && (plain != [] ==> plain[0] !in {11, 12})
    && forall k :: 0 <= k < |plain| ==> plain[k] !in {0, 32, 9, 10, 13, 34, 39}
  }

  function WordBytes(w: Word): bytes {
    match w.quoted
    case None => w.plain
    case Some(t) => w.plain + [QuoteOf(t.double)] + UnitsBytes(t.units) + [QuoteOf(t.double)]
  }

  /** The word is v; s is what follows: nothing, or a blank, which cannot be part of the word. */
  predicate Means(w: Word, v: bytes, s: bytes) {
    && Bare(w.plain)
    && match w.quoted
       case None => w.plain != [] && v == w.plain && (s != [] ==> s[0] in {32, 9, 10, 13})
       case Some(t) =>
         && w.plain <= v && StandAll(t.double, t.units, v[|w.plain|..], [QuoteOf(t.double)] + s)
         && (s != [] ==> Blank(s[0]))
  }

  function LineBytes(ws: seq<Spaced>): bytes {
    if ws == [] then [] else WordBytes(ws[0].word) + ws[0].blanks + LineBytes(ws[1..])
  }

  /** The words are vs, with blanks between them; s is what follows. */
  predicate MeanAll(ws: seq<Spaced>, vs: seq<bytes>, s: bytes) {
    if ws == [] then vs == []
    else
      && vs != [] && Blanks(ws[0].blanks)
      && Means(ws[0].word, vs[0], ws[0].blanks + LineBytes(ws[1..]) + s)
      && (ws[0].blanks == [] ==> LineBytes(ws[1..]) + s == [])
      && MeanAll(ws[1..], vs[1..], s)
  }

  /** The line consists of blanks and these words. */
  ghost predicate Line(line: bytes, vs: seq<bytes>) {
    exists lead, ws :: Blanks(lead) && line == lead + LineBytes(ws) && MeanAll(ws, vs, [])
  }

  /** A word with a quote that is never closed, or closed before something other than a blank. */
  ghost predicate Broken(s: bytes) {
    exists plain, t: Text, v, rest :: BrokenAs(s, plain, t, v, rest)
  }

  predicate BrokenAs(s: bytes, plain: bytes, t: Text, v: bytes, rest: bytes) {
    && s == plain + [QuoteOf(t.double)] + UnitsBytes(t.units) + rest && Bare(plain)
    && StandAll(t.double, t.units, v, rest)
    && (rest == [] || (t.double && rest == [92]) ||
        (rest[0] == QuoteOf(t.double) && |rest| >= 2 && !Blank(rest[1])))
  }

  /** The line consists of blanks and words, and then a broken one. */
  ghost predicate BrokenLine(line: bytes) {
    exists lead, ws, vs, s ::
      Blanks(lead) && line == lead + LineBytes(ws) + s && MeanAll(ws, vs, s) && Broken(s)
  }

  // ----- Characters -----

  lemma BlankIsSpace(b: byte)
    ensures Blank(b) <==> IsSpace(b)
  {
  }

  lemma Digit(h: byte, d: nat)
    ensures Writes(h, d) <==> d < 16 && IsHexDigit(h) && HexDigitToInt(h) == d
  {
    if d < 16 {
      DigitRow(d);
    }
  }

  lemma DigitRow(d: nat)
    requires d < 16
    ensures d < 10 ==> DIGITS[d] == 48 + d
    ensures d >= 10 ==> LOWER[d - 10] == 87 + d && UPPER[d - 10] == 55 + d
  {
  }

  lemma HexIsDigit(h: byte)
    ensures HexByte(h) <==> IsHexDigit(h)
  {
    if IsHexDigit(h) {
      DigitRow(HexDigitToInt(h));
    }
  }

  lemma Letters(c: byte)
    ensures Unescape(c) == if c in LETTERS then LETTERS[c] else c
  {
  }

  // ----- What is written is read -----

  function ModeOf(double: bool): Mode {
    if double then InDouble else InSingle
  }

  lemma DoubleRead(u: Unit, b: byte, cur: bytes, s: cstring)
    requires Stands(u, b, s) && 0 !in UnitBytes(u) + s
    ensures Read(InDouble, cur, UnitBytes(u) + s) == Read(InDouble, cur + [b], s)
  {
    hide Read, Unescape, IsHexDigit, HexByte, Writes;
    var line: cstring := UnitBytes(u) + s;
    ReadTurn(InDouble, cur, line);
    assert line[|UnitBytes(u)|..] == s;
    match u {
      case Raw(_) =>
        assert line[0] == b;
      case Escape(c) =>
        assert line[0] == 92 && line[1] == c && line[2..] == s;
        Letters(c);
        if |s| >= 2 {
          assert line[2] == s[0] && line[3] == s[1];
          HexIsDigit(s[0]);
          HexIsDigit(s[1]);
        }
      case Hex(h, l) =>
        assert line[0] == 92 && line[1] == 120 && line[2] == h && line[3] == l;
        Digit(h, b / 16);
        Digit(l, b % 16);
    }
  }

  lemma SingleRead(u: Unit, b: byte, cur: bytes, s: cstring)
    requires StandsSingle(u, b, s) && 0 !in UnitBytes(u) + s
    ensures Read(InSingle, cur, UnitBytes(u) + s) == Read(InSingle, cur + [b], s)
  {
    hide Read;
    var line: cstring := UnitBytes(u) + s;
    ReadTurn(InSingle, cur, line);
    assert line[|UnitBytes(u)|..] == s;
    if s != [] { assert line[|UnitBytes(u)|] == s[0]; }
  }

  lemma {:induction false} UnitsRead(double: bool, us: seq<Unit>, v: bytes, cur: bytes, s: cstring)
    requires StandAll(double, us, v, s) && 0 !in UnitsBytes(us) + s
    ensures Read(ModeOf(double), cur, UnitsBytes(us) + s) == Read(ModeOf(double), cur + v, s)
    decreases |us|
  {
    hide Read, Stands, StandsSingle, UnitBytes;
    if us == [] {
      assert UnitsBytes(us) + s == s && cur + v == cur;
    } else {
      var tail := UnitsBytes(us[1..]) + s;
      assert UnitsBytes(us) + s == UnitBytes(us[0]) + tail;
      if double {
        DoubleRead(us[0], v[0], cur, tail);
      } else {
        SingleRead(us[0], v[0], cur, tail);
      }
      UnitsRead(double, us[1..], v[1..], cur + [v[0]], s);
      assert cur + [v[0]] + v[1..] == cur + v;
    }
  }

  lemma {:induction false} BareRead(plain: bytes, cur: bytes, s: cstring)
    requires 0 !in plain + s && forall k :: 0 <= k < |plain| ==> plain[k] !in {0, 32, 9, 10, 13, 34, 39}
    ensures Read(Plain, cur, plain + s) == Read(Plain, cur + plain, s)
    decreases |plain|
  {
    hide Read;
    if plain == [] {
      assert plain + s == s && cur + plain == cur;
    } else {
      var line: cstring := plain + s;
      ReadTurn(Plain, cur, line);
      assert line[0] == plain[0] && line[1..] == plain[1..] + s;
      BareRead(plain[1..], cur + [plain[0]], s);
      assert cur + [plain[0]] + plain[1..] == cur + plain;
    }
  }

  /** A quoted string is read, and its closing quote ends the word. */
  lemma TextRead(t: Text, v: bytes, cur: bytes, s: cstring)
    requires StandAll(t.double, t.units, v, [QuoteOf(t.double)] + s) && (s != [] ==> Blank(s[0]))
    requires 0 !in UnitsBytes(t.units) + [QuoteOf(t.double)] + s
    ensures Read(ModeOf(t.double), cur, UnitsBytes(t.units) + [QuoteOf(t.double)] + s) == Token(cur + v, s)
  {
    hide Read, StandAll, UnitsBytes, Blank;
    var tail: cstring := [QuoteOf(t.double)] + s;
    assert UnitsBytes(t.units) + [QuoteOf(t.double)] + s == UnitsBytes(t.units) + tail;
    UnitsRead(t.double, t.units, v, cur, tail);
    CloseRead(t.double, cur + v, s);
  }

  /** A closing quote. */
  lemma CloseRead(double: bool, cur: bytes, s: cstring)
    requires s != [] ==> Blank(s[0])
    ensures Read(ModeOf(double), cur, [QuoteOf(double)] + s) == Token(cur, s)
  {
    hide Read;
    var tail: cstring := [QuoteOf(double)] + s;
    ReadTurn(ModeOf(double), cur, tail);
    assert tail[1..] == s;
    if s != [] { assert tail[1] == s[0]; }
  }

  /** An opening quote. */
  lemma QuoteRead(double: bool, cur: bytes, s: cstring)
    ensures Read(Plain, cur, [QuoteOf(double)] + s) == Read(ModeOf(double), cur, s)
  {
    hide Read;
    var line: cstring := [QuoteOf(double)] + s;
    ReadTurn(Plain, cur, line);
    assert line[1..] == s;
  }

  lemma PlainWordRead(plain: bytes, s: cstring)
    requires Bare(plain) && 0 !in plain + s && (s != [] ==> s[0] in {32, 9, 10, 13})
    ensures Read(Plain, [], plain + s) == Token(plain, if s != [] then s[1..] else s)
  {
    hide Read;
    BareRead(plain, [], s);
    assert [] + plain == plain;
    ReadTurn(Plain, plain, s);
  }

  lemma QuotedWordRead(plain: bytes, t: Text, v: bytes, s: cstring)
    requires Bare(plain) && StandAll(t.double, t.units, v, [QuoteOf(t.double)] + s) && (s != [] ==> Blank(s[0]))
    requires 0 !in UnitsBytes(t.units) + [QuoteOf(t.double)] + s
    ensures var q := QuoteOf(t.double);
            Read(Plain, [], plain + [q] + UnitsBytes(t.units) + [q] + s) == Token(plain + v, s)
  {
    hide Read, StandAll, UnitsBytes;
    var q := QuoteOf(t.double);
    var body: cstring := UnitsBytes(t.units) + [q] + s;
    assert plain + [q] + UnitsBytes(t.units) + [q] + s == plain + ([q] + body);
    BareRead(plain, [], [q] + body);
    assert [] + plain == plain;
    QuoteRead(t.double, plain, body);
    TextRead(t, v, plain, s);
  }

  /** A word is read; if it is not quoted, a blank behind it is consumed. */
  lemma WordRead(w: Word, v: bytes, s: cstring)
    requires Means(w, v, s) && 0 !in WordBytes(w) + s
    ensures Read(Plain, [], WordBytes(w) + s) == Token(v, if w.quoted.None? && s != [] then s[1..] else s)
  {
    hide Read, StandAll, UnitsBytes, Bare;
    match w.quoted {
      case None =>
        PlainWordRead(w.plain, s);
      case Some(t) =>
        var u, q := UnitsBytes(t.units), QuoteOf(t.double);
        NoNul(w.plain + [q], u + [q] + s);
        assert WordBytes(w) + s == w.plain + [q] + (u + [q] + s);
        QuotedWordRead(w.plain, t, v[|w.plain|..], s);
        assert w.plain + v[|w.plain|..] == v;
        assert WordBytes(w) + s == w.plain + [q] + u + [q] + s;
    }
  }

  lemma NoNul(a: bytes, b: bytes)
    ensures 0 in b ==> 0 in a + b
  {
  }

  /** A broken word is refused. */
  lemma BrokenRead(s: cstring, plain: bytes, t: Text, v: bytes, rest: bytes)
    requires BrokenAs(s, plain, t, v, rest)
    ensures Read(Plain, [], s) == Bad
  {
    hide Read, StandAll;
    var body: cstring := UnitsBytes(t.units) + rest;
    var tail: cstring := [QuoteOf(t.double)] + body;
    assert s == plain + tail;
    BareRead(plain, [], tail);
    QuoteRead(t.double, [] + plain, body);
    UnitsRead(t.double, t.units, v, [] + plain, rest);
    Unclosed(t.double, [] + plain + v, rest);
  }

  lemma Unclosed(double: bool, cur: bytes, rest: cstring)
    requires rest == [] || (double && rest == [92]) || (rest[0] == QuoteOf(double) && |rest| >= 2 && !Blank(rest[1]))
    ensures Read(ModeOf(double), cur, rest) == Bad
  {
    if double && rest == [92] {
      assert rest[1..] == [];
    }
  }

  // ----- Lines -----

  lemma {:induction false} BlanksSkipped(blanks: bytes, s: cstring)
    requires Blanks(blanks) && 0 !in blanks + s
    ensures SkipBlanks(blanks + s) == SkipBlanks(s)
    decreases |blanks|
  {
    if blanks == [] {
      assert blanks + s == s;
    } else {
      var line: cstring := blanks + s;
      assert line[0] == blanks[0] && line[1..] == blanks[1..] + s;
      BlanksSkipped(blanks[1..], s);
    }
  }

  lemma SplitSkips(line: cstring, line': cstring)
    requires SkipBlanks(line) == SkipBlanks(line')
    ensures SplitArgs(line) == SplitArgs(line')
  {
    hide SkipBlanks, Read;
  }

  lemma BlanksSplit(blanks: bytes, s: cstring)
    requires Blanks(blanks) && 0 !in blanks + s
    ensures SplitArgs(blanks + s) == SplitArgs(s)
  {
    hide SplitArgs;
    BlanksSkipped(blanks, s);
    SplitSkips(blanks + s, s);
  }

  /** A word starts with a byte that is no blank. */
  lemma WordStarts(w: Word, v: bytes, s: bytes)
    requires Means(w, v, s)
    ensures WordBytes(w) != [] && !Blank(WordBytes(w)[0])
  {
    hide StandAll;
  }

  lemma SplitWord(w: Word, v: bytes, blanks: bytes, s: cstring)
    requires Means(w, v, blanks + s) && Blanks(blanks) && 0 !in WordBytes(w) + (blanks + s)
    ensures SplitArgs(WordBytes(w) + (blanks + s)) ==
            if SplitArgs(s).None? then None else Some([v] + SplitArgs(s).value)
  {
    hide Read, SplitArgs, StandAll;
    var line: cstring := WordBytes(w) + (blanks + s);
    WordRead(w, v, blanks + s);
    WordStarts(w, v, blanks + s);
    assert line[0] == WordBytes(w)[0];
    BlankIsSpace(line[0]);
    SplitFirst(line);
    BlanksSplit(blanks, s);
    if w.quoted.None? && blanks != [] {
      assert (blanks + s)[1..] == blanks[1..] + s;
      BlanksSplit(blanks[1..], s);
    } else if w.quoted.None? && s != [] {
      assert (blanks + s) == s && s[0] in {32, 9, 10, 13};
      assert s == [s[0]] + s[1..];
      BlanksSplit([s[0]], s[1..]);
    }
  }

  lemma {:induction false} LineSplit(ws: seq<Spaced>, vs: seq<bytes>, s: cstring)
    requires MeanAll(ws, vs, s) && 0 !in LineBytes(ws) + s && (s == [] || Broken(s))
    ensures SplitArgs(LineBytes(ws) + s) == if s == [] then Some(vs) else None
    decreases |ws|
  {
    hide SplitArgs, Means, WordBytes, Blanks, Broken;
    if ws == [] {
      assert LineBytes(ws) + s == s;
      if s == [] { SplitNothing(); } else { BrokenSplit(s); }
    } else {
      NoNul(WordBytes(ws[0].word) + ws[0].blanks, LineBytes(ws[1..]) + s);
      assert LineBytes(ws) + s == WordBytes(ws[0].word) + ws[0].blanks + (LineBytes(ws[1..]) + s);
      var tail: cstring := LineBytes(ws[1..]) + s;
      assert LineBytes(ws) + s == WordBytes(ws[0].word) + (ws[0].blanks + tail);
      assert ws[0].blanks + LineBytes(ws[1..]) + s == ws[0].blanks + tail;
      SplitWord(ws[0].word, vs[0], ws[0].blanks, tail);
      LineSplit(ws[1..], vs[1..], s);
      assert [vs[0]] + vs[1..] == vs;
    }
  }

  lemma BrokenSplit(s: cstring)
    requires Broken(s)
    ensures SplitArgs(s) == None
  {
    hide Read;
    var plain, t: Text, v, rest :| BrokenAs(s, plain, t, v, rest);
    BrokenRead(s, plain, t, v, rest);
    assert s[0] == if plain == [] then QuoteOf(t.double) else plain[0];
    BlankIsSpace(s[0]);
    assert SkipBlanks(s) == s;
  }

  // ----- Every line is one or the other -----

  /** Where units end: the closing quote, or the end of the line, perhaps after a last backslash. */
  predicate Stops(double: bool, rest: bytes) {
    rest == [] || (double && rest == [92]) || rest[0] == QuoteOf(double)
  }

  lemma HexUnit(h: byte, l: byte) returns (b: byte)
    requires IsHexDigit(h) && IsHexDigit(l)
    ensures forall s :: Stands(Hex(h, l), b, s)
  {
    var x, y := HexDigitToInt(h), HexDigitToInt(l);
    b := 16 * x + y;
    assert b / 16 == x && b % 16 == y;
    Digit(h, x);
    Digit(l, y);
  }

  /** The first unit of a text that does not stop here. */
  lemma FirstUnit(double: bool, s: cstring) returns (u: Unit, b: byte, tail: cstring)
    requires !Stops(double, s)
    ensures s == UnitBytes(u) + tail && |tail| < |s|
    ensures if double then Stands(u, b, tail) else StandsSingle(u, b, tail)
  {
    hide IsHexDigit, HexByte;
    if double && s[0] == 92 && HexEscape(s) {
      b := HexUnit(s[2], s[3]);
      u, tail := Hex(s[2], s[3]), s[4..];
    } else if double && s[0] == 92 {
      u, b, tail := Escape(s[1]), Unescape(s[1]), s[2..];
      Letters(s[1]);
      if |tail| >= 2 {
        HexIsDigit(tail[0]);
        HexIsDigit(tail[1]);
      }
    } else if !double && s[0] == 92 && |s| >= 2 && s[1] == 39 {
      u, b, tail := Escape(39), 39, s[2..];
    } else {
      u, b, tail := Raw(s[0]), s[0], s[1..];
    }
  }

  lemma {:induction false} UnitsOf(double: bool, s: cstring) returns (us: seq<Unit>, v: bytes, rest: bytes)
    ensures s == UnitsBytes(us) + rest && StandAll(double, us, v, rest) && Stops(double, rest)
    decreases |s|
  {
    hide Stands, StandsSingle, UnitBytes, Stops;
    if Stops(double, s) {
      us, v, rest := [], [], s;
    } else {
      var u, b, tail := FirstUnit(double, s);
      us, v, rest := UnitsOf(double, tail);
      assert UnitBytes(u) + (UnitsBytes(us) + rest) == UnitBytes(u) + UnitsBytes(us) + rest;
      var us', v' := [u] + us, [b] + v;
      assert us'[1..] == us && v'[1..] == v;
      us, v := us', v';
    }
  }

  lemma {:induction false} PlainOf(s: cstring) returns (plain: bytes, rest: bytes)
    ensures s == plain + rest && (rest != [] ==> rest[0] in {32, 9, 10, 13, 34, 39})
    ensures forall k :: 0 <= k < |plain| ==> plain[k] !in {0, 32, 9, 10, 13, 34, 39}
    decreases |s|
  {
    if s == [] || s[0] in {32, 9, 10, 13, 34, 39} {
      plain, rest := [], s;
    } else {
      plain, rest := PlainOf(s[1..]);
      plain := [s[0]] + plain;
    }
  }

  /** A word that ends with a quoted string, or is broken. */
  lemma QuotedOf(s: cstring, plain: bytes, double: bool, r: cstring) returns (w: Word, v: bytes, rest: bytes)
    requires s == plain + [QuoteOf(double)] + r && Bare(plain)
    ensures Broken(s) || (s == WordBytes(w) + rest && Means(w, v, rest))
  {
    hide StandAll, UnitsBytes, Bare;
    var q := QuoteOf(double);
    var us, text, after := UnitsOf(double, r);
    var t := Text(double, us);
    assert s == plain + [q] + UnitsBytes(us) + after;
    w, v, rest := Word(plain, Some(t)), plain + text, [];
    if after == [] || after == [92] || (|after| >= 2 && !Blank(after[1])) {
      assert BrokenAs(s, plain, t, text, after);
    } else {
      rest := after[1..];
      assert after == [q] + rest;
      assert v[|plain|..] == text;
    }
  }

  lemma WordOf(s: cstring) returns (w: Word, v: bytes, rest: bytes)
    requires s != [] && !Blank(s[0])
    ensures Broken(s) || (s == WordBytes(w) + rest && Means(w, v, rest))
  {
    hide StandAll, UnitsBytes, Broken;
    var plain, r := PlainOf(s);
    assert plain != [] ==> s[0] == plain[0];
    if r != [] && r[0] in {34, 39} {
      assert s == plain + [r[0]] + r[1..];
      w, v, rest := QuotedOf(s, plain, r[0] == 34, r[1..]);
    } else {
      w, v, rest := Word(plain, None), plain, r;
      assert r == [] ==> s == plain;
    }
  }

  lemma {:induction false} BlanksOf(s: cstring) returns (blanks: bytes, rest: cstring)
    ensures s == blanks + rest && Blanks(blanks) && (rest != [] ==> !Blank(rest[0]))
    decreases |s|
  {
    if s == [] || !Blank(s[0]) {
      blanks, rest := [], s;
    } else {
      blanks, rest := BlanksOf(s[1..]);
      blanks := [s[0]] + blanks;
    }
  }

  lemma {:induction false} LineOf(s: cstring) returns (ws: seq<Spaced>, vs: seq<bytes>, tail: cstring)
    requires s != [] ==> !Blank(s[0])
    ensures s == LineBytes(ws) + tail && MeanAll(ws, vs, tail) && (tail == [] || Broken(tail))
    decreases |s|
  {
    hide Means, WordBytes, Blanks, Broken;
    ws, vs, tail := [], [], s;
    if s != [] && !Broken(s) {
      var w, v, rest := WordOf(s);
      var blanks, s' := BlanksOf(rest);
      WordStarts(w, v, rest);
      ws, vs, tail := LineOf(s');
      WordEnds(w, v, rest, blanks, s');
      var ws', vs' := [Spaced(w, blanks)] + ws, [v] + vs;
      assert ws'[1..] == ws && vs'[1..] == vs;
      assert blanks + LineBytes(ws) + tail == rest;
      assert s == WordBytes(w) + blanks + LineBytes(ws) + tail;
      ws, vs := ws', vs';
    }
  }

  lemma WordEnds(w: Word, v: bytes, s: bytes, blanks: bytes, rest: bytes)
    requires Means(w, v, s) && s == blanks + rest && (rest != [] ==> !Blank(rest[0]))
    ensures blanks == [] ==> rest == []
  {
    hide StandAll;
    if blanks == [] { assert s == rest; }
  }

  // ----- What `sdssplitargs` returns -----

  lemma LineIsSplit(line: cstring, vs: seq<bytes>)
    requires Line(line, vs)
    ensures SplitArgs(line) == Some(vs)
  {
    hide SplitArgs, MeanAll, LineBytes;
    var lead, ws :| Blanks(lead) && line == lead + LineBytes(ws) && MeanAll(ws, vs, []);
    var s: cstring := LineBytes(ws);
    BlanksSplit(lead, s);
    assert LineBytes(ws) + [] == s;
    LineSplit(ws, vs, []);
  }

  lemma BrokenIsRefused(line: cstring)
    requires BrokenLine(line)
    ensures SplitArgs(line) == None
  {
    hide SplitArgs, MeanAll, LineBytes, Broken;
    var lead, ws, vs, s :| Blanks(lead) && line == lead + LineBytes(ws) + s && MeanAll(ws, vs, s) && Broken(s);
    assert line == lead + (LineBytes(ws) + s);
    BlanksSplit(lead, LineBytes(ws) + s);
    LineSplit(ws, vs, s);
    assert s != [] by { BrokenStarts(s); }
  }

  lemma BrokenStarts(s: bytes)
    requires Broken(s)
    ensures s != []
  {
  }

  lemma Either(line: cstring) returns (vs: seq<bytes>)
    ensures Line(line, vs) || BrokenLine(line)
  {
    hide MeanAll, LineBytes, Broken;
    var lead, s := BlanksOf(line);
    var ws, words, tail := LineOf(s);
    vs := words;
    assert line == lead + LineBytes(ws) + tail;
    if tail == [] {
      assert line == lead + LineBytes(ws);
    }
  }

  /** A line is split into these arguments if and only if it consists of words that mean them. */
  lemma SplitIff(line: cstring, vs: seq<bytes>)
    ensures SplitArgs(line) == Some(vs) <==> Line(line, vs)
  {
    hide SplitArgs, Line, BrokenLine;
    var words := Either(line);
    if Line(line, vs) { LineIsSplit(line, vs); }
    if Line(line, words) { LineIsSplit(line, words); } else { BrokenIsRefused(line); }
  }

  /** And it is refused if and only if, after such words, a quote is not closed, or closed before a byte of a word. */
  lemma RefusedIff(line: cstring)
    ensures SplitArgs(line) == None <==> BrokenLine(line)
  {
    hide SplitArgs, Line, BrokenLine;
    var words := Either(line);
    if BrokenLine(line) { BrokenIsRefused(line); } else { LineIsSplit(line, words); }
  }

  // ----- Three ways to write a byte string -----

  datatype Style = Plainly | Singly | Doubly

  datatype Argument = Argument(style: Style, value: bytes)

  /** A backslash before every single quote. */
  function Guarded(v: bytes): bytes {
    if v == [] then [] else (if v[0] == 39 then [92, 39] else [v[0]]) + Guarded(v[1..])
  }

  function Written(a: Argument): bytes {
    match a.style
    case Plainly => a.value
    case Singly => [39] + Guarded(a.value) + [39]
    case Doubly => Quoted(a.value)
  }

  /** Without quotes: no blank, quote or NUL. In single quotes: no NUL, and no backslash at the end. */
  predicate Fits(a: Argument) {
    match a.style
    case Plainly => a.value != [] && forall k :: 0 <= k < |a.value| ==> !Blank(a.value[k]) && a.value[k] !in {0, 34, 39}
    case Singly => 0 !in a.value && (a.value != [] ==> a.value[|a.value| - 1] != 92)
    case Doubly => true
  }

  /** The arguments with single spaces between them. */
  function Joined(args: seq<Argument>): bytes {
    if args == [] then []
    else if |args| == 1 then Written(args[0])
    else Written(args[0]) + [32] + Joined(args[1..])
  }

  function Values(args: seq<Argument>): (vs: seq<bytes>)
    ensures |vs| == |args| && forall k :: 0 <= k < |args| ==> vs[k] == args[k].value
  {
    seq(|args|, k requires 0 <= k < |args| => args[k].value)
  }

  lemma {:induction false} SingleUnits(v: bytes, s: bytes) returns (us: seq<Unit>)
    requires 0 !in v && (v != [] ==> v[|v| - 1] != 92)
    ensures UnitsBytes(us) == Guarded(v) && StandAll(false, us, v, [39] + s)
  {
    if v == [] {
      us := [];
    } else {
      var others := SingleUnits(v[1..], s);
      us := [if v[0] == 39 then Escape(39) else Raw(v[0])] + others;
      assert us[1..] == others;
      var tail := UnitsBytes(others) + ([39] + s);
      if |v| > 1 { assert tail[0] == Guarded(v[1..])[0] != 39; }
    }
  }

  /** Each byte as `sdscatrepr` writes it: a table of all bytes. */
  lemma EscapedTable(b: byte)
    ensures Escaped(b) ==
            if b == 34 || b == 92 then [92, b]
            else if b == 10 then [92, 110]
            else if b == 13 then [92, 114]
            else if b == 9 then [92, 116]
            else if b == 7 then [92, 97]
            else if b == 8 then [92, 98]
            else if 32 <= b < 127 then [b]
            else [92, 120, (DIGITS + LOWER)[b / 16], (DIGITS + LOWER)[b % 16]]
  {
    DigitRow(b / 16);
    DigitRow(b % 16);
  }

  lemma EscapedUnit(b: byte) returns (u: Unit)
    ensures UnitBytes(u) == Escaped(b) && forall s :: Stands(u, b, s)
  {
    hide HexByte;
    if IsPrint(b) && b != 34 && b != 92 {
      u := Raw(b);
    } else if b == 92 || b == 34 || EscapeLetter(b).Some? {
      u := Escape(Escaped(b)[1]);
    } else {
      u := Hex(HexDigit(b / 16), HexDigit(b % 16));
      Digit(HexDigit(b / 16), b / 16);
      Digit(HexDigit(b % 16), b % 16);
    }
  }

  lemma {:induction false} DoubleUnits(v: bytes, s: bytes) returns (us: seq<Unit>)
    ensures UnitsBytes(us) == EscapedAll(v) && StandAll(true, us, v, s)
  {
    hide Stands, StandsSingle, UnitBytes, Escaped;
    if v == [] {
      us := [];
    } else {
      var others := DoubleUnits(v[1..], s);
      var u := EscapedUnit(v[0]);
      us := [u] + others;
      assert us[1..] == others;
    }
  }

  lemma WordFor(a: Argument, s: bytes) returns (w: Word)
    requires Fits(a) && (s != [] ==> s[0] == 32)
    ensures WordBytes(w) == Written(a) && Means(w, a.value, s)
  {
    hide StandAll, UnitsBytes, Guarded, EscapedAll;
    match a.style {
      case Plainly =>
        w := Word(a.value, None);
      case Singly =>
        var us := SingleUnits(a.value, s);
        w := Word([], Some(Text(false, us)));
      case Doubly =>
        var us := DoubleUnits(a.value, [34] + s);
        w := Word([], Some(Text(true, us)));
        assert [] + [34] == [34];
    }
    assert a.value[0..] == a.value;
  }

  lemma {:induction false} JoinedLine(args: seq<Argument>) returns (ws: seq<Spaced>)
    requires forall k :: 0 <= k < |args| ==> Fits(args[k])
    ensures LineBytes(ws) == Joined(args) && MeanAll(ws, Values(args), [])
  {
    hide Means, WordBytes, Written, Fits;
    if args == [] {
      ws := [];
    } else {
      var others := JoinedLine(args[1..]);
      var blanks := if |args| == 1 then [] else [32];
      var w := WordFor(args[0], blanks + LineBytes(others) + []);
      ws := [Spaced(w, blanks)] + others;
      assert ws[1..] == others && Values(args)[1..] == Values(args[1..]);
      if |args| == 1 {
        assert args[1..] == [];
        assert LineBytes(others) == [];
        assert WordBytes(w) + blanks + LineBytes(others) == Written(args[0]);
      }
    }
  }

  lemma {:induction false} NoNulJoined(args: seq<Argument>)
    requires forall k :: 0 <= k < |args| ==> Fits(args[k])
    ensures 0 !in Joined(args)
  {
    if args != [] {
      NoNulJoined(args[1..]);
      NoNulWritten(args[0]);
    }
  }

  lemma NoNulWritten(a: Argument)
    requires Fits(a)
    ensures 0 !in Written(a)
  {
    GuardedNul(a.value);
  }

  lemma {:induction false} GuardedNul(v: bytes)
    ensures 0 in Guarded(v) ==> 0 in v
  {
    if v != [] { GuardedNul(v[1..]); }
  }

  /**
   Byte strings written on a line, each in any of the three ways that fits it, come back. So words without blanks and
   quotes need no quotes, any string without NUL that does not end with a backslash can stand in single quotes, and
   every string in double quotes.
   */
  lemma ArgumentsSplit(args: seq<Argument>)
    requires forall k :: 0 <= k < |args| ==> Fits(args[k])
    ensures 0 !in Joined(args) && SplitArgs(Joined(args)) == Some(Values(args))
  {
    hide SplitArgs, Fits, Joined, MeanAll, LineBytes;
    var ws := JoinedLine(args);
    NoNulJoined(args);
    var none: bytes := [];
    assert Blanks(none) && Joined(args) == none + LineBytes(ws);
    assert Line(Joined(args), Values(args));
    LineIsSplit(Joined(args), Values(args));
  }
}
