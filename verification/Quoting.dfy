/** `sdscatrepr` and `sdssplitargs` of sds.c: quoting byte strings and reading quoted lines. */
module Quoting {
  import opened Bytes

  const LETTER_X: byte := 120

  /** `isprint` and `isspace` in the C locale. */
  predicate IsPrint(b: byte) {
    32 <= b <= 126
  }

  predicate IsSpace(b: byte) {
    b == SPACE || 9 <= b <= 13
  }

  predicate IsHexDigit(b: byte) {
    48 <= b <= 57 || 97 <= b <= 102 || 65 <= b <= 70
  }

  function HexDigitToInt(b: byte): (v: nat)
    ensures v < 16
  {
    if 48 <= b <= 57 then b - 48
    else if 97 <= b <= 102 then b - 97 + 10
    else if 65 <= b <= 70 then b - 65 + 10
    else 0
  }

  /** A digit of "%02x". */
  function HexDigit(v: nat): (b: byte)
    requires v < 16
    ensures IsHexDigit(b) && HexDigitToInt(b) == v
  {
    if v < 10 then 48 + v else 97 + v - 10
  }

  /** The letter after the backslash for \\n, \\r, \\t, \\a and \\b. */
  function EscapeLetter(b: byte): Option<byte> {
    if b == 10 then Some(110)
    else if b == 13 then Some(114)
    else if b == 9 then Some(116)
    else if b == 7 then Some(97)
    else if b == 8 then Some(98)
    else None
  }

  function Unescape(b: byte): byte {
    if b == 110 then 10
    else if b == 114 then 13
    else if b == 116 then 9
    else if b == 98 then 8
    else if b == 97 then 7
    else b
  }

  // ----- Quoting -----

  function Escaped(b: byte): cstring {
    if b == BACKSLASH || b == DQUOTE then [BACKSLASH, b]
    else if EscapeLetter(b).Some? then [BACKSLASH, EscapeLetter(b).value]
    else if IsPrint(b) then [b]
    else [BACKSLASH, LETTER_X, HexDigit(b / 16), HexDigit(b % 16)]
  }

  function EscapedAll(s: bytes): cstring {
    if s == [] then [] else Escaped(s[0]) + EscapedAll(s[1..])
  }

  function Quoted(s: bytes): cstring {
    [DQUOTE] + EscapedAll(s) + [DQUOTE]
  }

  method SdsCatRepr(s: bytes, p: bytes) returns (r: bytes)
    ensures r == s + Quoted(p)
  {
    hide EscapedAll, Escaped;
    r := s + [DQUOTE];
    var k := 0;
    assert p[0..] == p && r + EscapedAll(p) + [DQUOTE] == s + Quoted(p);
    while k < |p|
      invariant 0 <= k <= |p|
      invariant r + EscapedAll(p[k..]) + [DQUOTE] == s + Quoted(p)
    {
      assert p[k..][1..] == p[k + 1..];
      EscapedStep(r, p[k..]);
      r := CatEscaped(r, p[k]);
      k := k + 1;
    }
    assert p[k..] == [];
    NothingEscaped();
    assert r + [] + [DQUOTE] == r + [DQUOTE];
    r := r + [DQUOTE];
  }

  lemma NothingEscaped()
    ensures EscapedAll([]) == []
  {
  }

  lemma EscapedStep(r: bytes, s: bytes)
    requires s != []
    ensures r + EscapedAll(s) + [DQUOTE] == r + Escaped(s[0]) + EscapedAll(s[1..]) + [DQUOTE]
  {
    assert r + (Escaped(s[0]) + EscapedAll(s[1..])) == r + Escaped(s[0]) + EscapedAll(s[1..]);
  }

  /** The switch of `sdscatrepr`. */
  method CatEscaped(s: bytes, b: byte) returns (r: bytes)
    ensures r == s + Escaped(b)
  {
    if b == BACKSLASH || b == DQUOTE {
      r := s + [BACKSLASH, b];
    } else if b == 10 {
      r := s + [BACKSLASH, 110];
    } else if b == 13 {
      r := s + [BACKSLASH, 114];
    } else if b == 9 {
      r := s + [BACKSLASH, 116];
    } else if b == 7 {
      r := s + [BACKSLASH, 97];
    } else if b == 8 {
      r := s + [BACKSLASH, 98];
    } else if IsPrint(b) {
      r := s + [b];
    } else {
      r := s + [BACKSLASH, LETTER_X, HexDigit(b / 16), HexDigit(b % 16)];
    }
  }

  // ----- Reading a line of arguments -----

  datatype Mode = Plain | InDouble | InSingle

  datatype Token = Bad | Token(value: bytes, rest: cstring)

  function SkipBlanks(line: cstring): (r: cstring)
    ensures |r| <= |line| && r == line[|line| - |r|..]
  {
    if line != [] && IsSpace(line[0]) then SkipBlanks(line[1..]) else line
  }

  /** One turn of the token loop: fail, end the token, or go on; `used` bytes of the line are consumed. */
  datatype Turn = Fault | End(used: nat) | Go(mode: Mode, cur: bytes, used: nat)

  function DoubleTurn(cur: bytes, line: cstring): (t: Turn)
    ensures !t.Fault? ==> 0 < t.used <= |line|
  {
    if line == [] then Fault
    else if HexEscape(line) then Go(InDouble, cur + [16 * HexDigitToInt(line[2]) + HexDigitToInt(line[3])], 4)
    else if line[0] == BACKSLASH && |line| > 1 then Go(InDouble, cur + [Unescape(line[1])], 2)
    else if line[0] == DQUOTE then (if Closed(line) then End(1) else Fault)
    else Go(InDouble, cur + [line[0]], 1)
  }

  function SingleTurn(cur: bytes, line: cstring): (t: Turn)
    ensures !t.Fault? ==> 0 < t.used <= |line|
  {
    if line == [] then Fault
    else if line[0] == BACKSLASH && |line| > 1 && line[1] == SQUOTE then Go(InSingle, cur + [SQUOTE], 2)
    else if line[0] == SQUOTE then (if Closed(line) then End(1) else Fault)
    else Go(InSingle, cur + [line[0]], 1)
  }

  function PlainTurn(cur: bytes, line: cstring): (t: Turn)
    ensures !t.Fault? && t.used <= |line| && (line != [] ==> t.used == 1) && (line == [] ==> t.End?)
  {
    if line == [] then End(0)
    else if line[0] in {SPACE, 10, 13, 9} then End(1)
    else if line[0] == DQUOTE then Go(InDouble, cur, 1)
    else if line[0] == SQUOTE then Go(InSingle, cur, 1)
    else Go(Plain, cur + [line[0]], 1)
  }

  function TurnOf(mode: Mode, cur: bytes, line: cstring): (t: Turn)
    ensures !t.Fault? ==> t.used <= |line| && (line != [] ==> t.used > 0)
    ensures t.Go? ==> t.used > 0
  {
    match mode
    case Plain => PlainTurn(cur, line)
    case InDouble => DoubleTurn(cur, line)
    case InSingle => SingleTurn(cur, line)
  }

  /** The rest of a token, after the bytes in cur. */
  function Read(mode: Mode, cur: bytes, line: cstring): (t: Token)
    ensures t.Token? && line != [] ==> |t.rest| < |line|
    ensures t.Token? && line == [] ==> t.rest == []
    decreases |line|
  {
    match TurnOf(mode, cur, line)
    case Fault => Bad
    case End(used) => Token(cur, line[used..])
    case Go(mode', cur', used) => Read(mode', cur', line[used..])
  }

  lemma ReadTurn(mode: Mode, cur: bytes, line: cstring)
    ensures Read(mode, cur, line) ==
            match TurnOf(mode, cur, line)
            case Fault => Bad
            case End(used) => Token(cur, line[used..])
            case Go(mode', cur', used) => Read(mode', cur', line[used..])
  {
    hide TurnOf;
  }

  predicate HexEscape(line: cstring) {
    |line| >= 4 && line[0] == BACKSLASH && line[1] == LETTER_X && IsHexDigit(line[2]) && IsHexDigit(line[3])
  }

  /** A closing quote must be followed by a space or nothing at all. */
  predicate Closed(line: cstring)
    requires line != []
  {
    |line| == 1 || IsSpace(line[1])
  }

  /** The arguments of a line, or None for unbalanced quotes or a quote closed in mid-word. */
  function SplitArgs(line: cstring): Option<seq<bytes>>
    decreases |line|
  {
    var s := SkipBlanks(line);
    if s == [] then Some([])
    else
      var t := Read(Plain, [], s);
      if t.Bad? then None
      else
        var others := SplitArgs(t.rest);
        if others.None? then None else Some([t.value] + others.value)
  }

  // ----- Round trip -----

  lemma ReadEscaped(cur: bytes, b: byte, tail: cstring)
    requires tail != []
    ensures Read(InDouble, cur, Escaped(b) + tail) == Read(InDouble, cur + [b], tail)
  {
    var line: cstring := Escaped(b) + tail;
    assert line[|Escaped(b)|..] == tail;
    if !(b == BACKSLASH || b == DQUOTE || EscapeLetter(b).Some? || IsPrint(b)) {
      assert HexEscape(line) && 16 * (b / 16) + b % 16 == b;
    } else {
      assert !HexEscape(line);
    }
  }

  lemma {:induction false} ReadQuoted(cur: bytes, s: bytes, rest: cstring)
    requires rest == [] || IsSpace(rest[0])
    ensures Read(InDouble, cur, EscapedAll(s) + [DQUOTE] + rest) == Token(cur + s, rest)
    decreases |s|
  {
    hide Read, Escaped;
    if s == [] {
      var line: cstring := EscapedAll(s) + [DQUOTE] + rest;
      ReadTurn(InDouble, cur, line);
      assert line == [DQUOTE] + rest && line[1..] == rest && cur + s == cur;
    } else {
      var tail: cstring := EscapedAll(s[1..]) + [DQUOTE] + rest;
      assert EscapedAll(s) + [DQUOTE] + rest == Escaped(s[0]) + tail;
      ReadEscaped(cur, s[0], tail);
      ReadQuoted(cur + [s[0]], s[1..], rest);
      assert cur + [s[0]] + s[1..] == cur + s;
    }
  }

  /** Quoted strings separated by single spaces. */
  function QuotedLine(args: seq<bytes>): cstring {
    if args == [] then []
    else if |args| == 1 then Quoted(args[0])
    else Quoted(args[0]) + [SPACE] + QuotedLine(args[1..])
  }

  lemma ReadArgument(arg: bytes, rest: cstring)
    requires rest == [] || IsSpace(rest[0])
    ensures Read(Plain, [], Quoted(arg) + rest) == Token(arg, rest)
  {
    var body: cstring := EscapedAll(arg) + [DQUOTE] + rest;
    var line: cstring := Quoted(arg) + rest;
    assert line == [DQUOTE] + body && line[1..] == body;
    ReadQuoted([], arg, rest);
    assert [] + arg == arg;
  }

  lemma SplitFirst(line: cstring)
    requires line != [] && !IsSpace(line[0]) && Read(Plain, [], line).Token?
    ensures
      var t := Read(Plain, [], line);
      SplitArgs(line) == if SplitArgs(t.rest).None? then None else Some([t.value] + SplitArgs(t.rest).value)
  {
    hide Read;
  }

  lemma SplitBlank(line: cstring)
    ensures SplitArgs([SPACE] + line) == SplitArgs(line)
  {
    hide Read;
    var s: cstring := [SPACE] + line;
    assert s[1..] == line;
    assert SkipBlanks(s) == SkipBlanks(line);
  }

  lemma SplitArgument(arg: bytes, rest: cstring)
    requires rest == [] || IsSpace(rest[0])
    requires SplitArgs(rest).Some?
    ensures SplitArgs(Quoted(arg) + rest) == Some([arg] + SplitArgs(rest).value)
  {
    hide Read, Quoted, SplitArgs;
    ReadArgument(arg, rest);
    QuotedStarts(arg, rest);
    SplitFirst(Quoted(arg) + rest);
  }

  /** Any list of byte strings survives being quoted on a line and read back. */
  lemma {:induction false} QuotingRoundTrip(args: seq<bytes>)
    ensures SplitArgs(QuotedLine(args)) == Some(args)
  {
    hide Quoted, SplitArgs;
    SplitNothing();
    if args != [] {
      var others := QuotedLine(args[1..]);
      var rest: cstring := if |args| == 1 then [] else [SPACE] + others;
      QuotingRoundTrip(args[1..]);
      SplitBlank(others);
      assert QuotedLine(args) == Quoted(args[0]) + rest;
      SplitArgument(args[0], rest);
      assert [args[0]] + args[1..] == args;
    }
  }

  lemma SplitNothing()
    ensures SplitArgs([]) == Some([])
  {
  }

  lemma QuotedStarts(arg: bytes, rest: cstring)
    ensures var line := Quoted(arg) + rest; line != [] && !IsSpace(line[0])
  {
  }

  // ----- sdssplitargs -----

  /** The byte at p, with the NUL that ends the string. */
  function At(line: cstring, p: nat): byte
    requires p <= |line|
  {
    if p < |line| then line[p] else NUL
  }

  /** `sdssplitargs`, or None where it returns NULL. */
  method SdsSplitArgs(line: cstring) returns (r: Option<seq<bytes>>)
    ensures r == SplitArgs(line)
  {
    hide Read, SplitArgs, SkipBlanks, IsSpace;
    var p := 0;
    var vector: seq<bytes> := [];
    assert line[0..] == line;
    PrefixNothing(SplitArgs(line));
    while true
      invariant 0 <= p <= |line|
      invariant SplitArgs(line) == Prefixed(vector, SplitArgs(line[p..]))
      decreases |line| - p
    {
      SplitStep(line[p..], vector);
      p := SkipSpaces(line, p);
      if At(line, p) != NUL {
        var ok, current, q := GetToken(line, p);
        if !ok {
          return None;
        }
        vector := vector + [current];
        p := q;
      } else {
        return Some(vector);
      }
    }
  }

  method SkipSpaces(line: cstring, start: nat) returns (p: nat)
    requires start <= |line|
    ensures start <= p <= |line| && line[p..] == SkipBlanks(line[start..])
  {
    p := start;
    while At(line, p) != NUL && IsSpace(At(line, p))
      invariant start <= p <= |line|
      invariant SkipBlanks(line[p..]) == SkipBlanks(line[start..])
      decreases |line| - p
    {
      assert line[p..][1..] == line[p + 1..];
      p := p + 1;
    }
  }

  lemma PrefixNothing(r: Option<seq<bytes>>)
    ensures Prefixed([], r) == r
  {
    if r.Some? { assert [] + r.value == r.value; }
  }

  /** One turn of the outer loop. */
  lemma SplitStep(line: cstring, vector: seq<bytes>)
    ensures
      var s := SkipBlanks(line);
      var t := Read(Plain, [], s);
      Prefixed(vector, SplitArgs(line)) ==
      if s == [] then Some(vector) else if t.Bad? then None else Prefixed(vector + [t.value], SplitArgs(t.rest))
  {
    hide Read, SkipBlanks;
    var s := SkipBlanks(line);
    var t := Read(Plain, [], s);
    if s == [] {
      assert vector + [] == vector;
    } else if t.Token? && SplitArgs(t.rest).Some? {
      assert vector + ([t.value] + SplitArgs(t.rest).value) == vector + [t.value] + SplitArgs(t.rest).value;
    }
  }

  function Prefixed(vector: seq<bytes>, r: Option<seq<bytes>>): Option<seq<bytes>> {
    if r.None? then None else Some(vector + r.value)
  }

  /** The inner loop: one token, starting at p. Every byte it looks at is in the string or its NUL. */
  method GetToken(line: cstring, start: nat) returns (ok: bool, current: bytes, p: nat)
    requires start < |line|
    ensures match Read(Plain, [], line[start..])
            case Bad => !ok
            case Token(value, rest) => ok && current == value && start < p <= |line| && line[p..] == rest
  {
    hide TurnOf, Read;
    p, current, ok := start, [], true;
    var mode := Plain;
    var done := false;
    ghost var left: cstring := line[start..];
    ghost var goal := Read(Plain, [], left);
    while !done
      invariant start <= p <= |line| && left == line[p..]
      invariant done ==> start < p
      invariant if done then goal == Token(current, left) else Read(mode, current, left) == goal
      decreases !done, |line| - p
    {
      ReadTurn(mode, current, left);
      var turn, q := TakeTurn(line, p, mode, current);
      if turn.Fault? {
        return false, [], p;
      }
      left := left[turn.used..];
      p := q;
      if turn.End? {
        done := true;
      } else {
        mode, current := turn.mode, turn.cur;
      }
    }
  }

  /** The body of the inner loop, with its final `if (*p) p++`. */
  method TakeTurn(line: cstring, start: nat, mode: Mode, current: bytes) returns (turn: Turn, p: nat)
    requires start <= |line|
    ensures turn == TurnOf(mode, current, line[start..])
    ensures !turn.Fault? ==> p == start + turn.used
  {
    match mode
    case InDouble => turn, p := TakeDouble(line, start, current);
    case InSingle => turn, p := TakeSingle(line, start, current);
    case Plain => turn, p := TakePlain(line, start, current);
  }

  method TakeDouble(line: cstring, start: nat, current: bytes) returns (turn: Turn, p: nat)
    requires start <= |line|
    ensures turn == DoubleTurn(current, line[start..])
    ensures !turn.Fault? ==> p == start + turn.used
  {
    p := start;
    var cur := current;
    var done := false;
    if At(line, p) == BACKSLASH && At(line, p + 1) == LETTER_X && IsHexDigit(At(line, p + 2)) &&
       IsHexDigit(At(line, p + 3)) {
      cur := cur + [16 * HexDigitToInt(At(line, p + 2)) + HexDigitToInt(At(line, p + 3))];
      p := p + 3;
    } else if At(line, p) == BACKSLASH && At(line, p + 1) != NUL {
      p := p + 1;
      cur := cur + [Unescape(At(line, p))];
    } else if At(line, p) == DQUOTE {
      if At(line, p + 1) != NUL && !IsSpace(At(line, p + 1)) {
        return Fault, p;
      }
      done := true;
    } else if At(line, p) == NUL {
      return Fault, p;
    } else {
      cur := cur + [At(line, p)];
    }
    if At(line, p) != NUL {
      p := p + 1;
    }
    turn := if done then End(p - start) else Go(InDouble, cur, p - start);
  }

  method TakeSingle(line: cstring, start: nat, current: bytes) returns (turn: Turn, p: nat)
    requires start <= |line|
    ensures turn == SingleTurn(current, line[start..])
    ensures !turn.Fault? ==> p == start + turn.used
  {
    p := start;
    var cur := current;
    var done := false;
    if At(line, p) == BACKSLASH && At(line, p + 1) == SQUOTE {
      p := p + 1;
      cur := cur + [SQUOTE];
    } else if At(line, p) == SQUOTE {
      if At(line, p + 1) != NUL && !IsSpace(At(line, p + 1)) {
        return Fault, p;
      }
      done := true;
    } else if At(line, p) == NUL {
      return Fault, p;
    } else {
      cur := cur + [At(line, p)];
    }
    if At(line, p) != NUL {
      p := p + 1;
    }
    turn := if done then End(p - start) else Go(InSingle, cur, p - start);
  }

  method TakePlain(line: cstring, start: nat, current: bytes) returns (turn: Turn, p: nat)
    requires start <= |line|
    ensures turn == PlainTurn(current, line[start..])
    ensures p == start + turn.used
  {
    p := start;
    var c := At(line, p);
    if At(line, p) != NUL {
      p := p + 1;
    }
    if c == SPACE || c == 10 || c == 13 || c == 9 || c == NUL {
      turn := End(p - start);
    } else if c == DQUOTE {
      turn := Go(InDouble, current, p - start);
    } else if c == SQUOTE {
      turn := Go(InSingle, current, p - start);
    } else {
      turn := Go(Plain, current + [c], p - start);
    }
  }
}
