/** `nextArgument` of async.c: walking the arguments of a formatted command in memory. */
module Arguments {
  import opened Bytes
  import opened Resp
  import opened Formatter
  import Decimal

  /** `strchr(mem + p, c)`: the first c at or after p, unless a NUL comes first. */
  function Find(mem: bytes, p: nat, c: byte): (r: Option<nat>)
    requires p <= |mem|
    ensures r.Some? ==> p <= r.value < |mem| && mem[r.value] == c
    decreases |mem| - p
  {
    if p == |mem| then None
    else if mem[p] == c then Some(p)
    else if mem[p] == NUL then None
    else Find(mem, p + 1, c)
  }

  method Strchr(mem: bytes, start: nat, c: byte) returns (r: Option<nat>)
    requires start < |mem| && NUL in mem[start..]
    ensures r == Find(mem, start, c)
    ensures match r
            case Some(k) => start <= k < |mem| && mem[k] == c && forall i :: start <= i < k ==> mem[i] !in {0, c}
            case None =>
              c != 0 && exists k :: start <= k < |mem| && mem[k] == 0 && forall i :: start <= i < k ==> mem[i] != c
  {
    ghost var end :| start <= end < |mem| && mem[end] == NUL;
    var p := start;
    while mem[p] != NUL && mem[p] != c
      invariant start <= p <= end
      invariant Find(mem, p, c) == Find(mem, start, c)
      invariant forall i :: start <= i < p ==> mem[i] !in {0, c}
      decreases end - p
    {
      p := p + 1;
    }
    return if mem[p] == c then Some(p) else None;
  }

  // ----- The number in a header -----

  predicate IsSpace(b: byte) {
    9 <= b <= 13 || b == SPACE
  }

  /** What the digits from p on, after those of v, denote. */
  function Number(mem: bytes, p: nat, v: nat): nat
    requires p <= |mem|
    decreases |mem| - p
  {
    if p < |mem| && IsDigit(mem[p]) then Number(mem, p + 1, 10 * v + (mem[p] - ZERO)) else v
  }

  /** A number out of the range of a `long` becomes the nearest one in it. */
  function Clamp(v: int): int64 {
    if v < INT64_MIN then INT64_MIN else if v > INT64_MAX then INT64_MAX else v
  }

  /** `strtol(mem + p, NULL, 10)`: white space, a sign, and digits; 0 where there are none. */
  function Strtol(mem: bytes, p: nat): int64
    requires p <= |mem|
    decreases |mem| - p
  {
    if p < |mem| && IsSpace(mem[p]) then Strtol(mem, p + 1)
    else if p < |mem| && mem[p] == MINUS then Clamp(0 - Number(mem, p + 1, 0))
    else if p < |mem| && mem[p] == PLUS then Clamp(Number(mem, p + 1, 0))
    else Clamp(Number(mem, p, 0))
  }

  /** The cast of a `long` to `int`. */
  function AsInt(v: int64): (r: int)
    ensures -INT_MAX - 1 <= r <= INT_MAX && (r - v) % 0x1_0000_0000 == 0
  {
    var low := v % 0x1_0000_0000;
    if low <= INT_MAX then low else low - 0x1_0000_0000
  }

  lemma {:induction false} NumberOfDigits(mem: bytes, p: nat, digits: bytes, i: nat)
    requires Decimal.AllDigits(digits) && i <= |digits| && p + |digits| < |mem|
    requires (forall k :: 0 <= k < |digits| ==> mem[p + k] == digits[k]) && !IsDigit(mem[p + |digits|])
    ensures Number(mem, p + i, Decimal.Value(digits[..i])) == Decimal.Value(digits)
    decreases |digits| - i
  {
    if i == |digits| {
      assert digits[..i] == digits;
    } else {
      NumberOfDigits(mem, p, digits, i + 1);
      assert digits[..i + 1][..i] == digits[..i];
      assert mem[p + i] == digits[i];
    }
  }

  /** White space, perhaps a sign, and digits: the number, or the nearest one that a `long` can hold. */
  lemma {:induction false} StrtolReads(mem: bytes, p: nat, blanks: bytes, sign: bytes, n: nat, tail: bytes)
    requires p <= |mem| && mem[p..] == blanks + sign + Decimal.Digits(n) + tail
    requires (forall k :: 0 <= k < |blanks| ==> blanks[k] in {32, 9, 10, 11, 12, 13}) && sign in {[], [43], [45]}
    requires tail != [] && !(48 <= tail[0] <= 57)
    ensures var v := if sign == [45] then 0 - n else n;
            Strtol(mem, p) ==
            if v < -0x8000_0000_0000_0000 then -0x8000_0000_0000_0000
            else if v > 0x7fff_ffff_ffff_ffff then 0x7fff_ffff_ffff_ffff
            else v
    decreases |blanks|
  {
    hide Decimal.Digits, Decimal.Value;
    var digits := Decimal.Digits(n);
    if blanks != [] {
      assert mem[p] == mem[p..][0] == blanks[0];
      assert mem[p + 1..] == mem[p..][1..] == blanks[1..] + sign + digits + tail;
      StrtolReads(mem, p + 1, blanks[1..], sign, n, tail);
    } else {
      assert mem[p..] == sign + (digits + tail);
      DigitsRead(mem, p + |sign|, n, tail) by { assert mem[p + |sign|..] == mem[p..][|sign|..]; }
      if sign != [] { assert mem[p] == mem[p..][0] == sign[0]; }
    }
  }

  /** Without digits it is 0. */
  lemma {:induction false} StrtolNone(mem: bytes, p: nat, blanks: bytes, sign: bytes, tail: bytes)
    requires p <= |mem| && mem[p..] == blanks + sign + tail && sign in {[], [43], [45]}
    requires forall k :: 0 <= k < |blanks| ==> blanks[k] in {32, 9, 10, 11, 12, 13}
    requires tail != [] && !(48 <= tail[0] <= 57)
    requires sign == [] ==> tail[0] !in {32, 9, 10, 11, 12, 13, 43, 45}
    ensures Strtol(mem, p) == 0
    decreases |blanks|
  {
    if blanks != [] {
      assert mem[p] == mem[p..][0] == blanks[0];
      assert mem[p + 1..] == mem[p..][1..] == blanks[1..] + sign + tail;
      StrtolNone(mem, p + 1, blanks[1..], sign, tail);
    } else {
      assert mem[p..] == sign + tail;
      assert mem[p + |sign|] == mem[p..][|sign|] == tail[0];
      assert mem[p] == mem[p..][0] == (sign + tail)[0];
    }
  }

  lemma DigitsRead(mem: bytes, p: nat, n: nat, tail: bytes)
    requires p <= |mem| && mem[p..] == Decimal.Digits(n) + tail && tail != [] && !(48 <= tail[0] <= 57)
    ensures Number(mem, p, 0) == n && p < |mem| && IsDigit(mem[p])
  {
    hide Decimal.Digits, Decimal.Value;
    var digits := Decimal.Digits(n);
    Decimal.DigitsAreCanonical(n);
    forall k | 0 <= k < |digits|
      ensures mem[p + k] == digits[k]
    {
      assert mem[p..][k] == (digits + tail)[k];
    }
    assert mem[p..][|digits|] == (digits + tail)[|digits|] == tail[0];
    NumberOfDigits(mem, p, digits, 0);
    NoDigits(digits);
  }

  /** The length in a header is read right exactly when it is an int. */
  lemma LengthRead(mem: bytes, p: nat, n: nat)
    requires p <= |mem| && Decimal.Digits(n) + [CR] <= mem[p..]
    ensures AsInt(Strtol(mem, p)) == n <==> n <= INT_MAX
  {
    hide Decimal.Digits;
    var digits := Decimal.Digits(n);
    var tail := mem[p..][|digits|..];
    assert tail[0] == CR by { assert (digits + [CR])[|digits|] == mem[p..][|digits|]; }
    assert mem[p..] == [] + [] + digits + tail;
    StrtolReads(mem, p, [], [], n, tail);
  }

  lemma NoDigits(digits: bytes)
    ensures digits[..0] == [] && Decimal.Value(digits[..0]) == 0
  {
  }

  // ----- One argument -----

  /**
   No argument, the assertion that a CR follows failed, or where the payload starts, its length and where
   to go on.
   */
  datatype Argument = End | Crashed | Argument(str: nat, len: int, next: int)

  ghost predicate HeaderAt(mem: bytes, d: nat, n: nat) {
    d <= |mem| && Header(DOLLAR, n) <= mem[d..] && NUL in mem[d..]
  }

  /** On any C string: what follows the next '$' is read as a number, and the payload starts after the next CR. */
  method NextArgument(mem: bytes, start: nat) returns (r: Argument)
    requires start < |mem| && NUL in mem[start..]
    ensures r == End <==> Find(mem, start, DOLLAR) == None
    ensures match Find(mem, start, DOLLAR)
            case None => true
            case Some(d) =>
              && (r == Crashed <==> Find(mem, d, CR) == None)
              && (r.Argument? ==>
                    && Find(mem, d, CR) == Some(r.str - 2) && r.len == AsInt(Strtol(mem, d + 1))
                    && r.next == r.str + r.len + 2)
              && forall n: nat :: HeaderAt(mem, d, n) ==>
                   r.Argument? && r.str == d + |Header(DOLLAR, n)| && (r.len == n <==> n <= INT_MAX)
  {
    hide HeaderAt, Header, Strtol, AsInt;
    var p := start;
    if mem[p] != DOLLAR {
      var q := Strchr(mem, p, DOLLAR);
      if q.None? {
        return End;
      }
      p := q.value;
    }
    Terminated(mem, start, p);
    forall n: nat | HeaderAt(mem, p, n)
      ensures Find(mem, p, CR) == Some(p + |Header(DOLLAR, n)| - 2)
      ensures AsInt(Strtol(mem, p + 1)) == n <==> n <= INT_MAX
    {
      HeaderBytes(mem, p, n);
      LengthRead(mem, p + 1, n);
    }
    var len := AsInt(Strtol(mem, p + 1));
    var q := Strchr(mem, p, CR);
    if q.None? {
      return Crashed;
    }
    return Argument(q.value + 2, len, q.value + 2 + len + 2);
  }

  /** Before the first '$' there is no NUL, so that the one that ends the string is after it. */
  lemma {:induction false} Terminated(mem: bytes, p: nat, d: nat)
    requires p < |mem| && NUL in mem[p..] && Find(mem, p, DOLLAR) == Some(d)
    ensures d < |mem| && NUL in mem[d..]
    decreases |mem| - p
  {
    if mem[p] != DOLLAR {
      assert mem[p..] == [mem[p]] + mem[p + 1..];
      Terminated(mem, p + 1, d);
    }
  }

  lemma HeaderBytes(mem: bytes, d: nat, n: nat)
    requires HeaderAt(mem, d, n)
    ensures Decimal.Digits(n) + [CR] <= mem[d + 1..]
    ensures Find(mem, d, CR) == Some(d + |Header(DOLLAR, n)| - 2)
  {
    hide Header, Decimal.Digits, Decimal.Value;
    var digits := Decimal.Digits(n);
    Decimal.DigitsAreCanonical(n);
    HeaderText(n);
    HeaderSplit(mem, d, digits);
    HeaderFind(mem, d, digits);
  }

  lemma HeaderText(n: nat)
    ensures Header(DOLLAR, n) == [DOLLAR] + Decimal.Digits(n) + CRLF
  {
  }

  lemma HeaderFind(mem: bytes, d: nat, digits: bytes)
    requires Decimal.AllDigits(digits) && d + 1 + |digits| < |mem| && mem[d] == DOLLAR
    requires mem[d + 1..d + 1 + |digits|] == digits && mem[d + 1 + |digits|] == CR
    ensures Find(mem, d, CR) == Some(d + 1 + |digits|)
  {
    forall k | d <= k < d + 1 + |digits|
      ensures mem[k] != CR && mem[k] != NUL
    {
      if k > d { assert mem[k] == mem[d + 1..d + 1 + |digits|][k - d - 1] == digits[k - d - 1]; }
    }
    FindSkip(mem, d, d + 1 + |digits|, CR);
  }

  lemma HeaderSplit(mem: bytes, d: nat, digits: bytes)
    requires d <= |mem| && [DOLLAR] + digits + CRLF <= mem[d..]
    ensures d + 1 + |digits| < |mem| && mem[d] == DOLLAR && mem[d + 1..d + 1 + |digits|] == digits
    ensures mem[d + 1 + |digits|] == CR && digits + [CR] <= mem[d + 1..]
  {
    var tail := mem[d..][|digits| + 3..];
    var line := digits + ([CR] + ([LF] + tail));
    assert mem[d..] == [DOLLAR] + line;
    Slices(mem, d, [DOLLAR], line);
    Slices(mem, d + 1, digits, [CR] + ([LF] + tail));
    Slices(mem, d + 1, digits + [CR], [LF] + tail);
    assert mem[d] == mem[d..][0];
    assert mem[d + 1 + |digits|] == mem[d + 1 + |digits|..][0];
  }

  /** Bytes other than c and NUL are passed over. */
  lemma {:induction false} FindSkip(mem: bytes, p: nat, q: nat, c: byte)
    requires p <= q <= |mem| && forall k :: p <= k < q ==> mem[k] != c && mem[k] != NUL
    ensures Find(mem, p, c) == Find(mem, q, c)
    decreases q - p
  {
    if p < q {
      FindSkip(mem, p + 1, q, c);
    }
  }

  /** From p on, mem holds the arguments argv and then the NUL. */
  ghost predicate Rest(mem: bytes, p: nat, argv: seq<bytes>) {
    p < |mem| && mem[p..] == EncodeAll(Bulks(argv)) + [NUL]
  }

  /** The same, or the count comes before the first of them. */
  ghost predicate Ahead(mem: bytes, p: nat, argv: seq<bytes>) {
    Rest(mem, p, argv) || (p < |mem| && mem[p..] == Wire(argv) + [NUL])
  }

  lemma Slices(mem: bytes, d: nat, a: bytes, b: bytes)
    requires d <= |mem| && mem[d..] == a + b
    ensures d + |a| <= |mem| && mem[d..d + |a|] == a && mem[d + |a|..] == b
  {
    assert mem[d..][..|a|] == a && mem[d..][|a|..] == b;
  }

  lemma AheadFind(mem: bytes, p: nat, argv: seq<bytes>)
    requires Ahead(mem, p, argv)
    ensures NUL in mem[p..]
    ensures argv == [] ==> Find(mem, p, DOLLAR) == None
    ensures argv != [] ==>
              var d := Find(mem, p, DOLLAR);
              d.Some? && mem[d.value..] == EncodeAll(Bulks(argv)) + [NUL] && HeaderAt(mem, d.value, |argv[0]|)
  {
    hide Header, EncodeAll, HeaderAt;
    var rest := EncodeAll(Bulks(argv)) + [NUL];
    assert mem[p..][|mem| - p - 1] == NUL by { Slices(mem, |mem| - 1, [NUL], []); }
    var d := ArgumentsFrom(mem, p, argv);
    if argv == [] {
      NoArguments();
      assert mem[d] == mem[d..][0] == NUL;
    } else {
      FirstHeader(mem, d, argv);
    }
  }

  lemma NoArguments()
    ensures EncodeAll(Bulks([])) == []
  {
  }

  lemma FirstHeader(mem: bytes, d: nat, argv: seq<bytes>)
    requires argv != [] && d <= |mem| && mem[d..] == EncodeAll(Bulks(argv)) + [NUL]
    ensures HeaderAt(mem, d, |argv[0]|) && d < |mem| && mem[d] == DOLLAR
  {
    hide EncodeAll, Bulks;
    var h, tail := Header(DOLLAR, |argv[0]|), argv[0] + CRLF + EncodeAll(Bulks(argv[1..])) + [NUL];
    EncodeFirst(argv);
    assert mem[d..] == h + tail;
    assert mem[d..][0] == h[0] == DOLLAR;
    assert mem[d..][|mem| - d - 1] == tail[|tail| - 1] == NUL;
  }

  /** The count of the command is passed over: it holds no '$'. */
  lemma ArgumentsFrom(mem: bytes, p: nat, argv: seq<bytes>) returns (d: nat)
    requires Ahead(mem, p, argv)
    ensures p <= d <= |mem| && mem[d..] == EncodeAll(Bulks(argv)) + [NUL]
    ensures Find(mem, p, DOLLAR) == Find(mem, d, DOLLAR)
  {
    hide EncodeAll, Bulks;
    var rest := EncodeAll(Bulks(argv)) + [NUL];
    if mem[p..] == rest {
      return p;
    }
    var h := Header(STAR, |argv|);
    assert Wire(argv) + [NUL] == h + rest;
    Slices(mem, p, h, rest);
    d := p + |h|;
    Decimal.DigitsAreCanonical(|argv|);
    forall k | p <= k < d
      ensures mem[k] != DOLLAR && mem[k] != NUL
    {
      assert mem[k] == mem[p..d][k - p] == h[k - p];
    }
    FindSkip(mem, p, d, DOLLAR);
  }

  /** The first argument lies at str, and the others are ahead of the end of it. */
  lemma AheadNext(mem: bytes, d: nat, argv: seq<bytes>)
    requires argv != [] && d <= |mem| && mem[d..] == EncodeAll(Bulks(argv)) + [NUL]
    ensures
      var str := d + |Header(DOLLAR, |argv[0]|)|;
      var next := str + |argv[0]| + 2;
      && next < |mem| && mem[str..str + |argv[0]|] == argv[0] && mem[str + |argv[0]|..next] == CRLF
      && Rest(mem, next, argv[1..])
  {
    hide Header, EncodeAll, Bulks;
    var h, arg, rest := Header(DOLLAR, |argv[0]|), argv[0], EncodeAll(Bulks(argv[1..])) + [NUL];
    EncodeFirst(argv);
    assert mem[d..] == h + (arg + (CRLF + rest));
    Slices(mem, d, h, arg + (CRLF + rest));
    Slices(mem, d + |h|, arg, CRLF + rest);
    Slices(mem, d + |h| + |arg|, CRLF, rest);
  }

  lemma AheadWhole(mem: bytes, argv: seq<bytes>)
    requires mem == Wire(argv) + [NUL]
    ensures Ahead(mem, 0, argv)
  {
    assert mem[0..] == mem;
  }

  /** a is the first of the arguments argv, whole; the others begin at a.next. */
  ghost predicate First(mem: bytes, a: Argument, argv: seq<bytes>) {
    if argv == [] then a == End
    else
      && a.Argument? && a.len == |argv[0]| && a.next == a.str + |argv[0]| + 2 && a.next < |mem|
      && mem[a.str..a.str + |argv[0]|] == argv[0] && mem[a.str + |argv[0]|..a.next] == CRLF
      && Rest(mem, a.next, argv[1..])
  }

  /** One call on a formatted command. */
  method NextOf(mem: bytes, p: nat, ghost argv: seq<bytes>) returns (a: Argument)
    requires Ahead(mem, p, argv) && Sizes(argv)
    ensures First(mem, a, argv)
  {
    hide EncodeAll, Wire, Bulks, Header, HeaderAt, Rest, Ahead, Strtol, AsInt;
    assert p < |mem| by { AheadInside(mem, p, argv); }
    AheadFind(mem, p, argv);
    a := NextArgument(mem, p);
    if argv != [] {
      AheadNext(mem, Find(mem, p, DOLLAR).value, argv);
    }
  }

  lemma AheadInside(mem: bytes, p: nat, argv: seq<bytes>)
    requires Ahead(mem, p, argv)
    ensures p < |mem|
  {
  }

  /**
   The loop `while ((p = nextArgument(p,&astr,&alen)) != NULL)` over a formatted command yields
   its arguments, in order and whole, whatever bytes they hold, and then NULL.
   */
  method AllArguments(mem: bytes, ghost argv: seq<bytes>) returns (out: seq<bytes>)
    requires mem == Wire(argv) + [NUL] && Sizes(argv)
    ensures out == argv
  {
    hide Rest, Wire;
    out := [];
    ghost var j := 0;
    AheadWhole(mem, argv);
    var a := NextOf(mem, 0, argv);
    while a.Argument?
      invariant 0 <= j <= |argv| && out == argv[..j] && First(mem, a, argv[j..])
      decreases |argv| - j
    {
      assert argv[j..][0] == argv[j] && argv[j..][1..] == argv[j + 1..];
      out := out + [mem[a.str..a.str + a.len]];
      j := j + 1;
      a := NextOf(mem, a.next, argv[j..]);
    }
  }
}
