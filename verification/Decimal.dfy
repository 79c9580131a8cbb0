/** Decimal conversion: `string2ll` of read.c against `sdsll2str` and `sdsull2str` of sds.c. */
module Decimal {
  import opened Bytes

  // ----- The canonical decimal notation -----

  predicate AllDigits(s: bytes) {
    forall i :: 0 <= i < |s| ==> IsDigit(s[i])
  }

  /** The number a string of digits denotes. */
  function Value(s: bytes): nat
    requires AllDigits(s)
  {
    if s == [] then 0 else 10 * Value(s[..|s| - 1]) + (s[|s| - 1] - ZERO)
  }

  /** The digits of n, most significant first and without leading zeros. */
  function Digits(n: nat): bytes {
    if n < 10 then [ZERO + n] else Digits(n / 10) + [ZERO + n % 10]
  }

  /** The text of an integer: the digits of its magnitude, after '-' when negative. */
  function Text(v: int): bytes {
    if v < 0 then [MINUS] + Digits(-v) else Digits(v)
  }

  /** Digits that start with '0' only when they are "0". */
  predicate CanonicalDigits(s: bytes) {
    |s| > 0 && AllDigits(s) && (s[0] == ZERO ==> |s| == 1)
  }

  /** What `string2ll` accepts: canonical digits, or '-' and canonical digits other than "0", in range. */
  function Parse(s: bytes): Option<int64> {
    if CanonicalDigits(s) then
      if Value(s) <= INT64_MAX then Some(Value(s)) else None
    else if |s| > 1 && s[0] == MINUS && CanonicalDigits(s[1..]) && s[1] != ZERO then
      if Value(s[1..]) <= -INT64_MIN then Some(0 - Value(s[1..])) else None
    else
      None
  }

  lemma {:induction false} DigitsAreCanonical(n: nat)
    ensures CanonicalDigits(Digits(n)) && Value(Digits(n)) == n
    ensures Digits(n)[0] == ZERO <==> n == 0
  {
    if n >= 10 {
      DigitsAreCanonical(n / 10);
      assert Digits(n)[..|Digits(n)| - 1] == Digits(n / 10);
    }
  }

  lemma {:induction false} CanonicalAreDigits(s: bytes)
    requires CanonicalDigits(s)
    ensures Digits(Value(s)) == s
    ensures s[0] != ZERO ==> Value(s) > 0
  {
    if |s| == 1 {
      assert s[..0] == [];
      assert s == [s[0]];
    } else {
      var init := s[..|s| - 1];
      CanonicalAreDigits(init);
      assert s == init + [s[|s| - 1]];
      assert Value(s) / 10 == Value(init);
    }
  }

  /** Decimal notation: one digit, one digit more, and the sign. */
  lemma TextLaws(n: nat, d: nat)
    requires d < 10
    ensures Text(d) == [48 + d]
    ensures n > 0 ==> Text(10 * n + d) == Text(n) + [48 + d] && Text(0 - n) == [45] + Text(n)
  {
    assert (10 * n + d) / 10 == n && (10 * n + d) % 10 == d;
  }

  /** `Parse` accepts a string exactly when it is the canonical text of an int64, and returns that number. */
  lemma ParseIffText(s: bytes, v: int)
    ensures Parse(s) == Some(v) <==> INT64_MIN <= v <= INT64_MAX && s == Text(v)
  {
    if Parse(s) == Some(v) {
      ParsedIsText(s, v);
    }
    if INT64_MIN <= v <= INT64_MAX && s == Text(v) {
      TextIsParsed(v);
    }
  }

  lemma ParsedIsText(s: bytes, v: int)
    requires Parse(s) == Some(v)
    ensures INT64_MIN <= v <= INT64_MAX && s == Text(v)
  {
    if CanonicalDigits(s) {
      CanonicalAreDigits(s);
    } else {
      CanonicalAreDigits(s[1..]);
      assert s == [MINUS] + s[1..];
    }
  }

  lemma TextIsParsed(v: int)
    requires INT64_MIN <= v <= INT64_MAX
    ensures Parse(Text(v)) == Some(v)
  {
    var s := Text(v);
    if v < 0 {
      DigitsAreCanonical(-v);
      assert s[1..] == Digits(-v);
      assert !CanonicalDigits(s);
    } else {
      DigitsAreCanonical(v);
    }
  }

  /** A prefix of a string of digits denotes at most what the string denotes. */
  lemma {:induction false} PrefixValue(s: bytes, k: nat)
    requires AllDigits(s) && k <= |s|
    ensures Value(s[..k]) <= Value(s)
  {
    if k == |s| {
      assert s[..k] == s;
    } else {
      PrefixValue(s[..|s| - 1], k);
      assert s[..|s| - 1][..k] == s[..k];
    }
  }

  // ----- string2ll -----

  method String2ll(s: bytes) returns (r: Option<int64>)
    ensures r == Parse(s)
  {
    var plen := 0;
    var negative := false;
    var v: uint64;
    if plen == |s| {
      return None;
    }
    if |s| == 1 && s[0] == ZERO {
      assert Value(s) == 0 by { assert s[..0] == []; }
      return Some(0);
    }
    if s[0] == MINUS {
      negative := true;
      plen := plen + 1;
      if plen == |s| {
        return None;
      }
    }
    ghost var digits := s[plen..];
    assert !negative ==> digits == s;
    if ZERO + 1 <= s[plen] <= ZERO + 9 {
      v := s[plen] - ZERO;
      plen := plen + 1;
    } else {
      return None;
    }
    ghost var n := 1;
    assert digits[..0] == [];
    while plen < |s| && IsDigit(s[plen])
      invariant 1 <= n <= |digits| && plen == n + |s| - |digits|
      invariant AllDigits(digits[..n]) && v == Value(digits[..n])
    {
      TooLong(digits, n);
      assert digits[..n + 1][..n] == digits[..n];
      if v > UINT64_MAX / 10 {
        return None;
      }
      v := v * 10;
      if v > UINT64_MAX - (s[plen] - ZERO) {
        return None;
      }
      v := v + (s[plen] - ZERO);
      plen := plen + 1;
      n := n + 1;
    }
    if plen < |s| {
      assert !IsDigit(digits[n]);
      return None;
    }
    assert digits[..n] == digits;
    if negative {
      if v > -(INT64_MIN + 1) + 1 {
        return None;
      }
      return Some(AsSigned(NegateU64(v)));
    } else {
      if v > INT64_MAX {
        return None;
      }
      return Some(v);
    }
  }

  /** Once the value read so far leaves 64 bits, the whole string is out of range. */
  lemma TooLong(digits: bytes, n: nat)
    requires n < |digits| && AllDigits(digits[..n + 1])
    ensures AllDigits(digits) ==> Value(digits[..n + 1]) <= Value(digits)
  {
    if AllDigits(digits) {
      PrefixValue(digits, n + 1);
    }
  }

  // ----- sdsll2str and sdsull2str -----

  /** Both printers need room for a sign, 19 or 20 digits and the NUL. */
  const SDS_LLSTR_SIZE := 21

  function Pow10(k: nat): nat {
    if k == 0 then 1 else 10 * Pow10(k - 1)
  }

  lemma {:induction false} DigitCount(n: nat, k: nat)
    requires n < Pow10(k) && k > 0
    ensures |Digits(n)| <= k
  {
    if n >= 10 {
      DigitCount(n / 10, k - 1);
    }
  }

  /** The magnitude `v = (value < 0) ? -value : value`, with the negation done on 64 bits. */
  function Magnitude(value: int64): (v: uint64)
    ensures v == (if value < 0 then 0 - value else value)
  {
    if value < 0 then NegateU64(AsUnsigned(value)) else value
  }

  /** An int64 prints in at most 20 bytes, a uint64 in at most 20 digits. */
  lemma TextFits(value: int64, v: uint64)
    ensures |Text(value)| < SDS_LLSTR_SIZE && |Digits(v)| < SDS_LLSTR_SIZE
  {
    assert Pow10(19) == 10_000_000_000_000_000_000 by { Pow10Values(); }
    assert Pow10(20) == 100_000_000_000_000_000_000 by { Pow10Values(); }
    DigitCount(Magnitude(value), 19);
    DigitCount(v, 20);
  }

  lemma Pow10Values()
    ensures Pow10(19) == 10_000_000_000_000_000_000 && Pow10(20) == 100_000_000_000_000_000_000
  {
    assert Pow10(5) == 100_000;
    assert Pow10(10) == 10_000_000_000;
    assert Pow10(15) == 1_000_000_000_000_000;
    assert Pow10(19) == 10_000_000_000_000_000_000;
  }

  function Reversed(s: bytes): (r: bytes)
    ensures |r| == |s|
  {
    if s == [] then [] else [s[|s| - 1]] + Reversed(s[..|s| - 1])
  }

  lemma {:induction false} ReversedAt(s: bytes, k: nat)
    requires k < |s|
    ensures Reversed(s)[k] == s[|s| - 1 - k]
  {
    if k > 0 {
      ReversedAt(s[..|s| - 1], k - 1);
    }
  }

  /** The tail of both printers: reverse the first l bytes in place. */
  method ReverseInPlace(s: array<byte>, l: nat)
    requires l <= s.Length
    modifies s
    ensures s[..l] == Reversed(old(s[..l]))
    ensures s[l..] == old(s[l..])
  {
    var lo, hi := 0, l - 1;
    while lo < hi
      invariant 0 <= lo <= hi + 2 && lo + hi == l - 1
      invariant forall k :: 0 <= k < lo || hi < k < l ==> s[k] == old(s[l - 1 - k])
      invariant forall k :: lo <= k <= hi ==> s[k] == old(s[k])
      invariant forall k :: l <= k < s.Length ==> s[k] == old(s[k])
    {
      s[lo], s[hi] := s[hi], s[lo];
      lo, hi := lo + 1, hi - 1;
    }
    ghost var was := old(s[..l]);
    forall k | 0 <= k < l
      ensures s[..l][k] == Reversed(was)[k]
    {
      ReversedAt(was, k);
      assert was[l - 1 - k] == old(s[l - 1 - k]);
    }
  }

  /** The digit loop of both printers: least significant digit first. */
  method PutDigits(s: array<byte>, value: uint64) returns (p: nat)
    requires s.Length >= SDS_LLSTR_SIZE
    modifies s
    ensures p == |Digits(value)| < SDS_LLSTR_SIZE && Reversed(s[..p]) == Digits(value)
    ensures forall k :: p <= k < s.Length ==> s[k] == old(s[k])
  {
    hide Digits;
    TextFits(0, value);
    OneDigit(value);
    var v := value;
    s[0] := ZERO + v % 10;
    v := v / 10;
    p := 1;
    assert s[..1] == [s[0]];
    while v != 0
      invariant 1 <= p < SDS_LLSTR_SIZE
      invariant Written(value, v, s[..p])
      invariant forall k :: p <= k < s.Length ==> s[k] == old(s[k])
    {
      DigitsLeft(value, v, s[..p]);
      ghost var before := s[..p];
      s[p] := ZERO + v % 10;
      assert s[..p + 1] == before + [ZERO + v % 10];
      v := v / 10;
      p := p + 1;
    }
  }

  /** The digits of v are still to come after those in s, which has the last ones of value in reverse. */
  predicate Written(value: nat, v: nat, s: bytes) {
    Digits(value) == (if v == 0 then [] else Digits(v)) + Reversed(s)
  }

  lemma OneDigit(value: nat)
    ensures Written(value, value / 10, [ZERO + value % 10])
  {
    assert [ZERO + value % 10][..0] == [];
    assert Reversed([ZERO + value % 10]) == [ZERO + value % 10] + Reversed([]);
  }

  /** The next digit, and room for it. */
  lemma DigitsLeft(value: nat, v: nat, s: bytes)
    requires v != 0 && Written(value, v, s)
    ensures |s| < |Digits(value)| && Written(value, v / 10, s + [ZERO + v % 10])
  {
    assert |Digits(value)| == |Digits(v)| + |s|;
    assert (s + [ZERO + v % 10])[..|s|] == s;
    assert Digits(v) + Reversed(s) == (if v < 10 then [] else Digits(v / 10)) + ([ZERO + v % 10] + Reversed(s));
  }

  method Sdsll2str(s: array<byte>, value: int64) returns (l: nat)
    requires s.Length >= SDS_LLSTR_SIZE
    modifies s
    ensures l < SDS_LLSTR_SIZE && s[..l] == Text(value) && s[l] == NUL
    ensures forall k :: SDS_LLSTR_SIZE <= k < s.Length ==> s[k] == old(s[k])
  {
    TextFits(value, 0);
    l := PutDigits(s, Magnitude(value));
    if value < 0 {
      ghost var before := s[..l];
      s[l] := MINUS;
      l := l + 1;
      assert s[..l][..l - 1] == before;
    }
    s[l] := NUL;
    ReverseInPlace(s, l);
    assert s[l..][0] == NUL;
  }

  method Sdsull2str(s: array<byte>, v: uint64) returns (l: nat)
    requires s.Length >= SDS_LLSTR_SIZE
    modifies s
    ensures l < SDS_LLSTR_SIZE && s[..l] == Text(v) && s[l] == NUL
    ensures forall k :: SDS_LLSTR_SIZE <= k < s.Length ==> s[k] == old(s[k])
  {
    l := PutDigits(s, v);
    s[l] := NUL;
    ReverseInPlace(s, l);
    assert s[l..][0] == NUL;
  }

  /** Printing then reading is the identity on every int64, INT64_MIN included. */
  method RoundTrip(value: int64) returns (r: Option<int64>)
    ensures r == Some(value)
  {
    var s := new byte[SDS_LLSTR_SIZE](_ => 0);
    var l := Sdsll2str(s, value);
    r := String2ll(s[..l]);
    ParseIffText(Text(value), value);
  }
}
