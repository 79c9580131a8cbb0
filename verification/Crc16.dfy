/** The CRC16 of MiddleWare.cpp: its table loop against division by the generator polynomial, bit by bit. */
module Crc16 {
  import opened Bytes

  // ----- 16-bit words -----

  datatype Nibble = Nibble(b3: bool, b2: bool, b1: bool, b0: bool)

  /** A `uint16_t`, as its bits. */
  datatype Word = Word(n3: Nibble, n2: Nibble, n1: Nibble, n0: Nibble)

  /** The low four bits of d. */
  function Nib(d: nat): Nibble {
    Nibble(d % 16 >= 8, d % 8 >= 4, d % 4 >= 2, d % 2 == 1)
  }

  function NibValue(n: Nibble): (d: nat)
    ensures d < 16 && Nib(d) == n
  {
    (if n.b3 then 8 else 0) + (if n.b2 then 4 else 0) + (if n.b1 then 2 else 0) + (if n.b0 then 1 else 0)
  }

  /** The word with the given hexadecimal digits. */
  function Hex(a: nat, b: nat, c: nat, d: nat): Word {
    Word(Nib(a), Nib(b), Nib(c), Nib(d))
  }

  function WordValue(w: Word): (v: nat)
    ensures v < 0x1_0000
  {
    4096 * NibValue(w.n3) + 256 * NibValue(w.n2) + 16 * NibValue(w.n1) + NibValue(w.n0)
  }

  function XorNibble(a: Nibble, b: Nibble): Nibble {
    Nibble(a.b3 != b.b3, a.b2 != b.b2, a.b1 != b.b1, a.b0 != b.b0)
  }

  function Xor(a: Word, b: Word): Word {
    Word(XorNibble(a.n3, b.n3), XorNibble(a.n2, b.n2), XorNibble(a.n1, b.n1), XorNibble(a.n0, b.n0))
  }

  /** Shift left by one, dropping the top bit. */
  function Left(w: Word): Word {
    Word(Nibble(w.n3.b2, w.n3.b1, w.n3.b0, w.n2.b3), Nibble(w.n2.b2, w.n2.b1, w.n2.b0, w.n1.b3),
         Nibble(w.n1.b2, w.n1.b1, w.n1.b0, w.n0.b3), Nibble(w.n0.b2, w.n0.b1, w.n0.b0, false))
  }

  /** Shift left by eight: the low byte moves up. */
  function Left8(w: Word): Word {
    Word(w.n1, w.n0, Nib(0), Nib(0))
  }

  lemma XorLaws(a: Word, b: Word, c: Word)
    ensures Xor(Xor(a, b), c) == Xor(a, Xor(b, c)) && Xor(a, b) == Xor(b, a)
    ensures Xor(a, Hex(0, 0, 0, 0)) == a
  {
    hide XorNibble, Nib;
    NibbleLaws(a.n3, b.n3, c.n3);
    NibbleLaws(a.n2, b.n2, c.n2);
    NibbleLaws(a.n1, b.n1, c.n1);
    NibbleLaws(a.n0, b.n0, c.n0);
  }

  lemma NibbleLaws(a: Nibble, b: Nibble, c: Nibble)
    ensures XorNibble(XorNibble(a, b), c) == XorNibble(a, XorNibble(b, c)) && XorNibble(a, b) == XorNibble(b, a)
    ensures XorNibble(a, Nib(0)) == a
  {
  }

  lemma XorSwap(a: Word, b: Word, c: Word, d: Word)
    ensures Xor(Xor(a, b), Xor(c, d)) == Xor(Xor(a, c), Xor(b, d))
  {
    hide Xor;
    XorLaws(a, b, Xor(c, d));
    XorLaws(b, c, d);
    XorLaws(c, b, d);
    XorLaws(a, c, Xor(b, d));
  }

  // ----- Polynomial division -----

  /** Multiply by x, and reduce by x^16 + x^12 + x^5 + 1 when a term x^16 appears. */
  function Shift(w: Word): Word {
    if w.n3.b3 then Xor(Left(w), Hex(1, 0, 2, 1)) else Left(w)
  }

  function BitWord(b: bool): Word {
    Word(Nib(0), Nib(0), Nib(0), Nibble(false, false, false, b))
  }

  /** The remainder of a polynomial, given by its coefficients from the highest power down (Horner's rule). */
  function Remainder(bits: seq<bool>): Word {
    if bits == [] then Hex(0, 0, 0, 0)
    else Xor(Shift(Remainder(bits[..|bits| - 1])), BitWord(bits[|bits| - 1]))
  }

  function High(b: byte): Nibble {
    Nib(b / 16)
  }

  function Low(b: byte): Nibble {
    Nib(b % 16)
  }

  /** The bits of a byte, most significant first. */
  function ByteBits(b: byte): (r: seq<bool>)
    ensures |r| == 8
  {
    [High(b).b3, High(b).b2, High(b).b1, High(b).b0, Low(b).b3, Low(b).b2, Low(b).b1, Low(b).b0]
  }

  function Bits(s: bytes): seq<bool> {
    if s == [] then [] else Bits(s[..|s| - 1]) + ByteBits(s[|s| - 1])
  }

  function Zeros(n: nat): seq<bool> {
    seq(n, _ => false)
  }

  /** CRC16 with initial value 0: the remainder of the message times x^16. */
  function Crc(s: bytes): Word {
    Remainder(Bits(s) + Zeros(16))
  }

  // ----- Linearity -----

  function Mask(top: bool): Word {
    if top then Hex(1, 0, 2, 1) else Hex(0, 0, 0, 0)
  }

  lemma ShiftMask(w: Word)
    ensures Shift(w) == Xor(Left(w), Mask(w.n3.b3))
  {
    hide Xor;
    XorLaws(Left(w), Left(w), Left(w));
  }

  lemma LeftLinear(a: Word, b: Word)
    ensures Left(Xor(a, b)) == Xor(Left(a), Left(b)) && Xor(a, b).n3.b3 == (a.n3.b3 != b.n3.b3)
  {
  }

  lemma MaskLinear(s: bool, t: bool)
    ensures Mask(s != t) == Xor(Mask(s), Mask(t))
  {
  }

  lemma ShiftLinear(a: Word, b: Word)
    ensures Shift(Xor(a, b)) == Xor(Shift(a), Shift(b))
  {
    hide Xor, Shift, Left, Mask;
    ShiftMask(a);
    ShiftMask(b);
    ShiftMask(Xor(a, b));
    LeftLinear(a, b);
    MaskLinear(a.n3.b3, b.n3.b3);
    XorSwap(Left(a), Mask(a.n3.b3), Left(b), Mask(b.n3.b3));
  }

  function ShiftN(n: nat, c: Word): Word {
    if n == 0 then c else Shift(ShiftN(n - 1, c))
  }

  lemma {:induction false} ShiftNLinear(n: nat, a: Word, b: Word)
    ensures ShiftN(n, Xor(a, b)) == Xor(ShiftN(n, a), ShiftN(n, b))
  {
    hide Xor, Shift;
    if n > 0 {
      ShiftNLinear(n - 1, a, b);
      ShiftLinear(ShiftN(n - 1, a), ShiftN(n - 1, b));
    }
  }

  lemma {:induction false} ShiftNShift(n: nat, c: Word)
    ensures ShiftN(n, Shift(c)) == Shift(ShiftN(n, c))
  {
    hide Shift;
    if n > 0 {
      ShiftNShift(n - 1, c);
    }
  }

  // ----- The register form: one bit at a time without the 16 trailing zeros -----

  function TopWord(b: bool): Word {
    Word(Nibble(b, false, false, false), Nib(0), Nib(0), Nib(0))
  }

  function Step(d: Word, b: bool): Word {
    Shift(Xor(d, TopWord(b)))
  }

  function Steps(d: Word, bits: seq<bool>): Word {
    if bits == [] then d else Step(Steps(d, bits[..|bits| - 1]), bits[|bits| - 1])
  }

  lemma {:induction false} RemainderZeros(bits: seq<bool>, n: nat)
    ensures Remainder(bits + Zeros(n)) == ShiftN(n, Remainder(bits))
  {
    hide Xor, Shift;
    if n == 0 {
      assert bits + Zeros(n) == bits;
    } else {
      RemainderZeros(bits, n - 1);
      assert (bits + Zeros(n))[..|bits| + n - 1] == bits + Zeros(n - 1);
      var r := Shift(Remainder(bits + Zeros(n - 1)));
      assert BitWord(false) == Hex(0, 0, 0, 0);
      XorLaws(r, r, r);
    }
  }

  lemma ShiftTop(b: bool)
    ensures Shift(TopWord(b)) == Mask(b)
  {
  }

  lemma StepMask(d: Word, b: bool)
    ensures Step(d, b) == Xor(Shift(d), Mask(b))
  {
    hide Xor, Shift;
    ShiftLinear(d, TopWord(b));
    ShiftTop(b);
  }

  /** x^16 reduces to the rest of the generator. */
  lemma XTo16(b: bool)
    ensures ShiftN(16, BitWord(b)) == Mask(b)
  {
    var x: Nibble, o := Nibble(false, false, false, b), Nib(0);
    FourShifts(0, BitWord(b), o, o, x);
    FourShifts(4, BitWord(b), o, x, o);
    FourShifts(8, BitWord(b), x, o, o);
    assert ShiftN(13, BitWord(b)) == Word(Nibble(false, false, b, false), o, o, o);
    assert ShiftN(15, BitWord(b)) == TopWord(b);
    ShiftTop(b);
  }

  /** Four shifts of a word with an empty top half byte. */
  lemma FourShifts(n: nat, w: Word, x: Nibble, y: Nibble, z: Nibble)
    requires ShiftN(n, w) == Word(Nib(0), x, y, z)
    ensures ShiftN(n + 4, w) == Word(x, y, z, Nib(0))
  {
    assert ShiftN(n + 2, w) == Left(Left(Word(Nib(0), x, y, z)));
  }

  lemma ZeroShifts(n: nat)
    ensures ShiftN(n, Hex(0, 0, 0, 0)) == Hex(0, 0, 0, 0)
  {
    if n > 0 {
      ZeroShifts(n - 1);
    }
  }

  /** Feeding the bits to the register gives the remainder of the bits times x^16. */
  lemma {:induction false} StepsDivide(bits: seq<bool>)
    ensures Steps(Hex(0, 0, 0, 0), bits) == ShiftN(16, Remainder(bits))
  {
    hide Xor, Shift, ShiftN, Step, Mask, BitWord;
    if bits == [] {
      ZeroShifts(16);
    } else {
      var init, b := bits[..|bits| - 1], bits[|bits| - 1];
      var r := Remainder(init);
      StepsDivide(init);
      ShiftNLinear(16, Shift(r), BitWord(b));
      ShiftNShift(16, r);
      XTo16(b);
      StepMask(ShiftN(16, r), b);
    }
  }

  lemma {:induction false} StepsAppend(d: Word, a: seq<bool>, b: seq<bool>)
    ensures Steps(d, a + b) == Steps(Steps(d, a), b)
  {
    hide Step;
    if b == [] {
      assert a + b == a;
    } else {
      StepsAppend(d, a, b[..|b| - 1]);
      assert (a + b)[..|a + b| - 1] == a + b[..|b| - 1];
    }
  }

  // ----- One byte: eight register steps are eight shifts of the byte on top of the register -----

  function LeftN(n: nat, w: Word): Word {
    if n == 0 then w else Left(LeftN(n - 1, w))
  }

  /** The byte in the high half of a word. */
  function OnTop(b: byte): Word {
    Word(High(b), Low(b), Nib(0), Nib(0))
  }

  lemma ByteOut(b: byte, k: nat)
    requires k < 8
    ensures LeftN(k, OnTop(b)).n3.b3 == ByteBits(b)[k] && LeftN(8, OnTop(b)) == Hex(0, 0, 0, 0)
  {
    var w := OnTop(b);
    LeftTwo(0, w);
    LeftTwo(2, w);
    LeftTwo(4, w);
    LeftTwo(6, w);
    if k == 0 {} else if k == 1 {} else if k == 2 {} else if k == 3 {}
    else if k == 4 {} else if k == 5 {} else if k == 6 {} else {}
  }

  lemma LeftTwo(n: nat, w: Word)
    ensures LeftN(n + 1, w) == Left(LeftN(n, w)) && LeftN(n + 2, w) == Left(Left(LeftN(n, w)))
  {
  }

  lemma StepOut(s: Word, w: Word)
    ensures Xor(Step(s, w.n3.b3), Left(w)) == Shift(Xor(s, w))
  {
    hide Xor, Shift, Left, Mask, Step;
    var b := w.n3.b3;
    StepMask(s, b);
    ShiftLinear(s, w);
    ShiftMask(w);
    XorLaws(Left(w), Mask(b), Left(w));
    XorLaws(Shift(s), Mask(b), Left(w));
  }

  /** After k bits, the register and the shifted word differ by what is left of the byte. */
  lemma {:induction false} StepsOfByte(d: Word, b: byte, k: nat)
    requires k <= 8
    ensures Xor(Steps(d, ByteBits(b)[..k]), LeftN(k, OnTop(b))) == ShiftN(k, Xor(d, OnTop(b)))
  {
    hide Xor, Shift, Left, Step, ByteBits, OnTop;
    if k > 0 {
      StepsOfByte(d, b, k - 1);
      assert ByteBits(b)[..k][..k - 1] == ByteBits(b)[..k - 1];
      ByteOut(b, k - 1);
      StepOut(Steps(d, ByteBits(b)[..k - 1]), LeftN(k - 1, OnTop(b)));
    }
  }

  lemma ByteSteps(d: Word, b: byte)
    ensures Steps(d, ByteBits(b)) == ShiftN(8, Xor(d, OnTop(b)))
  {
    hide Xor, Shift, Left, Step, ByteBits, OnTop, Steps, ShiftN;
    StepsOfByte(d, b, 8);
    assert ByteBits(b)[..8] == ByteBits(b);
    ByteOut(b, 0);
    XorLaws(Steps(d, ByteBits(b)), Hex(0, 0, 0, 0), Hex(0, 0, 0, 0));
  }

  // ----- The table -----

  /** Entries 16h to 16h + 15 of the table. */
  function Row(h: nat): (r: seq<Word>)
    requires h < 16
    ensures |r| == 16
  {
    match h
    case 0 =>
      [Hex(0, 0, 0, 0), Hex(1, 0, 2, 1), Hex(2, 0, 4, 2), Hex(3, 0, 6, 3),
       Hex(4, 0, 8, 4), Hex(5, 0, 0xa, 5), Hex(6, 0, 0xc, 6), Hex(7, 0, 0xe, 7),
       Hex(8, 1, 0, 8), Hex(9, 1, 2, 9), Hex(0xa, 1, 4, 0xa), Hex(0xb, 1, 6, 0xb),
       Hex(0xc, 1, 8, 0xc), Hex(0xd, 1, 0xa, 0xd), Hex(0xe, 1, 0xc, 0xe), Hex(0xf, 1, 0xe, 0xf)]
    case 1 =>
      [Hex(1, 2, 3, 1), Hex(0, 2, 1, 0), Hex(3, 2, 7, 3), Hex(2, 2, 5, 2),
       Hex(5, 2, 0xb, 5), Hex(4, 2, 9, 4), Hex(7, 2, 0xf, 7), Hex(6, 2, 0xd, 6),
       Hex(9, 3, 3, 9), Hex(8, 3, 1, 8), Hex(0xb, 3, 7, 0xb), Hex(0xa, 3, 5, 0xa),
       Hex(0xd, 3, 0xb, 0xd), Hex(0xc, 3, 9, 0xc), Hex(0xf, 3, 0xf, 0xf), Hex(0xe, 3, 0xd, 0xe)]
    case 2 =>
      [Hex(2, 4, 6, 2), Hex(3, 4, 4, 3), Hex(0, 4, 2, 0), Hex(1, 4, 0, 1),
       Hex(6, 4, 0xe, 6), Hex(7, 4, 0xc, 7), Hex(4, 4, 0xa, 4), Hex(5, 4, 8, 5),
       Hex(0xa, 5, 6, 0xa), Hex(0xb, 5, 4, 0xb), Hex(8, 5, 2, 8), Hex(9, 5, 0, 9),
       Hex(0xe, 5, 0xe, 0xe), Hex(0xf, 5, 0xc, 0xf), Hex(0xc, 5, 0xa, 0xc), Hex(0xd, 5, 8, 0xd)]
    case 3 =>
      [Hex(3, 6, 5, 3), Hex(2, 6, 7, 2), Hex(1, 6, 1, 1), Hex(0, 6, 3, 0),
       Hex(7, 6, 0xd, 7), Hex(6, 6, 0xf, 6), Hex(5, 6, 9, 5), Hex(4, 6, 0xb, 4),
       Hex(0xb, 7, 5, 0xb), Hex(0xa, 7, 7, 0xa), Hex(9, 7, 1, 9), Hex(8, 7, 3, 8),
       Hex(0xf, 7, 0xd, 0xf), Hex(0xe, 7, 0xf, 0xe), Hex(0xd, 7, 9, 0xd), Hex(0xc, 7, 0xb, 0xc)]
    case 4 =>
      [Hex(4, 8, 0xc, 4), Hex(5, 8, 0xe, 5), Hex(6, 8, 8, 6), Hex(7, 8, 0xa, 7),
       Hex(0, 8, 4, 0), Hex(1, 8, 6, 1), Hex(2, 8, 0, 2), Hex(3, 8, 2, 3),
       Hex(0xc, 9, 0xc, 0xc), Hex(0xd, 9, 0xe, 0xd), Hex(0xe, 9, 8, 0xe), Hex(0xf, 9, 0xa, 0xf),
       Hex(8, 9, 4, 8), Hex(9, 9, 6, 9), Hex(0xa, 9, 0, 0xa), Hex(0xb, 9, 2, 0xb)]
    case 5 =>
      [Hex(5, 0xa, 0xf, 5), Hex(4, 0xa, 0xd, 4), Hex(7, 0xa, 0xb, 7), Hex(6, 0xa, 9, 6),
       Hex(1, 0xa, 7, 1), Hex(0, 0xa, 5, 0), Hex(3, 0xa, 3, 3), Hex(2, 0xa, 1, 2),
       Hex(0xd, 0xb, 0xf, 0xd), Hex(0xc, 0xb, 0xd, 0xc), Hex(0xf, 0xb, 0xb, 0xf), Hex(0xe, 0xb, 9, 0xe),
       Hex(9, 0xb, 7, 9), Hex(8, 0xb, 5, 8), Hex(0xb, 0xb, 3, 0xb), Hex(0xa, 0xb, 1, 0xa)]
    case 6 =>
      [Hex(6, 0xc, 0xa, 6), Hex(7, 0xc, 8, 7), Hex(4, 0xc, 0xe, 4), Hex(5, 0xc, 0xc, 5),
       Hex(2, 0xc, 2, 2), Hex(3, 0xc, 0, 3), Hex(0, 0xc, 6, 0), Hex(1, 0xc, 4, 1),
       Hex(0xe, 0xd, 0xa, 0xe), Hex(0xf, 0xd, 8, 0xf), Hex(0xc, 0xd, 0xe, 0xc), Hex(0xd, 0xd, 0xc, 0xd),
       Hex(0xa, 0xd, 2, 0xa), Hex(0xb, 0xd, 0, 0xb), Hex(8, 0xd, 6, 8), Hex(9, 0xd, 4, 9)]
    case 7 =>
      [Hex(7, 0xe, 9, 7), Hex(6, 0xe, 0xb, 6), Hex(5, 0xe, 0xd, 5), Hex(4, 0xe, 0xf, 4),
       Hex(3, 0xe, 1, 3), Hex(2, 0xe, 3, 2), Hex(1, 0xe, 5, 1), Hex(0, 0xe, 7, 0),
       Hex(0xf, 0xf, 9, 0xf), Hex(0xe, 0xf, 0xb, 0xe), Hex(0xd, 0xf, 0xd, 0xd), Hex(0xc, 0xf, 0xf, 0xc),
       Hex(0xb, 0xf, 1, 0xb), Hex(0xa, 0xf, 3, 0xa), Hex(9, 0xf, 5, 9), Hex(8, 0xf, 7, 8)]
    case 8 =>
      [Hex(9, 1, 8, 8), Hex(8, 1, 0xa, 9), Hex(0xb, 1, 0xc, 0xa), Hex(0xa, 1, 0xe, 0xb),
       Hex(0xd, 1, 0, 0xc), Hex(0xc, 1, 2, 0xd), Hex(0xf, 1, 4, 0xe), Hex(0xe, 1, 6, 0xf),
       Hex(1, 0, 8, 0), Hex(0, 0, 0xa, 1), Hex(3, 0, 0xc, 2), Hex(2, 0, 0xe, 3),
       Hex(5, 0, 0, 4), Hex(4, 0, 2, 5), Hex(7, 0, 4, 6), Hex(6, 0, 6, 7)]
    case 9 =>
      [Hex(8, 3, 0xb, 9), Hex(9, 3, 9, 8), Hex(0xa, 3, 0xf, 0xb), Hex(0xb, 3, 0xd, 0xa),
       Hex(0xc, 3, 3, 0xd), Hex(0xd, 3, 1, 0xc), Hex(0xe, 3, 7, 0xf), Hex(0xf, 3, 5, 0xe),
       Hex(0, 2, 0xb, 1), Hex(1, 2, 9, 0), Hex(2, 2, 0xf, 3), Hex(3, 2, 0xd, 2),
       Hex(4, 2, 3, 5), Hex(5, 2, 1, 4), Hex(6, 2, 7, 7), Hex(7, 2, 5, 6)]
    case 10 =>
      [Hex(0xb, 5, 0xe, 0xa), Hex(0xa, 5, 0xc, 0xb), Hex(9, 5, 0xa, 8), Hex(8, 5, 8, 9),
       Hex(0xf, 5, 6, 0xe), Hex(0xe, 5, 4, 0xf), Hex(0xd, 5, 2, 0xc), Hex(0xc, 5, 0, 0xd),
       Hex(3, 4, 0xe, 2), Hex(2, 4, 0xc, 3), Hex(1, 4, 0xa, 0), Hex(0, 4, 8, 1),
       Hex(7, 4, 6, 6), Hex(6, 4, 4, 7), Hex(5, 4, 2, 4), Hex(4, 4, 0, 5)]
    case 11 =>
      [Hex(0xa, 7, 0xd, 0xb), Hex(0xb, 7, 0xf, 0xa), Hex(8, 7, 9, 9), Hex(9, 7, 0xb, 8),
       Hex(0xe, 7, 5, 0xf), Hex(0xf, 7, 7, 0xe), Hex(0xc, 7, 1, 0xd), Hex(0xd, 7, 3, 0xc),
       Hex(2, 6, 0xd, 3), Hex(3, 6, 0xf, 2), Hex(0, 6, 9, 1), Hex(1, 6, 0xb, 0),
       Hex(6, 6, 5, 7), Hex(7, 6, 7, 6), Hex(4, 6, 1, 5), Hex(5, 6, 3, 4)]
    case 12 =>
      [Hex(0xd, 9, 4, 0xc), Hex(0xc, 9, 6, 0xd), Hex(0xf, 9, 0, 0xe), Hex(0xe, 9, 2, 0xf),
       Hex(9, 9, 0xc, 8), Hex(8, 9, 0xe, 9), Hex(0xb, 9, 8, 0xa), Hex(0xa, 9, 0xa, 0xb),
       Hex(5, 8, 4, 4), Hex(4, 8, 6, 5), Hex(7, 8, 0, 6), Hex(6, 8, 2, 7),
       Hex(1, 8, 0xc, 0), Hex(0, 8, 0xe, 1), Hex(3, 8, 8, 2), Hex(2, 8, 0xa, 3)]
    case 13 =>
      [Hex(0xc, 0xb, 7, 0xd), Hex(0xd, 0xb, 5, 0xc), Hex(0xe, 0xb, 3, 0xf), Hex(0xf, 0xb, 1, 0xe),
       Hex(8, 0xb, 0xf, 9), Hex(9, 0xb, 0xd, 8), Hex(0xa, 0xb, 0xb, 0xb), Hex(0xb, 0xb, 9, 0xa),
       Hex(4, 0xa, 7, 5), Hex(5, 0xa, 5, 4), Hex(6, 0xa, 3, 7), Hex(7, 0xa, 1, 6),
       Hex(0, 0xa, 0xf, 1), Hex(1, 0xa, 0xd, 0), Hex(2, 0xa, 0xb, 3), Hex(3, 0xa, 9, 2)]
    case 14 =>
      [Hex(0xf, 0xd, 2, 0xe), Hex(0xe, 0xd, 0, 0xf), Hex(0xd, 0xd, 6, 0xc), Hex(0xc, 0xd, 4, 0xd),
       Hex(0xb, 0xd, 0xa, 0xa), Hex(0xa, 0xd, 8, 0xb), Hex(9, 0xd, 0xe, 8), Hex(8, 0xd, 0xc, 9),
       Hex(7, 0xc, 2, 6), Hex(6, 0xc, 0, 7), Hex(5, 0xc, 6, 4), Hex(4, 0xc, 4, 5),
       Hex(3, 0xc, 0xa, 2), Hex(2, 0xc, 8, 3), Hex(1, 0xc, 0xe, 0), Hex(0, 0xc, 0xc, 1)]
    case _ =>
      [Hex(0xe, 0xf, 1, 0xf), Hex(0xf, 0xf, 3, 0xe), Hex(0xc, 0xf, 5, 0xd), Hex(0xd, 0xf, 7, 0xc),
       Hex(0xa, 0xf, 9, 0xb), Hex(0xb, 0xf, 0xb, 0xa), Hex(8, 0xf, 0xd, 9), Hex(9, 0xf, 0xf, 8),
       Hex(6, 0xe, 1, 7), Hex(7, 0xe, 3, 6), Hex(4, 0xe, 5, 5), Hex(5, 0xe, 7, 4),
       Hex(2, 0xe, 9, 3), Hex(3, 0xe, 0xb, 2), Hex(0, 0xe, 0xd, 1), Hex(1, 0xe, 0xf, 0)]
  }

  /** Entry l of row h. */
  function Entry(h: nat, l: nat): Word
    requires h < 16 && l < 16
  {
    Row(h)[l]
  }

  function CrcTable(h: Nibble, l: Nibble): Word {
    Entry(NibValue(h), NibValue(l))
  }

  /** A row with every entry shifted by the same word. */
  function XorRow(first: Word, base: seq<Word>): (row: seq<Word>)
    requires |base| == 16
    ensures |row| == 16
  {
    [Xor(first, base[0]), Xor(first, base[1]), Xor(first, base[2]), Xor(first, base[3]),
     Xor(first, base[4]), Xor(first, base[5]), Xor(first, base[6]), Xor(first, base[7]),
     Xor(first, base[8]), Xor(first, base[9]), Xor(first, base[10]), Xor(first, base[11]),
     Xor(first, base[12]), Xor(first, base[13]), Xor(first, base[14]), Xor(first, base[15])]
  }

  lemma FirstRows()
    ensures Row(0) == XorRow(Row(0)[0], Row(0))
    ensures Row(1) == XorRow(Row(1)[0], Row(0))
    ensures Row(2) == XorRow(Row(2)[0], Row(0))
    ensures Row(3) == XorRow(Row(3)[0], Row(0))
  {
  }

  lemma NextRows()
    ensures Row(4) == XorRow(Row(4)[0], Row(0))
    ensures Row(5) == XorRow(Row(5)[0], Row(0))
    ensures Row(6) == XorRow(Row(6)[0], Row(0))
    ensures Row(7) == XorRow(Row(7)[0], Row(0))
  {
  }

  lemma LaterRows()
    ensures Row(8) == XorRow(Row(8)[0], Row(0))
    ensures Row(9) == XorRow(Row(9)[0], Row(0))
    ensures Row(10) == XorRow(Row(10)[0], Row(0))
    ensures Row(11) == XorRow(Row(11)[0], Row(0))
  {
  }

  lemma LastRows()
    ensures Row(12) == XorRow(Row(12)[0], Row(0))
    ensures Row(13) == XorRow(Row(13)[0], Row(0))
    ensures Row(14) == XorRow(Row(14)[0], Row(0))
    ensures Row(15) == XorRow(Row(15)[0], Row(0))
  {
  }

  /** Each row is row 0 shifted by the first entry of the row. */
  lemma RowShifted(h: nat)
    requires h < 16
    ensures Row(h) == XorRow(Row(h)[0], Row(0))
  {
    hide Row, XorRow;
    if h < 4 {
      FirstRows();
    } else if h < 8 {
      NextRows();
    } else if h < 12 {
      LaterRows();
    } else {
      LastRows();
    }
  }

  lemma FirstEntries()
    ensures Row(0)[0] == Hex(0, 0, 0, 0) && Row(1)[0] == Hex(1, 2, 3, 1)
    ensures Row(2)[0] == Hex(2, 4, 6, 2) && Row(3)[0] == Hex(3, 6, 5, 3)
    ensures Row(4)[0] == Hex(4, 8, 0xc, 4) && Row(5)[0] == Hex(5, 0xa, 0xf, 5)
    ensures Row(6)[0] == Hex(6, 0xc, 0xa, 6) && Row(7)[0] == Hex(7, 0xe, 9, 7)
  {
  }

  lemma MiddleEntries()
    ensures Row(8)[0] == Hex(9, 1, 8, 8) && Row(9)[0] == Hex(8, 3, 0xb, 9)
    ensures Row(10)[0] == Hex(0xb, 5, 0xe, 0xa) && Row(11)[0] == Hex(0xa, 7, 0xd, 0xb)
  {
  }

  lemma LastEntries()
    ensures Row(12)[0] == Hex(0xd, 9, 4, 0xc) && Row(13)[0] == Hex(0xc, 0xb, 7, 0xd)
    ensures Row(14)[0] == Hex(0xf, 0xd, 2, 0xe) && Row(15)[0] == Hex(0xe, 0xf, 1, 0xf)
  {
  }

  /** The first entries of the rows: each is twice an earlier one, or that and the entry of row 1. */
  lemma FirstColumn()
    ensures Row(1)[0] == Shift(Row(0)[8])
    ensures Row(2)[0] == Shift(Row(1)[0]) && Row(3)[0] == Xor(Row(2)[0], Row(1)[0])
    ensures Row(4)[0] == Shift(Row(2)[0]) && Row(5)[0] == Xor(Row(4)[0], Row(1)[0])
    ensures Row(6)[0] == Shift(Row(3)[0]) && Row(7)[0] == Xor(Row(6)[0], Row(1)[0])
    ensures Row(8)[0] == Shift(Row(4)[0]) && Row(9)[0] == Xor(Row(8)[0], Row(1)[0])
    ensures Row(10)[0] == Shift(Row(5)[0]) && Row(11)[0] == Xor(Row(10)[0], Row(1)[0])
    ensures Row(12)[0] == Shift(Row(6)[0]) && Row(13)[0] == Xor(Row(12)[0], Row(1)[0])
    ensures Row(14)[0] == Shift(Row(7)[0]) && Row(15)[0] == Xor(Row(14)[0], Row(1)[0])
  {
    hide Row;
    FirstEntries();
    MiddleEntries();
    LastEntries();
    Eighth();
  }

  lemma Eighth()
    ensures Row(0)[8] == Hex(8, 1, 0, 8)
  {
  }

  /** Row 0 doubles in the same way. */
  lemma FirstRow()
    ensures Row(0)[0] == Hex(0, 0, 0, 0) && Row(0)[1] == Hex(1, 0, 2, 1)
    ensures Row(0)[2] == Shift(Row(0)[1]) && Row(0)[3] == Xor(Row(0)[2], Row(0)[1])
    ensures Row(0)[4] == Shift(Row(0)[2]) && Row(0)[5] == Xor(Row(0)[4], Row(0)[1])
    ensures Row(0)[6] == Shift(Row(0)[3]) && Row(0)[7] == Xor(Row(0)[6], Row(0)[1])
  {
  }

  lemma FirstRowUpper()
    ensures Row(0)[8] == Shift(Row(0)[4]) && Row(0)[9] == Xor(Row(0)[8], Row(0)[1])
    ensures Row(0)[10] == Shift(Row(0)[5]) && Row(0)[11] == Xor(Row(0)[10], Row(0)[1])
    ensures Row(0)[12] == Shift(Row(0)[6]) && Row(0)[13] == Xor(Row(0)[12], Row(0)[1])
    ensures Row(0)[14] == Shift(Row(0)[7]) && Row(0)[15] == Xor(Row(0)[14], Row(0)[1])
  {
  }

  /** The byte with the given halves on top of an empty word. */
  function Tops(h: nat, l: nat): Word
    requires h < 16 && l < 16
  {
    Word(Nib(h), Nib(l), Nib(0), Nib(0))
  }

  lemma TopsDouble(l: nat)
    requires l < 8
    ensures Tops(0, 2 * l) == Shift(Tops(0, l)) && Tops(0, 2 * l + 1) == Xor(Tops(0, 2 * l), Tops(0, 1))
    ensures Tops(2 * l, 0) == Shift(Tops(l, 0)) && Tops(2 * l + 1, 0) == Xor(Tops(2 * l, 0), Tops(1, 0))
    ensures Tops(1, 0) == Shift(Tops(0, 8))
  {
    if l == 0 {} else if l == 1 {} else if l == 2 {} else if l == 3 {}
    else if l == 4 {} else if l == 5 {} else if l == 6 {} else {}
  }

  lemma TopsParts(h: nat, l: nat)
    requires h < 16 && l < 16
    ensures Tops(h, l) == Xor(Tops(h, 0), Tops(0, l))
  {
  }

  /** The table follows the same doubling. */
  lemma FirstRowDouble(l: nat)
    requires 1 <= l < 8
    ensures Entry(0, 2 * l) == Shift(Entry(0, l)) && Entry(0, 2 * l + 1) == Xor(Entry(0, 2 * l), Entry(0, 1))
  {
    hide Shift, Xor, Row;
    FirstRow();
    FirstRowUpper();
    if l == 1 {} else if l == 2 {} else if l == 3 {} else if l == 4 {} else if l == 5 {} else if l == 6 {} else {}
  }

  lemma FirstColumnDouble(h: nat)
    requires 1 <= h < 8
    ensures Entry(2 * h, 0) == Shift(Entry(h, 0)) && Entry(2 * h + 1, 0) == Xor(Entry(2 * h, 0), Entry(1, 0))
  {
    hide Shift, Xor, Row;
    FirstColumn();
    if h == 1 {} else if h == 2 {} else if h == 3 {} else if h == 4 {} else if h == 5 {} else if h == 6 {} else {}
  }

  lemma {:induction false} FirstRowCorrect(l: nat)
    requires l < 16
    ensures Entry(0, l) == ShiftN(8, Tops(0, l))
  {
    hide Shift, Xor, Tops, ShiftN, Entry;
    if l < 2 {
      FirstTwo(l);
    } else {
      var k := l / 2;
      FirstRowCorrect(k);
      FirstRowCorrect(1);
      FirstRowDouble(k);
      TopsDouble(k);
      ShiftNShift(8, Tops(0, k));
      ShiftNLinear(8, Tops(0, 2 * k), Tops(0, 1));
    }
  }

  lemma FirstTwo(l: nat)
    requires l < 2
    ensures Entry(0, l) == ShiftN(8, Tops(0, l))
  {
    hide Row;
    FirstRow();
    if l == 0 {
      ZeroShifts(8);
      assert Tops(0, 0) == Hex(0, 0, 0, 0);
    } else {
      // the entry for 1 is x^16 reduced: 0x0100 shifted eight times, or 1 shifted sixteen times
      XTo16(true);
      var o := Nib(0);
      FourShifts(0, BitWord(true), o, o, Nib(1));
      FourShifts(4, BitWord(true), o, Nib(1), o);
      ShiftNSum(8, 8, BitWord(true));
      assert Tops(0, 1) == ShiftN(8, BitWord(true));
    }
  }

  lemma {:induction false} ShiftNSum(m: nat, n: nat, c: Word)
    ensures ShiftN(m + n, c) == ShiftN(m, ShiftN(n, c))
  {
    hide Shift;
    if m > 0 {
      ShiftNSum(m - 1, n, c);
    }
  }

  lemma {:induction false} FirstColumnCorrect(h: nat)
    requires h < 16
    ensures Entry(h, 0) == ShiftN(8, Tops(h, 0))
  {
    hide Shift, Xor, Tops, ShiftN, Entry;
    if h == 0 {
      FirstRowCorrect(0);
    } else if h == 1 {
      FirstRowCorrect(8);
      TopsDouble(0);
      ShiftNShift(8, Tops(0, 8));
      RowOne();
    } else {
      var k := h / 2;
      FirstColumnCorrect(k);
      FirstColumnCorrect(1);
      FirstColumnDouble(k);
      TopsDouble(k);
      ShiftNShift(8, Tops(k, 0));
      ShiftNLinear(8, Tops(2 * k, 0), Tops(1, 0));
    }
  }

  lemma RowOne()
    ensures Entry(1, 0) == Shift(Entry(0, 8))
  {
    hide Shift, Row;
    FirstColumn();
  }

  lemma EntryParts(h: nat, l: nat)
    requires h < 16 && l < 16
    ensures Entry(h, l) == Xor(Entry(h, 0), Entry(0, l))
  {
    hide Row, Xor;
    RowShifted(h);
    XorRowAt(Row(h)[0], Row(0), l);
  }

  lemma XorRowAt(first: Word, base: seq<Word>, l: nat)
    requires |base| == 16 && l < 16
    ensures XorRow(first, base)[l] == Xor(first, base[l])
  {
    hide Xor;
    if l < 8 {
      if l == 0 {} else if l == 1 {} else if l == 2 {} else if l == 3 {}
      else if l == 4 {} else if l == 5 {} else if l == 6 {} else {}
    } else {
      if l == 8 {} else if l == 9 {} else if l == 10 {} else if l == 11 {}
      else if l == 12 {} else if l == 13 {} else if l == 14 {} else {}
    }
  }

  /** Every table entry is the remainder of its byte times x^16. */
  lemma TableCorrect(h: Nibble, l: Nibble)
    ensures CrcTable(h, l) == ShiftN(8, Word(h, l, Nib(0), Nib(0)))
  {
    hide Xor, Tops, ShiftN, Entry;
    var i, j := NibValue(h), NibValue(l);
    FirstColumnCorrect(i);
    FirstRowCorrect(j);
    EntryParts(i, j);
    TopsParts(i, j);
    ShiftNLinear(8, Tops(i, 0), Tops(0, j));
    assert Tops(i, j) == Word(h, l, Nib(0), Nib(0)) by { TopsWord(h, l); }
  }

  lemma TopsWord(h: Nibble, l: Nibble)
    ensures Tops(NibValue(h), NibValue(l)) == Word(h, l, Nib(0), Nib(0))
  {
  }

  // ----- The loop -----

  /** `crc = (crc << 8) ^ crctable[((crc >> 8) ^ b) & 0x00FF]` */
  function Update(crc: Word, b: byte): Word {
    Xor(Left8(crc), CrcTable(XorNibble(crc.n3, High(b)), XorNibble(crc.n2, Low(b))))
  }

  /** One turn of the table loop is eight register steps. */
  lemma UpdateSteps(crc: Word, b: byte)
    ensures Update(crc, b) == Steps(crc, ByteBits(b))
  {
    hide CrcTable, ByteBits, Steps, ShiftN, Xor;
    var x, o := Xor(crc, OnTop(b)), Nib(0);
    ByteSteps(crc, b);
    var hi, lo := Word(x.n3, x.n2, o, o), Word(o, o, x.n1, x.n0);
    OnTopParts(crc, b);
    ShiftNLinear(8, lo, hi);
    LowByte(x.n1, x.n0);
    TableCorrect(x.n3, x.n2);
  }

  lemma OnTopParts(crc: Word, b: byte)
    ensures
      var x, o := Xor(crc, OnTop(b)), Nib(0);
      && x.n3 == XorNibble(crc.n3, High(b)) && x.n2 == XorNibble(crc.n2, Low(b)) && x.n1 == crc.n1 && x.n0 == crc.n0
      && x == Xor(Word(o, o, x.n1, x.n0), Word(x.n3, x.n2, o, o))
  {
    hide High, Low;
  }

  lemma LowByte(m: Nibble, n: Nibble)
    ensures ShiftN(8, Word(Nib(0), Nib(0), m, n)) == Word(m, n, Nib(0), Nib(0))
  {
    hide ShiftN, Shift, Nib;
    NoShift(Word(Nib(0), Nib(0), m, n));
    FourShifts(0, Word(Nib(0), Nib(0), m, n), Nib(0), m, n);
    FourShifts(4, Word(Nib(0), Nib(0), m, n), m, n, Nib(0));
  }

  lemma NoShift(w: Word)
    ensures ShiftN(0, w) == w
  {
  }

  /** The table loop divides by the polynomial, on every byte string. */
  method Crc16(str: bytes) returns (crc: Word)
    ensures crc == Crc(str)
  {
    hide Xor, Steps, ByteBits, ShiftN, Remainder, Update;
    crc := Hex(0, 0, 0, 0);
    assert str[..0] == [];
    NoSteps();
    for i := 0 to |str|
      invariant crc == Steps(Hex(0, 0, 0, 0), Bits(str[..i]))
    {
      UpdateSteps(crc, str[i]);
      assert str[..i + 1][..i] == str[..i];
      StepsAppend(Hex(0, 0, 0, 0), Bits(str[..i]), ByteBits(str[i]));
      crc := Updated(crc, str[i]);
    }
    assert str[..|str|] == str;
    StepsDivide(Bits(str));
    RemainderZeros(Bits(str), 16);
  }

  lemma NoSteps()
    ensures Steps(Hex(0, 0, 0, 0), []) == Hex(0, 0, 0, 0)
  {
  }

  method Updated(crc: Word, b: byte) returns (r: Word)
    ensures r == Update(crc, b)
  {
    r := Xor(Left8(crc), CrcTable(XorNibble(crc.n3, High(b)), XorNibble(crc.n2, Low(b))));
  }

  // ----- The check value of this CRC -----

  lemma {:induction false} CrcSteps(s: bytes)
    ensures Crc(s) == Steps(Hex(0, 0, 0, 0), Bits(s))
  {
    StepsDivide(Bits(s));
    RemainderZeros(Bits(s), 16);
  }

  lemma CrcMore(s: bytes, b: byte)
    ensures Crc(s + [b]) == Update(Crc(s), b)
  {
    hide Crc, Steps, Update, ByteBits;
    CrcSteps(s);
    CrcSteps(s + [b]);
    assert (s + [b])[..|s|] == s;
    StepsAppend(Hex(0, 0, 0, 0), Bits(s), ByteBits(b));
    UpdateSteps(Crc(s), b);
  }

  lemma HexValue(a: nat, b: nat, c: nat, d: nat)
    requires a < 16 && b < 16 && c < 16 && d < 16
    ensures WordValue(Hex(a, b, c, d)) == 4096 * a + 256 * b + 16 * c + d
  {
    NibNumber(a);
    NibNumber(b);
    NibNumber(c);
    NibNumber(d);
  }

  lemma NibNumber(d: nat)
    requires d < 16
    ensures NibValue(Nib(d)) == d
  {
  }

  /** One turn of the loop, given the table entry that it takes. */
  lemma Updating(crc: Word, b: byte, h: nat, l: nat, crc': Word)
    requires h < 16 && l < 16 && XorNibble(crc.n3, High(b)) == Nib(h) && XorNibble(crc.n2, Low(b)) == Nib(l)
    requires crc' == Xor(Left8(crc), Entry(h, l))
    ensures Update(crc, b) == crc'
  {
    hide Xor, Entry;
    NibNumber(h);
    NibNumber(l);
  }

  lemma EarlyEntries()
    ensures Entry(3, 1) == Hex(2, 6, 7, 2) && Entry(1, 4) == Hex(5, 2, 0xb, 5)
    ensures Entry(1, 3) == Hex(2, 2, 5, 2)
  {
    hide Xor;
  }

  lemma InnerEntries()
    ensures Entry(10, 3) == Hex(8, 5, 8, 9) && Entry(14, 2) == Hex(0xd, 0xd, 6, 0xc)
    ensures Entry(6, 2) == Hex(4, 0xc, 0xe, 4)
  {
    hide Xor;
  }

  lemma LateEntries()
    ensures Entry(1, 7) == Hex(6, 2, 0xd, 6) && Entry(11, 14) == Hex(4, 6, 1, 5)
    ensures Entry(10, 9) == Hex(2, 4, 0xc, 3)
  {
    hide Xor;
  }

  lemma FirstByte()
    ensures Update(Hex(0, 0, 0, 0), 49) == Hex(2, 6, 7, 2)
  {
    hide Update, Row, Entry;
    EarlyEntries();
    Updating(Hex(0, 0, 0, 0), 49, 3, 1, Hex(2, 6, 7, 2));
  }

  lemma SecondByte()
    ensures Update(Hex(2, 6, 7, 2), 50) == Hex(2, 0, 0xb, 5)
  {
    hide Update, Row, Entry;
    EarlyEntries();
    Updating(Hex(2, 6, 7, 2), 50, 1, 4, Hex(2, 0, 0xb, 5));
  }

  lemma ThirdByte()
    ensures Update(Hex(2, 0, 0xb, 5), 51) == Hex(9, 7, 5, 2)
  {
    hide Update, Row, Entry;
    EarlyEntries();
    Updating(Hex(2, 0, 0xb, 5), 51, 1, 3, Hex(9, 7, 5, 2));
  }

  lemma FourthByte()
    ensures Update(Hex(9, 7, 5, 2), 52) == Hex(0xd, 7, 8, 9)
  {
    hide Update, Row, Entry;
    InnerEntries();
    Updating(Hex(9, 7, 5, 2), 52, 10, 3, Hex(0xd, 7, 8, 9));
  }

  lemma FifthByte()
    ensures Update(Hex(0xd, 7, 8, 9), 53) == Hex(5, 4, 6, 0xc)
  {
    hide Update, Row, Entry;
    InnerEntries();
    Updating(Hex(0xd, 7, 8, 9), 53, 14, 2, Hex(5, 4, 6, 0xc));
  }

  lemma SixthByte()
    ensures Update(Hex(5, 4, 6, 0xc), 54) == Hex(2, 0, 0xe, 4)
  {
    hide Update, Row, Entry;
    InnerEntries();
    Updating(Hex(5, 4, 6, 0xc), 54, 6, 2, Hex(2, 0, 0xe, 4));
  }

  lemma SeventhByte()
    ensures Update(Hex(2, 0, 0xe, 4), 55) == Hex(8, 6, 0xd, 6)
  {
    hide Update, Row, Entry;
    LateEntries();
    Updating(Hex(2, 0, 0xe, 4), 55, 1, 7, Hex(8, 6, 0xd, 6));
  }

  lemma EighthByte()
    ensures Update(Hex(8, 6, 0xd, 6), 56) == Hex(9, 0, 1, 5)
  {
    hide Update, Row, Entry;
    LateEntries();
    Updating(Hex(8, 6, 0xd, 6), 56, 11, 14, Hex(9, 0, 1, 5));
  }

  lemma NinthByte()
    ensures Update(Hex(9, 0, 1, 5), 57) == Hex(3, 1, 0xc, 3)
  {
    hide Update, Row, Entry;
    LateEntries();
    Updating(Hex(9, 0, 1, 5), 57, 10, 9, Hex(3, 1, 0xc, 3));
  }

  /** The CRC of "123456789" is 0x31C3. */
  lemma CheckValue()
    ensures Crc([49, 50, 51, 52, 53, 54, 55, 56, 57]) == Hex(3, 1, 0xc, 3)
    ensures WordValue(Crc([49, 50, 51, 52, 53, 54, 55, 56, 57])) == 0x31c3
  {
    hide Update, Bits, Hex, Crc, WordValue;
    HexValue(3, 1, 0xc, 3);
    FirstByte();
    SecondByte();
    ThirdByte();
    FourthByte();
    FifthByte();
    SixthByte();
    SeventhByte();
    EighthByte();
    NinthByte();
    NoBytes();
    CrcMore([], 49);
    assert [] + [49] == [49];
    assert [49] + [50] == [49, 50];
    CrcMore([49], 50);
    assert [49, 50] + [51] == [49, 50, 51];
    CrcMore([49, 50], 51);
    assert [49, 50, 51] + [52] == [49, 50, 51, 52];
    CrcMore([49, 50, 51], 52);
    assert [49, 50, 51, 52] + [53] == [49, 50, 51, 52, 53];
    CrcMore([49, 50, 51, 52], 53);
    assert [49, 50, 51, 52, 53] + [54] == [49, 50, 51, 52, 53, 54];
    CrcMore([49, 50, 51, 52, 53], 54);
    assert [49, 50, 51, 52, 53, 54] + [55] == [49, 50, 51, 52, 53, 54, 55];
    CrcMore([49, 50, 51, 52, 53, 54], 55);
    assert [49, 50, 51, 52, 53, 54, 55] + [56] == [49, 50, 51, 52, 53, 54, 55, 56];
    CrcMore([49, 50, 51, 52, 53, 54, 55], 56);
    assert [49, 50, 51, 52, 53, 54, 55, 56] + [57] == [49, 50, 51, 52, 53, 54, 55, 56, 57];
    CrcMore([49, 50, 51, 52, 53, 54, 55, 56], 57);
  }

  lemma NoBytes()
    ensures Crc([]) == Hex(0, 0, 0, 0)
  {
    hide Xor, Shift;
    CrcSteps([]);
  }
}
