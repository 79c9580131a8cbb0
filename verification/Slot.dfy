/** `CClusterSupport::getSlot` of MiddleWare.cpp: the hash slot of a key, or of its hash tag. */
module Slot {
  import opened Bytes
  import Crc16

  const SLOTS := 16384
  const UINT32_MAX: nat := 0xffff_ffff
  const OPEN: byte := 123
  const CLOSE: byte := 125

  /** The first index from `start` on that holds b, or the length. */
  function IndexOf(s: bytes, b: byte, start: nat): (k: nat)
    requires start <= |s|
    ensures start <= k <= |s| && (k < |s| ==> s[k] == b) && forall i :: start <= i < k ==> s[i] != b
    decreases |s| - start
  {
    if start == |s| || s[start] == b then start else IndexOf(s, b, start + 1)
  }

  /** The part of a key that is hashed: between the first '{' and the first '}' after it, if that is not empty. */
  function HashTag(key: bytes): bytes {
    var s := IndexOf(key, OPEN, 0);
    if s == |key| then key
    else
      var e := IndexOf(key, CLOSE, s + 1);
      if e == |key| || e == s + 1 then key else key[s + 1..e]
  }

  function SlotOf(key: bytes): (slot: nat)
    ensures slot < SLOTS
  {
    Crc16.WordValue(Crc16.Crc(HashTag(key))) % SLOTS
  }

  /** The low 14 bits of a word. */
  function And3fff(w: Crc16.Word): (v: nat)
    ensures v == Crc16.WordValue(w) % SLOTS
  {
    TopNibble(w.n3);
    MaskedValue(Crc16.NibValue(w.n3) / 4, Crc16.NibValue(w.n3) % 4, Crc16.WordValue(w) - 4096 * Crc16.NibValue(w.n3));
    Crc16.WordValue(w.(n3 := Crc16.Nibble(false, false, w.n3.b1, w.n3.b0)))
  }

  lemma TopNibble(n: Crc16.Nibble)
    ensures Crc16.NibValue(Crc16.Nibble(false, false, n.b1, n.b0)) == Crc16.NibValue(n) % 4
  {
  }

  lemma MaskedValue(q: nat, r: nat, rest: nat)
    requires r < 4 && rest < 4096
    ensures (4096 * (4 * q + r) + rest) % SLOTS == 4096 * r + rest
  {
    assert 4096 * (4 * q + r) + rest == SLOTS * q + (4096 * r + rest);
  }

  method Find(key: bytes, b: byte, start: nat) returns (k: nat)
    requires start <= |key|
    ensures k == IndexOf(key, b, start)
  {
    k := start;
    while k < |key|
      invariant start <= k <= |key| && IndexOf(key, b, k) == IndexOf(key, b, start)
    {
      if key[k] == b { break; }
      k := k + 1;
    }
  }

  /** The key goes on with rest after its first '{'. */
  predicate Opens(key: bytes, prefix: bytes, rest: bytes) {
    key == prefix + [123] + rest && 123 !in prefix
  }

  /** The key has a hash tag. */
  predicate Tagged(key: bytes, prefix: bytes, tag: bytes, suffix: bytes) {
    Opens(key, prefix, tag + [125] + suffix) && tag != [] && 125 !in tag
  }

  /** The CRC modulo 2^14: the remainder of the bytes times x^16 by the generator, as a number. */
  ghost predicate InSlot(s: bytes, slot: nat) {
    slot == Crc16.WordValue(Crc16.Remainder(Crc16.Bits(s) + Crc16.Zeros(16))) % 16384
  }

  /**
   The slot of the whole key, when it has no '{', or no '}' after the first '{', or "{}" there; otherwise that of the
   bytes between the first '{' and the first '}' after it. A NULL key has no slot.
   */
  method GetSlot(key: Option<bytes>) returns (slot: nat)
    ensures key.None? ==> slot == 0xffff_ffff
    ensures key.Some? && 123 !in key.value ==> InSlot(key.value, slot)
    ensures key.Some? ==> forall prefix, rest ::
              Opens(key.value, prefix, rest) && (125 !in rest || rest[0] == 125) ==> InSlot(key.value, slot)
    ensures key.Some? ==> forall prefix, tag, suffix :: Tagged(key.value, prefix, tag, suffix) ==> InSlot(tag, slot)
    ensures key.Some? ==> slot == SlotOf(key.value)
  {
    hide Crc16.WordValue, Crc16.Crc, InSlot, Opens, Tagged, And3fff;
    if key.Some? { SlotLaws(key.value); }
    if key.None? {
      return UINT32_MAX;
    }
    var k := key.value;
    var s := Find(k, OPEN, 0);
    if s == |k| {
      var crc := Crc16.Crc16(k);
      return And3fff(crc);
    }
    var e := Find(k, CLOSE, s + 1);
    if e == |k| || e == s + 1 {
      var crc := Crc16.Crc16(k);
      return And3fff(crc);
    }
    var crc := Crc16.Crc16(k[s + 1..e]);
    return And3fff(crc);
  }

  lemma SlotLaws(key: bytes)
    ensures 123 !in key ==> InSlot(key, SlotOf(key))
    ensures forall prefix, rest ::
              Opens(key, prefix, rest) && (125 !in rest || rest[0] == 125) ==> InSlot(key, SlotOf(key))
    ensures forall prefix, tag, suffix :: Tagged(key, prefix, tag, suffix) ==> InSlot(tag, SlotOf(key))
  {
    hide Crc16.WordValue, Crc16.Remainder, Crc16.Bits, IndexOf;
    forall prefix, rest | Opens(key, prefix, rest) && (125 !in rest || rest[0] == 125)
      ensures HashTag(key) == key
    {
      WholeHashed(key, prefix, rest);
    }
    forall prefix, tag, suffix | Tagged(key, prefix, tag, suffix)
      ensures HashTag(key) == tag
    {
      TagHashed(key, prefix, tag, suffix);
    }
  }

  lemma OpensAt(key: bytes, prefix: bytes, rest: bytes)
    requires Opens(key, prefix, rest)
    ensures IndexOf(key, OPEN, 0) == |prefix|
  {
    assert key[|prefix|] == OPEN && forall i :: 0 <= i < |prefix| ==> key[i] == prefix[i];
  }

  lemma WholeHashed(key: bytes, prefix: bytes, rest: bytes)
    requires Opens(key, prefix, rest) && (CLOSE !in rest || rest[0] == CLOSE)
    ensures HashTag(key) == key
  {
    hide IndexOf;
    OpensAt(key, prefix, rest);
    var s := |prefix|;
    assert forall i :: s < i < |key| ==> key[i] == rest[i - s - 1];
    if CLOSE in rest {
      assert key[s + 1] == CLOSE;
    }
  }

  lemma TagHashed(key: bytes, prefix: bytes, tag: bytes, suffix: bytes)
    requires Tagged(key, prefix, tag, suffix)
    ensures HashTag(key) == tag
  {
    hide IndexOf;
    var rest := tag + [CLOSE] + suffix;
    var s, e := |prefix|, |prefix| + 1 + |tag|;
    OpensAt(key, prefix, rest);
    assert forall i :: s < i < |key| ==> key[i] == rest[i - s - 1];
    assert forall i :: s < i < e ==> key[i] == tag[i - s - 1];
    assert key[e] == CLOSE by { assert rest[|tag|] == CLOSE; }
    assert IndexOf(key, CLOSE, s + 1) == e;
    assert key[s + 1..e] == tag;
  }

  /** Keys with the same hash tag share a slot, whatever stands around the tag: it is the slot of the tag itself. */
  lemma TagDecides(prefix: bytes, tag: bytes, suffix: bytes)
    requires OPEN !in prefix && tag != [] && CLOSE !in tag
    ensures SlotOf(prefix + [OPEN] + tag + [CLOSE] + suffix) == SlotOf(tag)
  {
    hide IndexOf, Crc16.Crc, Crc16.WordValue;
    var key := prefix + [OPEN] + tag + [CLOSE] + suffix;
    assert key == prefix + [OPEN] + (tag + [CLOSE] + suffix);
    TagHashed(key, prefix, tag, suffix);
    assert HashTag(tag) == tag;
  }

  /** The key "123456789". */
  lemma KnownSlot()
    ensures SlotOf([49, 50, 51, 52, 53, 54, 55, 56, 57]) == 12739
  {
    hide Crc16.Crc, Crc16.WordValue;
    Crc16.CheckValue();
    var key := [49, 50, 51, 52, 53, 54, 55, 56, 57];
    assert OPEN !in key;
    assert HashTag(key) == key;
  }
}
