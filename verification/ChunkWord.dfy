/** `BuddyChunkRep`: the words of a pagemap entry, in which a tree node keeps the
    address of a child together with its colour and the decommitted flag. */
module ChunkWord {
  import opened Bits

  type Word = w: nat | w < WORD

  const RED_BIT: Word := 0x100
  const DECOMMITTED_BIT: Word := 0x200
  const FLAG_BITS: Word := 0x300

  function Not(w: Word): Word { WORD - 1 - w }

  /** `get`: the address without the flags. */
  function Address(w: Word): nat { BitAnd(w, Not(FLAG_BITS)) }

  predicate IsRed(w: Word) { BitAnd(w, RED_BIT) == RED_BIT }

  predicate IsDecommitted(w: Word) { BitAnd(w, DECOMMITTED_BIT) == DECOMMITTED_BIT }

  /** Bits 8 and 9. */
  function FlagPart(w: nat): nat { w / 0x100 % 4 }

  /** An address that may be stored: its flag bits are free. */
  predicate Clean(a: nat) { a < WORD && FlagPart(a) == 0 }

  lemma AlignedClean(a: nat, b: nat)
    requires b >= 10 && a < WORD && Aligned(a, b)
    ensures Clean(a)
  {
    AlignedWeaken(a, 10, b);
    assert Pow2(10) == 1024;
  }

  /** The masks in terms of the two flag bits. */
  lemma Masks(w: Word)
    ensures BitAnd(w, FLAG_BITS) == 0x100 * FlagPart(w)
    ensures BitAnd(w, RED_BIT) == 0x100 * (FlagPart(w) % 2)
    ensures BitAnd(w, DECOMMITTED_BIT) == 0x200 * (FlagPart(w) / 2)
  {
    Pow2Of16();
    assert Pow2(9) == 0x200 && Pow2(1) == 2 && Pow2(2) == 4;
    BitAndShifted(w, 3, 8);
    BitAndOnes(Shr(w, 8), 2);
    BitAndShifted(w, 1, 8);
    BitAndOnes(Shr(w, 8), 1);
    BitAndShifted(w, 1, 9);
    BitAndOnes(Shr(w, 9), 1);
    hide BitAnd, Pow2;
    assert Shr(w, 8) == w / 0x100 && Shr(w, 9) == w / 0x200;
  }

  /** A word is its address and its two flags, and nothing else. */
  lemma Parts(w: Word)
    ensures w == Address(w) + 0x100 * FlagPart(w) && Clean(Address(w))
    ensures IsRed(w) <==> FlagPart(w) % 2 == 1
    ensures IsDecommitted(w) <==> FlagPart(w) / 2 == 1
  {
    hide BitAnd, Pow2, FlagPart;
    Masks(w);
    Pow2Of64();
    BitAndComplement(w, FLAG_BITS, 64);
    WithoutFlags(w);
    FlagRange(w);
  }

  lemma WithoutFlags(w: nat)
    ensures 0 <= w - 0x100 * FlagPart(w) && FlagPart(w - 0x100 * FlagPart(w)) == 0
  {
    var h := w / 0x100;
    var q, f, l := h / 4, h % 4, w % 0x100;
    assert h == 4 * q + f && w == 0x100 * h + l;
    DivUnique(0x400 * q + l, 0x100, 4 * q, l);
  }

  lemma FlagRange(w: nat)
    ensures 0 <= FlagPart(w) < 4
  {}

  lemma WithFlags(a: nat, f: nat)
    requires Clean(a) && f < 4
    ensures a + 0x100 * f < WORD && FlagPart(a + 0x100 * f) == f
  {
    var h := a / 0x100;
    var q, l := h / 4, a % 0x100;
    assert h == 4 * q && a == 0x100 * h + l;
    DivUnique(a + 0x100 * f, 0x100, 4 * q + f, l);
  }

  /** Words with the same parts are the same. */
  lemma SameParts(v: Word, w: Word)
    requires Address(v) == Address(w) && (IsRed(v) <==> IsRed(w)) && (IsDecommitted(v) <==> IsDecommitted(w))
    ensures v == w
  {
    hide Address, IsRed, IsDecommitted, FlagPart;
    Parts(v);
    Parts(w);
    FlagRange(v);
    FlagRange(w);
  }

  lemma Compose(a: nat, f: nat, w: Word)
    requires Clean(a) && f < 4 && w == a + 0x100 * f
    ensures Address(w) == a && (IsRed(w) <==> f % 2 == 1) && (IsDecommitted(w) <==> f / 2 == 1)
  {
    hide Address, IsRed, IsDecommitted, FlagPart;
    Parts(w);
    WithFlags(a, f);
  }

  /** `set`: a new address, the same flags. */
  function Set(w: Word, r: nat): Word
    requires Clean(r)
  {
    SetSum(w, r);
    BitOr(r, BitAnd(w, FLAG_BITS))
  }

  lemma SetSum(w: Word, r: nat)
    requires Clean(r)
    ensures BitOr(r, BitAnd(w, FLAG_BITS)) == r + 0x100 * FlagPart(w) < WORD
  {
    hide FlagPart, BitAnd, BitOr;
    FlagRange(w);
    var f: nat := 0x100 * FlagPart(w);
    Masks(w);
    FlagsApart(r, f);
    BitSums(r, f);
    WithFlags(r, FlagPart(w));
  }

  /** An address has no bit in common with the flags. */
  lemma FlagsApart(r: nat, f: nat)
    requires Clean(r) && f % 0x100 == 0 && f <= FLAG_BITS
    ensures BitAnd(r, f) == 0
  {
    hide FlagPart, BitAnd;
    Masks(r);
    assert f == 0 || f == 0x100 || f == 0x200 || f == 0x300;
    if f == 0 { BitAndCommutes(r, 0); BitAndNothing(r); }
  }

  lemma {:induction false} BitAndNothing(x: nat)
    ensures BitAnd(0, x) == 0
  {
    if x > 0 { BitAndNothing(x / 2); }
  }

  lemma SetKeepsFlags(w: Word, r: nat)
    requires Clean(r)
    ensures Address(Set(w, r)) == r
    ensures (IsRed(Set(w, r)) <==> IsRed(w)) && (IsDecommitted(Set(w, r)) <==> IsDecommitted(w))
  {
    SetSum(w, r);
    hide Address, IsRed, IsDecommitted, FlagPart, BitOr, BitAnd;
    Parts(w);
    FlagRange(w);
    Compose(r, FlagPart(w), Set(w, r));
  }

  /** Flipping one flag bit. */
  lemma Flip(w: Word, bit: nat)
    requires bit == RED_BIT || bit == DECOMMITTED_BIT
    ensures BitXor(w, bit) < WORD && Address(BitXor(w, bit)) == Address(w)
    ensures IsRed(BitXor(w, bit)) <==> (if bit == RED_BIT then !IsRed(w) else IsRed(w))
    ensures IsDecommitted(BitXor(w, bit)) <==> (if bit == RED_BIT then IsDecommitted(w) else !IsDecommitted(w))
  {
    hide Address, IsRed, IsDecommitted, FlagPart, BitAnd, BitXor;
    Masks(w);
    Parts(w);
    FlagRange(w);
    BitSums(w, bit);
    var f, one := FlagPart(w), if bit == RED_BIT then FlagPart(w) % 2 else FlagPart(w) / 2;
    var f' := if bit == RED_BIT then f + 1 - 2 * one else f + 2 - 4 * one;
    WithFlags(Address(w), f');
    Compose(Address(w), f', BitXor(w, bit));
  }

  /** `set_red`. */
  function SetRed(w: Word, red: bool): Word {
    Flip(w, RED_BIT);
    if red != IsRed(w) then BitXor(w, RED_BIT) else w
  }

  /** `set_decommitted`. */
  function SetDecommitted(w: Word, decommitted: bool): Word {
    Flip(w, DECOMMITTED_BIT);
    if decommitted != IsDecommitted(w) then BitXor(w, DECOMMITTED_BIT) else w
  }

  lemma SetRedOnly(w: Word, red: bool)
    ensures Address(SetRed(w, red)) == Address(w)
    ensures (IsRed(SetRed(w, red)) <==> red) && (IsDecommitted(SetRed(w, red)) <==> IsDecommitted(w))
  {
    hide Address, IsRed, IsDecommitted;
    Flip(w, RED_BIT);
  }

  lemma SetDecommittedOnly(w: Word, decommitted: bool)
    ensures Address(SetDecommitted(w, decommitted)) == Address(w)
    ensures IsRed(SetDecommitted(w, decommitted)) <==> IsRed(w)
    ensures IsDecommitted(SetDecommitted(w, decommitted)) <==> decommitted
  {
    hide Address, IsRed, IsDecommitted;
    Flip(w, DECOMMITTED_BIT);
  }
}
