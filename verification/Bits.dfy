/**
 The macros of bitops.h and the field operators of mm.h on 32-bit words.

 A word is a natural number below 2^32.  The bitwise operators are defined digit by digit,
 and Bit(v, i) reads one digit, so that what SETVAL and GETVAL do is proved for every field
 position h..l rather than for the few masks the program uses.
 */
module Bits {

  const WORD: nat := 0x1_0000_0000

  function Pow2(n: nat): (r: nat)
    ensures r >= 1
  {
    if n == 0 then 1 else 2 * Pow2(n - 1)
  }

  /** Bit i of v. */
  predicate Bit(v: nat, i: nat) {
    if i == 0 then v % 2 == 1 else Bit(v / 2, i - 1)
  }

  function Digit(b: bool): nat { if b then 1 else 0 }

  function And(a: nat, b: nat): nat
    decreases a
  {
    if a == 0 || b == 0 then 0 else 2 * And(a / 2, b / 2) + Digit(a % 2 == 1 && b % 2 == 1)
  }

  function Or(a: nat, b: nat): nat
    decreases a
  {
    if a == 0 then b else if b == 0 then a else 2 * Or(a / 2, b / 2) + Digit(a % 2 == 1 || b % 2 == 1)
  }

  /** ~a on a 32-bit word. */
  function Not(a: nat): nat
    requires a < WORD
  {
    WORD - 1 - a
  }

  /** a << k, dropping what leaves the word. */
  function Shl(a: nat, k: nat): (r: nat)
    requires a < WORD
    ensures r < WORD
  {
    if k == 0 then a else (2 * Shl(a, k - 1)) % WORD
  }

  /** a >> k. */
  function Shr(a: nat, k: nat): nat {
    if k == 0 then a else Shr(a / 2, k - 1)
  }

  // ----------------------------------------------------------------- the digits

  lemma {:induction false} BitZero(i: nat)
    ensures !Bit(0, i)
  {
    if i > 0 { BitZero(i - 1); }
  }

  lemma {:induction false} BitAnd(a: nat, b: nat, i: nat)
    ensures Bit(And(a, b), i) <==> Bit(a, i) && Bit(b, i)
    decreases i
  {
    if a == 0 || b == 0 {
      BitZero(i);
    } else if i > 0 {
      BitAnd(a / 2, b / 2, i - 1);
    }
  }

  lemma {:induction false} BitOr(a: nat, b: nat, i: nat)
    ensures Bit(Or(a, b), i) <==> Bit(a, i) || Bit(b, i)
    decreases i
  {
    if a == 0 || b == 0 {
      BitZero(i);
    } else if i > 0 {
      BitOr(a / 2, b / 2, i - 1);
    }
  }

  lemma HalfComplement(half: nat, a: nat)
    requires a < 2 * half
    ensures (2 * half - 1 - a) / 2 == half - 1 - a / 2
  {}

  /** Complement within n digits. */
  lemma {:induction false} BitComplement(a: nat, n: nat, i: nat)
    requires a < Pow2(n) && i < n
    ensures Bit(Pow2(n) - 1 - a, i) <==> !Bit(a, i)
    decreases n
  {
    if i > 0 {
      HalfComplement(Pow2(n - 1), a);
      BitComplement(a / 2, n - 1, i - 1);
    }
  }

  lemma Word32()
    ensures Pow2(32) == WORD
  {
    assert Pow2(8) == 256;
    assert Pow2(16) == 0x1_0000;
    assert Pow2(24) == 0x100_0000;
  }

  lemma BitNot(a: nat, i: nat)
    requires a < WORD && i < 32
    ensures Bit(Not(a), i) <==> !Bit(a, i)
  {
    Word32();
    BitComplement(a, 32, i);
  }

  /** Digits at and above n of a number below 2^n are zero. */
  lemma {:induction false} BitHigh(v: nat, n: nat, i: nat)
    requires v < Pow2(n) && n <= i
    ensures !Bit(v, i)
    decreases n
  {
    if n == 0 { BitZero(i); } else { BitHigh(v / 2, n - 1, i - 1); }
  }

  /** Two numbers below 2^n with the same digits are equal. */
  lemma {:induction false} BitsDetermine(v: nat, w: nat, n: nat)
    requires v < Pow2(n) && w < Pow2(n)
    requires forall i: nat :: i < n ==> (Bit(v, i) <==> Bit(w, i))
    ensures v == w
    decreases n
  {
    if n > 0 {
      forall i: nat | i < n - 1 ensures Bit(v / 2, i) <==> Bit(w / 2, i) {
        assert Bit(v, i + 1) <==> Bit(w, i + 1);
      }
      BitsDetermine(v / 2, w / 2, n - 1);
      assert Bit(v, 0) <==> Bit(w, 0);
    }
  }

  lemma {:induction false} BitShr(v: nat, k: nat, i: nat)
    ensures Bit(Shr(v, k), i) <==> Bit(v, i + k)
  {
    if k > 0 { BitShr(v / 2, k - 1, i); }
  }

  /** The n low digits of v. */
  function Low(v: nat, n: nat): (r: nat)
    ensures r < Pow2(n)
  {
    if n == 0 then 0 else 2 * Low(v / 2, n - 1) + v % 2
  }

  lemma {:induction false} BitLow(v: nat, n: nat, i: nat)
    ensures Bit(Low(v, n), i) <==> i < n && Bit(v, i)
    decreases n
  {
    if n == 0 {
      BitZero(i);
    } else if i > 0 {
      BitLow(v / 2, n - 1, i - 1);
    }
  }

  /** Removing the top digit leaves the others. */
  lemma {:induction false} BitDropTop(v: nat, n: nat, i: nat)
    requires Pow2(n) <= v < 2 * Pow2(n) && i < n
    ensures Bit(v - Pow2(n), i) <==> Bit(v, i)
    decreases n
  {
    if i > 0 {
      assert (v - Pow2(n)) / 2 == v / 2 - Pow2(n - 1);
      BitDropTop(v / 2, n - 1, i - 1);
    }
  }

  lemma BitDouble(v: nat, i: nat)
    ensures Bit(2 * v, i) <==> i > 0 && Bit(v, i - 1)
  {}

  lemma ShlStep(v: nat, k: nat)
    requires v < WORD && k > 0
    ensures var d := 2 * Shl(v, k - 1);
            d < 2 * WORD && Shl(v, k) == if d >= WORD then d - WORD else d
  {}

  lemma {:induction false} BitShl(v: nat, k: nat, i: nat)
    requires v < WORD && i < 32
    ensures Bit(Shl(v, k), i) <==> i >= k && Bit(v, i - k)
    decreases k
  {
    if k > 0 {
      hide Shl, Bit, Pow2;
      Word32();
      ShlStep(v, k);
      var d := 2 * Shl(v, k - 1);
      if d >= WORD { BitDropTop(d, 32, i); }
      BitDouble(Shl(v, k - 1), i);
      if i > 0 { BitShl(v, k - 1, i - 1); }
    }
  }

  // ----------------------------------------------------------------- words stay words

  lemma {:induction false} AndBound(a: nat, b: nat)
    ensures And(a, b) <= a && And(a, b) <= b
    decreases a
  {
    if a != 0 && b != 0 { AndBound(a / 2, b / 2); }
  }

  lemma {:induction false} OrBound(a: nat, b: nat, n: nat)
    requires a < Pow2(n) && b < Pow2(n)
    ensures Or(a, b) < Pow2(n)
    decreases n
  {
    if a != 0 && b != 0 { OrBound(a / 2, b / 2, n - 1); }
  }

  type Word = v: nat | v < WORD

  function AndW(a: Word, b: Word): Word {
    AndBound(a, b);
    And(a, b)
  }

  function OrW(a: Word, b: Word): Word {
    Word32();
    OrBound(a, b, 32);
    Or(a, b)
  }

  function NotW(a: Word): Word {
    Not(a)
  }

  lemma {:induction false} ShrBound(a: nat, k: nat)
    ensures Shr(a, k) <= a
  {
    if k > 0 { ShrBound(a / 2, k - 1); }
  }

  function ShrW(a: Word, k: nat): Word {
    ShrBound(a, k);
    Shr(a, k)
  }

  // ----------------------------------------------------------------- the macros

  /** BIT(nr). */
  function BitMask(nr: nat): Word
    requires nr < 32
  {
    Shl(1, nr)
  }

  /** GENMASK(h, l). */
  function GenMask(h: nat, l: nat): Word
    requires l <= h < 32
  {
    AndW(Shl(NotW(0), l), ShrW(NotW(0), 31 - h))
  }

  function SetBit(v: Word, mask: Word): Word { OrW(v, mask) }

  function ClrBit(v: Word, mask: Word): Word { AndW(v, NotW(mask)) }

  /** SETVAL: the new value of `v`. */
  function SetVal(v: Word, value: Word, mask: Word, offst: nat): Word {
    OrW(AndW(v, NotW(mask)), AndW(Shl(value, offst), mask))
  }

  function GetVal(v: Word, mask: Word, offst: nat): Word {
    ShrW(AndW(v, mask), offst)
  }

  /** DIV_ROUND_UP on non-negative operands. */
  function DivRoundUp(n: nat, d: nat): nat
    requires d > 0
  {
    (n + d - 1) / d
  }

  lemma AllOnes(i: nat)
    requires i < 32
    ensures Bit(NotW(0), i)
  {
    BitNot(0, i);
    BitZero(i);
  }

  /** GENMASK(h, l) has exactly the bits l..h. */
  lemma BitGenMask(h: nat, l: nat, i: nat)
    requires l <= h < 32 && i < 32
    ensures Bit(GenMask(h, l), i) <==> l <= i <= h
  {
    hide Bit, Shl, Shr, And;
    BitAnd(Shl(NotW(0), l), ShrW(NotW(0), 31 - h), i);
    BitShl(NotW(0), l, i);
    BitShr(NotW(0), 31 - h, i);
    if i >= l { AllOnes(i - l); }
    if i <= h {
      AllOnes(i + 31 - h);
    } else {
      Word32();
      BitHigh(NotW(0), 32, i + 31 - h);
    }
  }

  lemma BitBitMask(nr: nat, i: nat)
    requires nr < 32 && i < 32
    ensures Bit(BitMask(nr), i) <==> i == nr
  {
    hide Shl;
    BitShl(1, nr, i);
    if i > nr { BitHigh(1, 1, i - nr); }
  }

  /** GETVAL of field h..l: digit i is digit l + i of the word, for i up to h - l. */
  lemma BitGetVal(v: Word, h: nat, l: nat, i: nat)
    requires l <= h < 32
    ensures Bit(GetVal(v, GenMask(h, l), l), i) <==> i + l <= h && Bit(v, i + l)
  {
    hide Bit, Shr, And, GenMask;
    BitShr(AndW(v, GenMask(h, l)), l, i);
    BitAnd(v, GenMask(h, l), i + l);
    if i + l < 32 {
      BitGenMask(h, l, i + l);
    } else {
      Word32();
      BitHigh(v, 32, i + l);
    }
  }

  /** SETVAL of field h..l: inside the field the digits of the value, elsewhere the old ones. */
  lemma BitSetVal(v: Word, value: Word, h: nat, l: nat, i: nat)
    requires l <= h < 32 && i < 32
    ensures Bit(SetVal(v, value, GenMask(h, l), l), i) <==> if l <= i <= h then Bit(value, i - l) else Bit(v, i)
  {
    hide Bit, Shl, And, Or, GenMask, Not;
    var m := GenMask(h, l);
    BitOr(AndW(v, NotW(m)), AndW(Shl(value, l), m), i);
    BitAnd(v, NotW(m), i);
    BitAnd(Shl(value, l), m, i);
    BitNot(m, i);
    BitGenMask(h, l, i);
    BitShl(value, l, i);
  }

  lemma BitSetBit(v: Word, nr: nat, i: nat)
    requires nr < 32 && i < 32
    ensures Bit(SetBit(v, BitMask(nr)), i) <==> i == nr || Bit(v, i)
  {
    BitOr(v, BitMask(nr), i);
    BitBitMask(nr, i);
  }

  lemma BitClrBit(v: Word, nr: nat, i: nat)
    requires nr < 32 && i < 32
    ensures Bit(ClrBit(v, BitMask(nr)), i) <==> i != nr && Bit(v, i)
  {
    BitAnd(v, NotW(BitMask(nr)), i);
    BitNot(BitMask(nr), i);
    BitBitMask(nr, i);
  }

  /** Equality of words, digit by digit. */
  lemma WordsEqual(v: Word, w: Word)
    requires forall i: nat :: i < 32 ==> (Bit(v, i) <==> Bit(w, i))
    ensures v == w
  {
    Word32();
    BitsDetermine(v, w, 32);
  }

  /** Read after write, for every field and whatever the word held before: GETVAL returns
      the value, cut to the width of the field. */
  lemma FieldRoundTrip(v: Word, value: Word, h: nat, l: nat)
    requires l <= h < 32
    ensures GetVal(SetVal(v, value, GenMask(h, l), l), GenMask(h, l), l) == Low(value, h - l + 1)
  {
    var r := GetVal(SetVal(v, value, GenMask(h, l), l), GenMask(h, l), l);
    LowBound(value, h - l + 1);
    forall i: nat | i < 32 ensures Bit(r, i) <==> Bit(Low(value, h - l + 1), i) {
      BitGetVal(SetVal(v, value, GenMask(h, l), l), h, l, i);
      if i + l < 32 { BitSetVal(v, value, h, l, i + l); }
      BitLow(value, h - l + 1, i);
    }
    WordsEqual(r, Low(value, h - l + 1));
  }

  /** A field that does not meet h..l survives a write to h..l. */
  lemma FieldFrame(v: Word, value: Word, h: nat, l: nat, h': nat, l': nat)
    requires l <= h < 32 && l' <= h' < 32 && (h < l' || h' < l)
    ensures GetVal(SetVal(v, value, GenMask(h, l), l), GenMask(h', l'), l') == GetVal(v, GenMask(h', l'), l')
  {
    var w := SetVal(v, value, GenMask(h, l), l);
    forall i: nat | i < 32
      ensures Bit(GetVal(w, GenMask(h', l'), l'), i) <==> Bit(GetVal(v, GenMask(h', l'), l'), i)
    {
      BitGetVal(w, h', l', i);
      BitGetVal(v, h', l', i);
      if i + l' < 32 { BitSetVal(v, value, h, l, i + l'); }
    }
    WordsEqual(GetVal(w, GenMask(h', l'), l'), GetVal(v, GenMask(h', l'), l'));
  }

  lemma {:induction false} LowBound(v: nat, n: nat)
    ensures Low(v, n) <= v
    decreases n
  {
    if n > 0 { LowBound(v / 2, n - 1); }
  }

  /** A value that fits its field is cut to itself. */
  lemma {:induction false} LowFits(v: nat, n: nat)
    requires v < Pow2(n)
    ensures Low(v, n) == v
    decreases n
  {
    if n > 0 { LowFits(v / 2, n - 1); }
  }

  lemma MulTwice(a: nat, x: nat)
    ensures 2 * (a * x) == (2 * a) * x
  {}

  /** Shifting and keeping the low digits are division and remainder by 2^k. */
  lemma {:induction false} Split(v: nat, k: nat)
    ensures v == Low(v, k) + Pow2(k) * Shr(v, k)
    decreases k
  {
    if k > 0 {
      Split(v / 2, k - 1);
      MulTwice(Pow2(k - 1), Shr(v, k));
    }
  }

  // ----------------------------------------------------------------- NBITS

  function Nbits2(n: Word): nat { if AndW(n, 2) != 0 then 1 else 0 }
  function Nbits4(n: Word): nat { if AndW(n, 0xC) != 0 then 2 + Nbits2(ShrW(n, 2)) else Nbits2(n) }
  function Nbits8(n: Word): nat { if AndW(n, 0xF0) != 0 then 4 + Nbits4(ShrW(n, 4)) else Nbits4(n) }
  function Nbits16(n: Word): nat { if AndW(n, 0xFF00) != 0 then 8 + Nbits8(ShrW(n, 8)) else Nbits8(n) }
  function Nbits32(n: Word): nat { if AndW(n, 0xFFFF_0000) != 0 then 16 + Nbits16(ShrW(n, 16)) else Nbits16(n) }

  /** NBITS(n). */
  function Nbits(n: Word): nat { if n == 0 then 0 else Nbits32(n) }

  /** w ones followed by l zeros. */
  function Band(l: nat, w: nat): nat {
    if l == 0 then Pow2(w) - 1 else 2 * Band(l - 1, w)
  }

  lemma {:induction false} AndOnes(n: nat, w: nat)
    requires n < Pow2(w)
    ensures And(n, Pow2(w) - 1) == n
    decreases w
  {
    if n != 0 {
      assert (Pow2(w) - 1) / 2 == Pow2(w - 1) - 1;
      AndOnes(n / 2, w - 1);
    }
  }

  /** The test of the upper half of an l + w digit number is a comparison. */
  lemma {:induction false} BandTest(n: nat, l: nat, w: nat)
    requires n < Pow2(l + w)
    ensures And(n, Band(l, w)) != 0 <==> n >= Pow2(l)
    decreases l
  {
    if l == 0 {
      AndOnes(n, w);
    } else if n != 0 {
      BandTest(n / 2, l - 1, w);
      if Band(l, w) == 0 { AndZero(n / 2); }
    }
  }

  lemma AndZero(n: nat)
    ensures And(n, 0) == 0
  {}

  lemma {:induction false} ShrLog(n: nat, k: nat, j: nat)
    requires Pow2(j) <= Shr(n, k) < Pow2(j + 1)
    ensures Pow2(j + k) <= n < Pow2(j + k + 1)
    decreases k
  {
    if k > 0 { ShrLog(n / 2, k - 1, j); }
  }

  lemma {:induction false} ShrRange(n: nat, k: nat, j: nat)
    requires Pow2(k) <= n < Pow2(j + k)
    ensures 1 <= Shr(n, k) < Pow2(j)
    decreases k
  {
    if k > 0 { ShrRange(n / 2, k - 1, j); }
  }

  /** r is the floor of the base-2 logarithm of n. */
  predicate IsLog2(n: nat, r: nat) {
    Pow2(r) <= n < Pow2(r + 1)
  }

  lemma Log4(n: Word)
    requires 0 < n < Pow2(4)
    ensures IsLog2(n, Nbits4(n))
  {
    assert Pow2(2) == 4 && Pow2(4) == 16;
    assert Band(2, 2) == 0xC && Band(1, 1) == 2;
    BandTest(n, 2, 2);
    if n >= 4 {
      ShrRange(n, 2, 2);
      BandTest(ShrW(n, 2), 1, 1);
      ShrLog(n, 2, Nbits2(ShrW(n, 2)));
    } else {
      BandTest(n, 1, 1);
    }
  }

  lemma Log8(n: Word)
    requires 0 < n < Pow2(8)
    ensures IsLog2(n, Nbits8(n))
  {
    assert Band(4, 4) == 0xF0;
    BandTest(n, 4, 4);
    if n >= Pow2(4) {
      ShrRange(n, 4, 4);
      Log4(ShrW(n, 4));
      ShrLog(n, 4, Nbits4(ShrW(n, 4)));
    } else {
      Log4(n);
    }
  }

  lemma BandBytes()
    ensures Band(8, 8) == 0xFF00
  {
    assert Pow2(8) == 256;
    assert Band(4, 8) == 0xFF0;
  }

  lemma BandTop()
    ensures Band(16, 16) == 0xFFFF_0000
  {
    assert Pow2(8) == 256;
    assert Pow2(16) == 0x1_0000;
    assert Band(4, 16) == 0xF_FFF0;
    assert Band(8, 16) == 0xFF_FF00;
    assert Band(12, 16) == 0xFFF_F000;
  }

  lemma Log16(n: Word)
    requires 0 < n < Pow2(16)
    ensures IsLog2(n, Nbits16(n))
  {
    hide Band, And, Shr, Pow2, Nbits8;
    BandBytes();
    BandTest(n, 8, 8);
    if n >= Pow2(8) {
      ShrRange(n, 8, 8);
      Log8(ShrW(n, 8));
      ShrLog(n, 8, Nbits8(ShrW(n, 8)));
    } else {
      Log8(n);
    }
  }

  /** NBITS is the floor of the base-2 logarithm, for every non-zero 32-bit word. */
  lemma NbitsIsLog2(n: Word)
    requires n != 0
    ensures IsLog2(n, Nbits(n))
  {
    hide Band, And, Shr, Pow2, Nbits16;
    Word32();
    BandTop();
    BandTest(n, 16, 16);
    if n >= Pow2(16) {
      ShrRange(n, 16, 16);
      Log16(ShrW(n, 16));
      ShrLog(n, 16, Nbits16(ShrW(n, 16)));
    } else {
      Log16(n);
    }
  }

  lemma {:induction false} Pow2Mono(a: nat, b: nat)
    requires a <= b
    ensures Pow2(a) <= Pow2(b)
    decreases b
  {
    if a < b { Pow2Mono(a, b - 1); }
  }

  lemma Log2Unique(n: nat, r: nat, k: nat)
    requires IsLog2(n, r) && IsLog2(n, k)
    ensures r == k
  {
    if r < k { Pow2Mono(r + 1, k); }
    if r > k { Pow2Mono(k + 1, r); }
  }

  /** NBITS of a power of two is its exponent. */
  lemma NbitsOfPower(n: Word, k: nat)
    requires k < 32 && n == Pow2(k)
    ensures Nbits(n) == k
  {
    NbitsIsLog2(n);
    Log2Unique(n, Nbits(n), k);
  }
}
