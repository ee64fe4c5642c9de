/**
 The table-driven CRC-32 of crc.cc and the bit-serial divider it stands for:
 the generator polynomial of section 3.2.9 of IEEE 802.3, most significant bit first.
 */
module Crc {
  type Octet = bv8
  type Word = bv32

  const POLY: Word := 0x04c1_1db7
  const PRELOAD: Word := 0xffff_ffff

  // ---------- words as polynomials: addition, doubling, leading coefficient ----------

  function Xor(a: Word, b: Word): Word {
    a ^ b
  }

  function Double(r: Word): Word {
    r << 1
  }

  function Halve(r: Word): Word {
    r >> 1
  }

  function Complement(r: Word): Word {
    !r
  }

  predicate Leading(r: Word) {
    r & 0x8000_0000 != 0
  }

  lemma XorCommutes(a: Word, b: Word)
    ensures Xor(a, b) == Xor(b, a)
  {
  }

  lemma XorAssociates(a: Word, b: Word, c: Word)
    ensures Xor(Xor(a, b), c) == Xor(a, Xor(b, c))
  {
  }

  lemma XorSelf(a: Word)
    ensures Xor(a, a) == 0 && Xor(a, 0) == a && Xor(0, a) == a
  {
  }

  lemma XorCancels(a: Word, b: Word, p: Word)
    ensures Xor(Xor(a, p), p) == a
    ensures Xor(a, p) == Xor(b, p) ==> a == b
    ensures Xor(p, a) == Xor(p, b) ==> a == b
  {
    XorTwice(a, p);
    XorTwice(b, p);
    XorCommutes(p, a);
    XorCommutes(p, b);
    hide Xor;
  }

  lemma XorTwice(a: Word, p: Word)
    ensures Xor(Xor(a, p), p) == a
  {
    XorAssociates(a, p, p);
    XorSelf(p);
    XorSelf(a);
    hide Xor;
  }

  lemma DoubleLinear(a: Word, b: Word)
    ensures Double(Xor(a, b)) == Xor(Double(a), Double(b))
  {
  }

  lemma HalveLinear(a: Word, b: Word)
    ensures Halve(Xor(a, b)) == Xor(Halve(a), Halve(b))
  {
  }

  lemma LeadingLinear(a: Word, b: Word)
    ensures Leading(Xor(a, b)) <==> (Leading(a) != Leading(b))
  {
    assert (a ^ b) & 0x8000_0000 == (a & 0x8000_0000) ^ (b & 0x8000_0000);
    assert a & 0x8000_0000 == 0 || a & 0x8000_0000 == 0x8000_0000;
    assert b & 0x8000_0000 == 0 || b & 0x8000_0000 == 0x8000_0000;
  }

  function LeadingTerm(bit: bool): Word {
    if bit then 0x8000_0000 else 0
  }

  /** A word is its leading term and the rest. */
  lemma Recompose(a: Word)
    ensures a == Xor(LeadingTerm(Leading(a)), Halve(Double(a)))
  {
    assert a == (a & 0x8000_0000) ^ ((a << 1) >> 1);
    assert a & 0x8000_0000 == 0 || a & 0x8000_0000 == 0x8000_0000;
  }

  lemma DoubleInjective(a: Word, b: Word)
    requires Double(a) == Double(b) && (Leading(a) <==> Leading(b))
    ensures a == b
  {
    hide Double, Leading, Xor, Halve;
    Recompose(a);
    Recompose(b);
  }

  /** The polynomial has a constant term, a doubled word has none. */
  lemma PolynomialIsOdd(a: Word, b: Word)
    ensures Double(a) != Xor(Double(b), POLY)
  {
    assert (a << 1) != (b << 1) ^ 0x04c1_1db7;
  }

  // ---------- the bit-serial divider ----------

  /** One shift of the register: the coefficient that falls out subtracts the polynomial. */
  function Shift(r: Word): Word {
    if Leading(r) then Xor(Double(r), POLY) else Double(r)
  }

  function ShiftN(r: Word, n: nat): Word
    decreases n
  {
    if n == 0 then r else ShiftN(Shift(r), n - 1)
  }

  lemma ShiftLinear(a: Word, b: Word)
    ensures Shift(Xor(a, b)) == Xor(Shift(a), Shift(b))
  {
    hide Xor, Double, Leading;
    LeadingLinear(a, b);
    DoubleLinear(a, b);
    var x, y := Double(a), Double(b);
    XorAssociates(x, y, POLY);
    XorAssociates(x, POLY, y);
    XorCommutes(y, POLY);
    XorAssociates(Xor(x, POLY), y, POLY);
    XorCancels(Xor(x, y), Xor(x, y), POLY);
  }

  lemma ShiftInjective(a: Word, b: Word)
    requires Shift(a) == Shift(b)
    ensures a == b
  {
    hide Xor, Double, Leading;
    PolynomialIsOdd(a, b);
    PolynomialIsOdd(b, a);
    XorCancels(Double(a), Double(b), POLY);
    DoubleInjective(a, b);
  }

  lemma {:induction false} ShiftNLinear(a: Word, b: Word, n: nat)
    ensures ShiftN(Xor(a, b), n) == Xor(ShiftN(a, n), ShiftN(b, n))
    decreases n
  {
    hide Xor, Shift;
    if n > 0 {
      ShiftLinear(a, b);
      ShiftNLinear(Shift(a), Shift(b), n - 1);
    }
  }

  lemma {:induction false} ShiftNInjective(a: Word, b: Word, n: nat)
    requires ShiftN(a, n) == ShiftN(b, n)
    ensures a == b
    decreases n
  {
    hide Shift;
    if n > 0 {
      ShiftNInjective(Shift(a), Shift(b), n - 1);
      ShiftInjective(a, b);
    }
  }

  lemma {:induction false} ShiftNAdd(r: Word, m: nat, n: nat)
    ensures ShiftN(r, m + n) == ShiftN(ShiftN(r, m), n)
    decreases m
  {
    hide Shift;
    if m > 0 {
      ShiftNAdd(Shift(r), m - 1, n);
    }
  }

  // ---------- feeding a message ----------

  /** Feeding one message bit: it is added to the coefficient that is about to fall out. */
  function FeedBit(r: Word, bit: bool): Word {
    Shift(Xor(r, LeadingTerm(bit)))
  }

  function FeedBits(r: Word, bits: seq<bool>): Word
    decreases bits
  {
    if bits == [] then r else FeedBits(FeedBit(r, bits[0]), bits[1..])
  }

  lemma {:induction false} FeedBitsConcat(r: Word, a: seq<bool>, b: seq<bool>)
    ensures FeedBits(r, a + b) == FeedBits(FeedBits(r, a), b)
    decreases a
  {
    hide FeedBit;
    if a == [] {
      assert a + b == b;
    } else {
      assert (a + b)[1..] == a[1..] + b;
      FeedBitsConcat(FeedBit(r, a[0]), a[1..], b);
    }
  }

  lemma {:induction false} FeedBitsInjective(r: Word, q: Word, bits: seq<bool>)
    requires FeedBits(r, bits) == FeedBits(q, bits)
    ensures r == q
    decreases bits
  {
    hide Shift, Xor;
    if bits != [] {
      FeedBitsInjective(FeedBit(r, bits[0]), FeedBit(q, bits[0]), bits[1..]);
      ShiftInjective(Xor(r, LeadingTerm(bits[0])), Xor(q, LeadingTerm(bits[0])));
      XorCancels(r, q, LeadingTerm(bits[0]));
    }
  }

  // ---------- up to 32 bits as one word ----------

  /** The bits as the leading coefficients of a word. */
  function Pack(bits: seq<bool>): Word
    decreases bits
  {
    if bits == [] then 0 else Xor(LeadingTerm(bits[0]), Halve(Pack(bits[1..])))
  }

  /** The last k coefficients are 0. */
  ghost predicate LowZero(r: Word, k: nat)
    decreases k
  {
    k == 0 || (r & 1 == 0 && LowZero(Halve(r), k - 1))
  }

  lemma {:induction false} LowZeroXor(a: Word, b: Word, k: nat)
    requires LowZero(a, k) && LowZero(b, k)
    ensures LowZero(Xor(a, b), k)
    decreases k
  {
    if k > 0 {
      assert Xor(a, b) & 1 == 0 by { assert (a ^ b) & 1 == (a & 1) ^ (b & 1); }
      HalveLinear(a, b);
      hide Xor, Halve;
      LowZeroXor(Halve(a), Halve(b), k - 1);
    }
  }

  lemma LowZeroByte(r: Word, k: nat)
    requires 8 <= k
    ensures LowZero(r, k) <==> r & 0xff == 0 && LowZero(r >> 8, k - 8)
  {
    var r1 := Halve(r);
    var r2 := Halve(r1);
    var r3 := Halve(r2);
    var r4 := Halve(r3);
    var r5 := Halve(r4);
    var r6 := Halve(r5);
    var r7 := Halve(r6);
    assert Halve(r7) == r >> 8;
    assert LowZero(r, k) <==> r & 1 == 0 && r1 & 1 == 0 && LowZero(r2, k - 2);
    assert LowZero(r2, k - 2) <==> r2 & 1 == 0 && r3 & 1 == 0 && LowZero(r4, k - 4);
    assert LowZero(r4, k - 4) <==> r4 & 1 == 0 && r5 & 1 == 0 && LowZero(r6, k - 6);
    assert LowZero(r6, k - 6) <==> r6 & 1 == 0 && r7 & 1 == 0 && LowZero(r >> 8, k - 8);
    assert r & 0xff == 0 <==>
           r & 1 == 0 && r1 & 1 == 0 && r2 & 1 == 0 && r3 & 1 == 0 &&
           r4 & 1 == 0 && r5 & 1 == 0 && r6 & 1 == 0 && r7 & 1 == 0;
  }

  lemma {:induction false} LowZeroWeaken(r: Word, k: nat, j: nat)
    requires LowZero(r, k) && j <= k
    ensures LowZero(r, j)
    decreases j
  {
    if j > 0 {
      LowZeroWeaken(Halve(r), k - 1, j - 1);
    }
  }

  lemma {:induction false} ZeroIsLowZero(k: nat)
    ensures LowZero(0, k)
    decreases k
  {
    if k > 0 {
      ZeroIsLowZero(k - 1);
    }
  }

  lemma LeadingTermLowZero(bit: bool)
    ensures LowZero(LeadingTerm(bit), 31)
  {
    if bit {
      LowZeroByte(0x8000_0000, 31);
      LowZeroByte(0x0080_0000, 23);
      LowZeroByte(0x0000_8000, 15);
      LowZeroByte(0x0000_8000, 8);
      assert LowZero(0x80, 7) by {
        assert LowZero(0x80, 7) <==> LowZero(0x20, 5);
        assert LowZero(0x20, 5) <==> LowZero(0x08, 3);
        assert LowZero(0x08, 3) <==> LowZero(0x02, 1);
        assert LowZero(0x02, 1);
      }
    } else {
      ZeroIsLowZero(31);
    }
  }

  lemma {:induction false} PackLowZero(bits: seq<bool>)
    requires |bits| <= 32
    ensures LowZero(Pack(bits), 32 - |bits|)
    decreases bits
  {
    if bits == [] {
      ZeroIsLowZero(32);
    } else {
      PackLowZero(bits[1..]);
      LeadingTermLowZero(bits[0]);
      LowZeroWeaken(LeadingTerm(bits[0]), 31, 32 - |bits|);
      LowZeroXor(LeadingTerm(bits[0]), Halve(Pack(bits[1..])), 32 - |bits|);
    }
  }

  lemma HalvedHasNoLeading(p: Word)
    ensures !Leading(Halve(p))
  {
    assert (p >> 1) & 0x8000_0000 == 0;
  }

  lemma DoubleHalved(p: Word)
    requires p & 1 == 0
    ensures Double(Halve(p)) == p
  {
  }

  /** There is room for one more bit, so a shift only undoes a halving. */
  lemma ShiftHalvedPack(bits: seq<bool>)
    requires |bits| <= 31
    ensures Shift(Halve(Pack(bits))) == Pack(bits)
  {
    PackLowZero(bits);
    DoubleHalved(Pack(bits));
    HalvedHasNoLeading(Pack(bits));
  }

  /** Feeding up to 32 bits is adding them, packed, to the register and shifting that often. */
  lemma {:induction false} PackedFeed(r: Word, bits: seq<bool>)
    requires |bits| <= 32
    ensures FeedBits(r, bits) == ShiftN(Xor(r, Pack(bits)), |bits|)
    decreases bits
  {
    if bits == [] {
      XorSelf(r);
    } else {
      var term, packed := LeadingTerm(bits[0]), Pack(bits[1..]);
      ShiftHalvedPack(bits[1..]);
      hide Xor, Shift, Halve, LeadingTerm;
      PackedFeed(FeedBit(r, bits[0]), bits[1..]);
      XorAssociates(r, term, Halve(packed));
      ShiftLinear(Xor(r, term), Halve(packed));
    }
  }

  lemma LeadingPack(bits: seq<bool>)
    requires bits != []
    ensures Leading(Pack(bits)) == bits[0]
  {
    var rest := Halve(Pack(bits[1..]));
    HalvedHasNoLeading(Pack(bits[1..]));
    assert Leading(LeadingTerm(bits[0])) == bits[0];
    hide Xor, Leading, Halve, LeadingTerm;
    LeadingLinear(LeadingTerm(bits[0]), rest);
  }

  lemma HalvesDetermine(p: Word, q: Word, t: Word)
    requires Shift(Halve(p)) == p && Shift(Halve(q)) == q
    requires Xor(t, Halve(p)) == Xor(t, Halve(q))
    ensures p == q
  {
    hide Xor, Halve, Leading, LeadingTerm, Shift;
    XorCancels(Halve(p), Halve(q), t);
  }

  lemma {:induction false} PackInjective(a: seq<bool>, b: seq<bool>)
    requires |a| == |b| <= 32 && Pack(a) == Pack(b)
    ensures a == b
    decreases a
  {
    hide Xor, Halve, Leading, LeadingTerm, Shift;
    if a != [] {
      LeadingPack(a);
      LeadingPack(b);
      ShiftHalvedPack(a[1..]);
      ShiftHalvedPack(b[1..]);
      HalvesDetermine(Pack(a[1..]), Pack(b[1..]), LeadingTerm(a[0]));
      PackInjective(a[1..], b[1..]);
      assert a == [a[0]] + a[1..] && b == [b[0]] + b[1..];
    }
  }

  /** The remainder after a window of up to 32 bits determines the bits of the window. */
  lemma WindowInjective(r: Word, a: seq<bool>, b: seq<bool>)
    requires |a| == |b| <= 32 && FeedBits(r, a) == FeedBits(r, b)
    ensures a == b
  {
    hide Xor;
    PackedFeed(r, a);
    PackedFeed(r, b);
    ShiftNInjective(Xor(r, Pack(a)), Xor(r, Pack(b)), |a|);
    XorCancels(Pack(a), Pack(b), r);
    PackInjective(a, b);
  }

  // ---------- messages of bytes ----------

  /** The bits of a byte, most significant first. */
  function ByteBits(b: Octet): (s: seq<bool>)
    ensures |s| == 8
  {
    [b & 0x80 != 0, b & 0x40 != 0, b & 0x20 != 0, b & 0x10 != 0,
     b & 0x08 != 0, b & 0x04 != 0, b & 0x02 != 0, b & 0x01 != 0]
  }

  function MessageBits(m: seq<Octet>): (s: seq<bool>)
    ensures |s| == 8 * |m|
  {
    if m == [] then [] else ByteBits(m[0]) + MessageBits(m[1..])
  }

  /** The CRC of a message as bit-serial hardware computes it. */
  function BitSerialCrc(m: seq<Octet>): Word {
    Complement(FeedBits(PRELOAD, MessageBits(m)))
  }

  function ByteWord(b: Octet): Word {
    (b as Word) << 24
  }

  function ByteDown(r: Word): Word {
    r >> 8
  }

  /** The packed bits of a byte followed by more bits. */
  lemma PackByte(b: Octet, rest: seq<bool>)
    ensures Pack(ByteBits(b) + rest) == Xor(ByteWord(b), ByteDown(Pack(rest)))
  {
    hide Xor, Halve, LeadingTerm, ByteWord, ByteDown, ByteBits;
    var s := ByteBits(b) + rest;
    assert s[8..] == rest && s[0..] == s;
    PackFrom(s, 7);
    PackFrom(s, 6);
    PackFrom(s, 5);
    PackFrom(s, 4);
    PackFrom(s, 3);
    PackFrom(s, 2);
    PackFrom(s, 1);
    PackFrom(s, 0);
    hide Pack;
    BitsOfByte(b, Pack(rest), Pack(s[7..]), Pack(s[6..]), Pack(s[5..]), Pack(s[4..]),
      Pack(s[3..]), Pack(s[2..]), Pack(s[1..]), Pack(s));
  }

  lemma PackFrom(s: seq<bool>, i: nat)
    requires i < |s|
    ensures Pack(s[i..]) == Xor(LeadingTerm(s[i]), Halve(Pack(s[i + 1..])))
  {
    assert s[i..][1..] == s[i + 1..];
  }

  lemma BitsOfByte(b: Octet, p8: Word, p7: Word, p6: Word, p5: Word, p4: Word, p3: Word, p2: Word, p1: Word, p0: Word)
    requires p7 == Xor(LeadingTerm(ByteBits(b)[7]), Halve(p8)) && p6 == Xor(LeadingTerm(ByteBits(b)[6]), Halve(p7))
    requires p5 == Xor(LeadingTerm(ByteBits(b)[5]), Halve(p6)) && p4 == Xor(LeadingTerm(ByteBits(b)[4]), Halve(p5))
    requires p3 == Xor(LeadingTerm(ByteBits(b)[3]), Halve(p4)) && p2 == Xor(LeadingTerm(ByteBits(b)[2]), Halve(p3))
    requires p1 == Xor(LeadingTerm(ByteBits(b)[1]), Halve(p2)) && p0 == Xor(LeadingTerm(ByteBits(b)[0]), Halve(p1))
    ensures p0 == Xor(ByteWord(b), ByteDown(p8))
  {
    hide Xor, Halve, LeadingTerm, ByteBits, ByteWord, ByteDown, LowNibble, HighNibble;
    LowFour(b, p8, p7, p6, p5, p4);
    HighFour(b, p4, p3, p2, p1, p0);
    LowAndHigh(b, p8);
  }

  function LowNibble(b: Octet, p: Word): Word {
    (((b & 0xf) as Word) << 28) ^ (p >> 4)
  }

  function HighNibble(b: Octet, p: Word): Word {
    (((b >> 4) as Word) << 28) ^ (p >> 4)
  }

  lemma LowFour(b: Octet, p8: Word, p7: Word, p6: Word, p5: Word, p4: Word)
    requires p7 == Xor(LeadingTerm(ByteBits(b)[7]), Halve(p8)) && p6 == Xor(LeadingTerm(ByteBits(b)[6]), Halve(p7))
    requires p5 == Xor(LeadingTerm(ByteBits(b)[5]), Halve(p6)) && p4 == Xor(LeadingTerm(ByteBits(b)[4]), Halve(p5))
    ensures p4 == LowNibble(b, p8)
  {
    hide Xor, Halve, LeadingTerm, ByteBits, Pair, LowNibble;
    var s := ByteBits(b);
    TwoBits(s[6], s[7], p8, p7, p6);
    TwoBits(s[4], s[5], p6, p5, p4);
    LowPairs(b, p8);
  }

  lemma HighFour(b: Octet, p4: Word, p3: Word, p2: Word, p1: Word, p0: Word)
    requires p3 == Xor(LeadingTerm(ByteBits(b)[3]), Halve(p4)) && p2 == Xor(LeadingTerm(ByteBits(b)[2]), Halve(p3))
    requires p1 == Xor(LeadingTerm(ByteBits(b)[1]), Halve(p2)) && p0 == Xor(LeadingTerm(ByteBits(b)[0]), Halve(p1))
    ensures p0 == HighNibble(b, p4)
  {
    hide Xor, Halve, LeadingTerm, ByteBits, Pair, HighNibble;
    var s := ByteBits(b);
    TwoBits(s[2], s[3], p4, p3, p2);
    TwoBits(s[0], s[1], p2, p1, p0);
    HighPairs(b, p4);
  }

  /** Two bits at the top of the register, which is shifted twice. */
  function Pair(a: bool, b: bool, p: Word): Word {
    (if a then if b then 0xc000_0000 else 0x8000_0000 else if b then 0x4000_0000 else 0) ^ (p >> 2)
  }

  lemma TwoBits(a: bool, b: bool, p2: Word, p1: Word, p0: Word)
    requires p1 == Xor(LeadingTerm(b), Halve(p2)) && p0 == Xor(LeadingTerm(a), Halve(p1))
    ensures p0 == Pair(a, b, p2)
  {
    HalveLinear(LeadingTerm(b), Halve(p2));
    XorAssociates(LeadingTerm(a), Halve(LeadingTerm(b)), Halve(Halve(p2)));
    PairIs(a, b, p2);
    hide Xor, Halve, LeadingTerm, Pair;
  }

  lemma PairIs(a: bool, b: bool, p: Word)
    ensures Pair(a, b, p) == Xor(Xor(LeadingTerm(a), Halve(LeadingTerm(b))), Halve(Halve(p)))
  {
    assert Halve(Halve(p)) == p >> 2;
    assert Xor(LeadingTerm(a), Halve(LeadingTerm(b))) ==
           if a then if b then 0xc000_0000 else 0x8000_0000 else if b then 0x4000_0000 else 0;
  }

  lemma LowPairs(b: Octet, p: Word)
    ensures var s := ByteBits(b); Pair(s[4], s[5], Pair(s[6], s[7], p)) == LowNibble(b, p)
  {
  }

  lemma HighPairs(b: Octet, p: Word)
    ensures var s := ByteBits(b); Pair(s[0], s[1], Pair(s[2], s[3], p)) == HighNibble(b, p)
  {
  }

  lemma LowAndHigh(b: Octet, p: Word)
    ensures HighNibble(b, LowNibble(b, p)) == Xor(ByteWord(b), ByteDown(p))
  {
  }

  /** Eight bits at once: the byte goes to the top of the register, which is shifted eight times. */
  lemma FeedByte(r: Word, b: Octet)
    ensures FeedBits(r, ByteBits(b)) == ShiftN(Xor(r, ByteWord(b)), 8)
  {
    XorSelf(ByteWord(b));
    assert ByteDown(0) == 0;
    hide Xor, ByteWord, Shift, FeedBits, ByteDown, ByteBits;
    PackByte(b, []);
    assert ByteBits(b) + [] == ByteBits(b);
    PackedFeed(r, ByteBits(b));
  }

  // ---------- the table ----------

  function TableEntry(i: Octet): Word {
    ShiftN(ByteWord(i), 8)
  }

  /** The byte that selects the table entry. */
  function Index(r: Word, b: Octet): Octet {
    ((r >> 24) as Octet) ^ b
  }

  /** The register step of the table-driven form. */
  function TableStep(r: Word, b: Octet): Word {
    Xor(ByteUp(r), TableEntry(Index(r, b)))
  }

  function TableFeed(r: Word, m: seq<Octet>): Word
    decreases m
  {
    if m == [] then r else TableFeed(TableStep(r, m[0]), m[1..])
  }

  lemma SilentShift(r: Word)
    requires r & 0x8000_0000 == 0
    ensures Shift(r) == r << 1
  {
  }

  /** Eight shifts in which nothing falls out. */
  lemma SilentShifts(r: Word)
    requires r & 0xff00_0000 == 0
    ensures ShiftN(r, 8) == r << 8
  {
    var r1, r2, r3, r4 := r << 1, r << 2, r << 3, r << 4;
    var r5, r6, r7 := r << 5, r << 6, r << 7;
    SilentBits(r);
    SilentShift(r);
    SilentShift(r1);
    SilentShift(r2);
    SilentShift(r3);
    SilentShift(r4);
    SilentShift(r5);
    SilentShift(r6);
    SilentShift(r7);
    hide Shift;
    assert ShiftN(r, 8) == ShiftN(r2, 6);
    assert ShiftN(r2, 6) == ShiftN(r4, 4);
    assert ShiftN(r4, 4) == ShiftN(r6, 2);
  }

  lemma SilentBits(r: Word)
    requires r & 0xff00_0000 == 0
    ensures r & 0x8000_0000 == 0 && (r << 1) & 0x8000_0000 == 0 &&
      (r << 2) & 0x8000_0000 == 0 && (r << 3) & 0x8000_0000 == 0
    ensures (r << 4) & 0x8000_0000 == 0 && (r << 5) & 0x8000_0000 == 0 &&
      (r << 6) & 0x8000_0000 == 0 && (r << 7) & 0x8000_0000 == 0
    ensures (r << 1) << 1 == r << 2 && (r << 2) << 1 == r << 3 && (r << 3) << 1 == r << 4 && (r << 4) << 1 == r << 5
    ensures (r << 5) << 1 == r << 6 && (r << 6) << 1 == r << 7 && (r << 7) << 1 == r << 8
  {
  }

  /** The register without its top byte. */
  function Low(r: Word): Word {
    r & 0x00ff_ffff
  }

  function ByteUp(r: Word): Word {
    r << 8
  }

  lemma SplitTop(r: Word, b: Octet)
    ensures Xor(r, ByteWord(b)) == Xor(Low(r), ByteWord(Index(r, b)))
  {
  }

  lemma LowShifts(r: Word)
    ensures ShiftN(Low(r), 8) == ByteUp(r)
  {
    LowBits(r);
    SilentShifts(Low(r));
  }

  lemma LowBits(r: Word)
    ensures Low(r) & 0xff00_0000 == 0
    ensures Low(r) << 8 == ByteUp(r)
  {
  }

  /** One table step is eight bit-serial steps. */
  lemma TableStepIsBitSerial(r: Word, b: Octet)
    ensures TableStep(r, b) == FeedBits(r, ByteBits(b))
  {
    hide Shift, ShiftN, ByteWord, ByteBits, Index, Low, ByteUp, Xor, FeedBits;
    SplitTop(r, b);
    LowShifts(r);
    FeedByte(r, b);
    ShiftNLinear(Low(r), ByteWord(Index(r, b)), 8);
  }

  /** For every byte sequence, the table-driven register is the bit-serial one. */
  lemma {:induction false} TableFeedIsBitSerial(r: Word, m: seq<Octet>)
    ensures TableFeed(r, m) == FeedBits(r, MessageBits(m))
    decreases m
  {
    hide TableStep, FeedBit, ByteBits;
    if m != [] {
      TableStepIsBitSerial(r, m[0]);
      FeedBitsConcat(r, ByteBits(m[0]), MessageBits(m[1..]));
      TableFeedIsBitSerial(TableStep(r, m[0]), m[1..]);
    }
  }

  /** The first entry init_crc32 fills with a nonzero value: it tells a built table from a blank one. */
  lemma EntryOne()
    ensures TableEntry(1) == POLY
  {
    assert ByteWord(1) == 0x0100_0000;
    assert Shift(0x0100_0000) == 0x0200_0000 && Shift(0x0200_0000) == 0x0400_0000 && Shift(0x0400_0000) == 0x0800_0000;
    assert Shift(0x0800_0000) == 0x1000_0000 && Shift(0x1000_0000) == 0x2000_0000 && Shift(0x2000_0000) == 0x4000_0000;
    assert Shift(0x4000_0000) == 0x8000_0000 && Shift(0x8000_0000) == 0x04c1_1db7;
    hide Shift;
    assert ShiftN(0x0100_0000, 8) == ShiftN(0x0400_0000, 6);
    assert ShiftN(0x0400_0000, 6) == ShiftN(0x1000_0000, 4);
    assert ShiftN(0x1000_0000, 4) == ShiftN(0x4000_0000, 2);
  }

  // ---------- crc.cc ----------

  /** The static crc32_table and the two functions of the file. */
  class Crc32 {
    const table: array<Word>

    /** A nonzero table[1] means that the whole table is correct. */
    ghost predicate Valid()
      reads table
    {
      table.Length == 256 && (table[1] != 0 ==> Built())
    }

    ghost predicate Built()
      requires table.Length == 256
      reads table
    {
      forall i :: 0 <= i < 256 ==> table[i] == TableEntry(i as Octet)
    }

    /** Static storage starts out as zeros. */
    constructor ()
      ensures Valid() && fresh(table)
    {
      table := new Word[256](_ => 0);
    }

    method InitCrc32()
      requires table.Length == 256
      modifies table
      ensures Built() && table[1] != 0
    {
      hide ShiftN, Shift, ByteWord;
      var i := 0;
      while i < 256
        invariant 0 <= i <= 256
        invariant forall k :: 0 <= k < i ==> table[k] == TableEntry(k as Octet)
      {
        table[i] := BuildEntry(i as Octet);
        i := i + 1;
      }
      assert table[1] == TableEntry(1 as Octet);
      EntryOne();
    }

    /** The inner loop of init_crc32. */
    static method BuildEntry(i: Octet) returns (c: Word)
      ensures c == TableEntry(i)
    {
      var j;
      c, j := (i as Word) << 24, 8;
      while j > 0
        invariant 0 <= j && ShiftN(c, j) == TableEntry(i)
      {
        c := if c & 0x8000_0000 != 0 then (c << 1) ^ POLY else c << 1;
        j := j - 1;
      }
    }

    /** The CRC of buf[..len]; a len that is not positive means no bytes. */
    method Crc(buf: array<Octet>, len: int) returns (crc: Word)
      requires Valid() && len <= buf.Length
      modifies table
      ensures Valid() && table[1] != 0
      ensures crc == BitSerialCrc(buf[..if len < 0 then 0 else len])
    {
      if table[1] == 0 {
        InitCrc32();
      }
      var r := Divide(buf, len);
      TableFeedIsBitSerial(PRELOAD, buf[..if len < 0 then 0 else len]);
      hide FeedBits, TableFeed, Complement;
      crc := Complement(r);
    }

    /** The loop of crc32 over the buffer, from the preloaded register. */
    method Divide(buf: array<Octet>, len: int) returns (crc: Word)
      requires Valid() && table[1] != 0 && len <= buf.Length
      ensures crc == TableFeed(PRELOAD, buf[..if len < 0 then 0 else len])
    {
      hide TableStep;
      crc := PRELOAD;
      var p, n := 0, len;
      ghost var m := buf[..if len < 0 then 0 else len];
      while n > 0
        invariant 0 <= p <= |m| && (n == |m| - p || n <= 0 == |m|)
        invariant TableFeed(crc, m[p..]) == TableFeed(PRELOAD, m)
      {
        assert m[p..][0] == buf[p] && m[p..][1..] == m[p + 1..];
        crc := Step(crc, buf[p]);
        p, n := p + 1, n - 1;
      }
      assert m[p..] == [];
    }

    /** The loop body of crc32. */
    method Step(crc: Word, b: Octet) returns (r: Word)
      requires Valid() && table[1] != 0
      ensures r == TableStep(crc, b)
    {
      hide TableEntry;
      var i := ((crc >> 24) as Octet) ^ b;
      assert (i as int) as Octet == i;
      r := (crc << 8) ^ table[i as int];
    }
  }

  // ---------- what the CRC detects ----------

  lemma {:induction false} MessageBitsConcat(a: seq<Octet>, b: seq<Octet>)
    ensures MessageBits(a + b) == MessageBits(a) + MessageBits(b)
    decreases a
  {
    hide ByteBits;
    if a == [] {
      assert a + b == b;
    } else {
      assert (a + b)[1..] == a[1..] + b;
      MessageBitsConcat(a[1..], b);
    }
  }

  lemma ByteBitsInjective(a: Octet, b: Octet)
    requires ByteBits(a) == ByteBits(b)
    ensures a == b
  {
    assert forall i :: 0 <= i < 8 ==> ByteBits(a)[i] == ByteBits(b)[i];
    assert ByteBits(a)[0] == ByteBits(b)[0] && ByteBits(a)[1] == ByteBits(b)[1] && ByteBits(a)[2] == ByteBits(b)[2];
    assert ByteBits(a)[3] == ByteBits(b)[3] && ByteBits(a)[4] == ByteBits(b)[4] && ByteBits(a)[5] == ByteBits(b)[5];
    assert ByteBits(a)[6] == ByteBits(b)[6] && ByteBits(a)[7] == ByteBits(b)[7];
    SameByte(a, b);
  }

  lemma SameByte(a: Octet, b: Octet)
    requires (a & 0x80 != 0) == (b & 0x80 != 0) && (a & 0x40 != 0) == (b & 0x40 != 0)
    requires (a & 0x20 != 0) == (b & 0x20 != 0) && (a & 0x10 != 0) == (b & 0x10 != 0)
    requires (a & 0x08 != 0) == (b & 0x08 != 0) && (a & 0x04 != 0) == (b & 0x04 != 0)
    requires (a & 0x02 != 0) == (b & 0x02 != 0) && (a & 0x01 != 0) == (b & 0x01 != 0)
    ensures a == b
  {
  }

  lemma {:induction false} MessageBitsInjective(a: seq<Octet>, b: seq<Octet>)
    requires MessageBits(a) == MessageBits(b)
    ensures a == b
    decreases a
  {
    hide ByteBits;
    if a != [] {
      var x, y := MessageBits(a), MessageBits(b);
      assert ByteBits(a[0]) == x[..8] == y[..8] == ByteBits(b[0]);
      assert MessageBits(a[1..]) == x[8..] == y[8..] == MessageBits(b[1..]);
      ByteBitsInjective(a[0], b[0]);
      MessageBitsInjective(a[1..], b[1..]);
      assert a == [a[0]] + a[1..] && b == [b[0]] + b[1..];
    }
  }

  lemma ComplementInjective(a: Word, b: Word)
    requires Complement(a) == Complement(b)
    ensures a == b
  {
    assert !!a == a && !!b == b;
  }

  /** Two bit strings that differ, but only within 32 consecutive bits, leave different remainders. */
  lemma BurstChangesRemainder(r: Word, a: seq<bool>, b: seq<bool>, lo: nat, hi: nat)
    requires |a| == |b| && lo <= hi <= |a| && hi - lo <= 32
    requires a[..lo] == b[..lo] && a[hi..] == b[hi..] && a != b
    ensures FeedBits(r, a) != FeedBits(r, b)
  {
    if FeedBits(r, a) == FeedBits(r, b) {
      var before := FeedBits(r, a[..lo]);
      assert a == (a[..lo] + a[lo..hi]) + a[hi..] && b == (b[..lo] + b[lo..hi]) + b[hi..];
      hide FeedBits;
      FeedBitsConcat(r, a[..lo] + a[lo..hi], a[hi..]);
      FeedBitsConcat(r, b[..lo] + b[lo..hi], b[hi..]);
      FeedBitsConcat(r, a[..lo], a[lo..hi]);
      FeedBitsConcat(r, b[..lo], b[lo..hi]);
      FeedBitsInjective(FeedBits(before, a[lo..hi]), FeedBits(before, b[lo..hi]), a[hi..]);
      WindowInjective(before, a[lo..hi], b[lo..hi]);
    }
  }

  /** Equal-length messages that differ, but only within 32 consecutive bits, have different CRCs. */
  lemma BurstDetected(m: seq<Octet>, m': seq<Octet>, lo: nat, hi: nat)
    requires |m| == |m'| && m != m' && lo <= hi <= 8 * |m| && hi - lo <= 32
    requires MessageBits(m)[..lo] == MessageBits(m')[..lo] && MessageBits(m)[hi..] == MessageBits(m')[hi..]
    ensures BitSerialCrc(m) != BitSerialCrc(m')
  {
    hide FeedBits, MessageBits, Complement;
    if MessageBits(m) == MessageBits(m') {
      MessageBitsInjective(m, m');
    }
    BurstChangesRemainder(PRELOAD, MessageBits(m), MessageBits(m'), lo, hi);
    var r, r' := FeedBits(PRELOAD, MessageBits(m)), FeedBits(PRELOAD, MessageBits(m'));
    if Complement(r) == Complement(r') {
      ComplementInjective(r, r');
    }
  }

  /** In particular, when they differ only within 4 consecutive bytes. */
  lemma ByteBurstDetected(m: seq<Octet>, m': seq<Octet>, lo: nat, hi: nat)
    requires |m| == |m'| && m != m' && lo <= hi <= |m| && hi - lo <= 4
    requires m[..lo] == m'[..lo] && m[hi..] == m'[hi..]
    ensures BitSerialCrc(m) != BitSerialCrc(m')
  {
    hide BitSerialCrc;
    assert m == m[..lo] + m[lo..] == m[..hi] + m[hi..] && m' == m'[..lo] + m'[lo..] == m'[..hi] + m'[hi..];
    MessageBitsConcat(m[..lo], m[lo..]);
    MessageBitsConcat(m'[..lo], m'[lo..]);
    MessageBitsConcat(m[..hi], m[hi..]);
    MessageBitsConcat(m'[..hi], m'[hi..]);
    hide MessageBits;
    BurstDetected(m, m', 8 * lo, 8 * hi);
  }

  // ---------- a message with its own CRC appended ----------

  /** A word as four bytes, most significant first. */
  function WordBytes(r: Word): seq<Octet> {
    [(r >> 24) as Octet, ((r >> 16) & 0xff) as Octet, ((r >> 8) & 0xff) as Octet, (r & 0xff) as Octet]
  }

  lemma PackWord(r: Word)
    ensures Pack(MessageBits(WordBytes(r))) == r
  {
    var s := WordBytes(r);
    WordOfBytes(r);
    hide Xor, ByteWord, ByteDown, ByteBits, WordBytes, Pack;
    assert MessageBits(s) == ByteBits(s[0]) + MessageBits(s[1..]);
    assert s[1..][1..] == s[2..] && s[2..][1..] == s[3..] && s[3..][1..] == [];
    assert MessageBits(s[1..]) == ByteBits(s[1]) + MessageBits(s[2..]);
    assert MessageBits(s[2..]) == ByteBits(s[2]) + MessageBits(s[3..]);
    assert MessageBits(s[3..]) == ByteBits(s[3]) + [];
    PackByte(s[0], MessageBits(s[1..]));
    PackByte(s[1], MessageBits(s[2..]));
    PackByte(s[2], MessageBits(s[3..]));
    PackByte(s[3], []);
  }

  lemma WordOfBytes(r: Word)
    ensures |WordBytes(r)| == 4 && Pack([]) == 0
    ensures var s := WordBytes(r);
      Xor(ByteWord(s[0]), ByteDown(Xor(ByteWord(s[1]),
        ByteDown(Xor(ByteWord(s[2]), ByteDown(Xor(ByteWord(s[3]), ByteDown(0)))))))) == r
  {
  }

  /** What the register holds after any message followed by its own CRC. */
  const RESIDUE: Word := ShiftN(PRELOAD, 32)

  lemma XorComplement(r: Word)
    ensures Xor(r, Complement(r)) == PRELOAD
  {
  }

  lemma AppendedCrcLeavesResidue(m: seq<Octet>)
    ensures FeedBits(PRELOAD, MessageBits(m + WordBytes(BitSerialCrc(m)))) == RESIDUE
  {
    var r := FeedBits(PRELOAD, MessageBits(m));
    var tail := WordBytes(Complement(r));
    assert |MessageBits(tail)| == 32;
    hide FeedBits, MessageBits, Xor, Complement, ShiftN, Pack, WordBytes;
    MessageBitsConcat(m, tail);
    FeedBitsConcat(PRELOAD, MessageBits(m), MessageBits(tail));
    PackedFeed(r, MessageBits(tail));
    PackWord(Complement(r));
    XorComplement(r);
  }

  // ---------- the remainder of long division ----------

  /** Schoolbook long division: bring down the next coefficient of the dividend, subtract the divisor if it goes. */
  function BringDown(r: Word, bit: bool): Word {
    Xor(Shift(r), UnitTerm(bit))
  }

  function UnitTerm(bit: bool): Word {
    if bit then 1 else 0
  }

  function Remainder(r: Word, dividend: seq<bool>): Word
    decreases dividend
  {
    if dividend == [] then r else Remainder(BringDown(r, dividend[0]), dividend[1..])
  }

  function Zeros(n: nat): seq<bool> {
    seq(n, _ => false)
  }

  lemma {:induction false} RemainderOfZeros(r: Word, n: nat)
    ensures Remainder(r, Zeros(n)) == ShiftN(r, n)
    decreases n
  {
    hide Shift, Xor;
    if n > 0 {
      assert Zeros(n)[1..] == Zeros(n - 1);
      XorSelf(Shift(r));
      RemainderOfZeros(Shift(r), n - 1);
    }
  }

  lemma {:induction false} RemainderConcat(r: Word, a: seq<bool>, b: seq<bool>)
    ensures Remainder(r, a + b) == Remainder(Remainder(r, a), b)
    decreases a
  {
    hide BringDown;
    if a == [] {
      assert a + b == b;
    } else {
      assert (a + b)[1..] == a[1..] + b;
      RemainderConcat(BringDown(r, a[0]), a[1..], b);
    }
  }

  /** A coefficient brought down at the bottom and one added at the top 32 shifts later have the same effect. */
  lemma UnitTermShifted(bit: bool)
    ensures ShiftN(UnitTerm(bit), 32) == Shift(LeadingTerm(bit))
  {
    if bit {
      assert Low(1) == 1 && ByteUp(1) == 0x100 && Low(0x100) == 0x100 && ByteUp(0x100) == 0x1_0000;
      assert Low(0x1_0000) == 0x1_0000 && ByteUp(0x1_0000) == 0x100_0000 && ByteWord(1) == 0x100_0000;
      assert Shift(0x8000_0000) == POLY;
      hide Low, ByteUp, Shift, ByteWord;
      LowShifts(1);
      LowShifts(0x100);
      LowShifts(0x1_0000);
      EntryOne();
      ShiftNAdd(1, 8, 24);
      ShiftNAdd(0x100, 8, 16);
      ShiftNAdd(0x1_0000, 8, 8);
    } else {
      assert Shift(0) == 0;
      hide Shift;
      ZeroStaysZero(32);
    }
  }

  lemma {:induction false} ZeroStaysZero(n: nat)
    ensures ShiftN(0, n) == 0
    decreases n
  {
    assert Shift(0) == 0;
    hide Shift;
    if n > 0 {
      ZeroStaysZero(n - 1);
    }
  }

  lemma {:induction false} FeedIsLongDivision(a: Word, m: seq<bool>)
    ensures FeedBits(ShiftN(a, 32), m) == ShiftN(Remainder(a, m), 32)
    decreases m
  {
    hide Shift, Xor, UnitTerm, LeadingTerm;
    if m != [] {
      UnitTermShifted(m[0]);
      ShiftNAdd(a, 32, 1);
      ShiftNAdd(a, 1, 32);
      assert ShiftN(Shift(a), 32) == Shift(ShiftN(a, 32)) by {
        assert ShiftN(a, 1) == Shift(a) && ShiftN(ShiftN(a, 32), 1) == Shift(ShiftN(a, 32));
      }
      ShiftNLinear(Shift(a), UnitTerm(m[0]), 32);
      ShiftLinear(ShiftN(a, 32), LeadingTerm(m[0]));
      FeedIsLongDivision(BringDown(a, m[0]), m[1..]);
    }
  }

  function Unshift(r: Word): Word {
    if r & 1 == 0 then Halve(r) else Xor(Halve(Xor(r, POLY)), 0x8000_0000)
  }

  lemma UnshiftInverts(r: Word)
    ensures Shift(Unshift(r)) == r
  {
    if r & 1 == 0 {
      DoubleHalved(r);
      HalvedHasNoLeading(r);
    } else {
      UnshiftOdd(r, POLY);
    }
  }

  lemma UnshiftOdd(r: Word, p: Word)
    requires r & 1 != 0 && p & 1 != 0
    ensures Leading(Xor(Halve(Xor(r, p)), 0x8000_0000))
    ensures Xor(Double(Xor(Halve(Xor(r, p)), 0x8000_0000)), p) == r
  {
  }

  lemma {:induction false} Unshifted(r: Word, n: nat) returns (a: Word)
    ensures ShiftN(a, n) == r
    decreases n
  {
    hide Shift, Unshift;
    if n == 0 {
      a := r;
    } else {
      var b := Unshifted(r, n - 1);
      UnshiftInverts(b);
      a := Unshift(b);
    }
  }

  /**
   The CRC is the complemented remainder of long division by the polynomial, the dividend being the message
   followed by 32 zeros; the register starts with the one value that 32 shifts take to the preload.
   */
  lemma CrcIsLongDivision(m: seq<Octet>) returns (start: Word)
    ensures ShiftN(start, 32) == PRELOAD
    ensures BitSerialCrc(m) == Complement(Remainder(start, MessageBits(m) + Zeros(32)))
  {
    hide FeedBits, Remainder, ShiftN, Complement, Zeros;
    start := Unshifted(PRELOAD, 32);
    FeedIsLongDivision(start, MessageBits(m));
    RemainderConcat(start, MessageBits(m), Zeros(32));
    RemainderOfZeros(Remainder(start, MessageBits(m)), 32);
  }

  // ---------- a known value ----------

  lemma EightShifts(x: Word)
    ensures ShiftN(x, 8) == Shift(Shift(Shift(Shift(Shift(Shift(Shift(Shift(x))))))))
  {
    hide Shift;
    assert ShiftN(x, 8) == ShiftN(Shift(Shift(Shift(Shift(x)))), 4);
  }

  lemma CheckSteps()
    ensures TableStep(0xffff_ffff, 0x31) == 0x9efb_cf93
    ensures TableStep(0x9efb_cf93, 0x32) == 0x3fec_5e6a
    ensures TableStep(0x3fec_5e6a, 0x33) == 0xd952_f164
    ensures TableStep(0xd952_f164, 0x34) == 0xa695_c4aa
    ensures TableStep(0xa695_c4aa, 0x35) == 0xbd9a_b747
    ensures TableStep(0xbd9a_b747, 0x36) == 0xd8f0_6c8f
    ensures TableStep(0xd8f0_6c8f, 0x37) == 0x0d8a_14c4
    ensures TableStep(0x0d8a_14c4, 0x38) == 0x49e3_c2fb
    ensures TableStep(0x49e3_c2fb, 0x39) == 0x0376_e6e7
  {
    hide ShiftN;
    EightShifts(ByteWord(Index(0xffff_ffff, 0x31)));
    EightShifts(ByteWord(Index(0x9efb_cf93, 0x32)));
    EightShifts(ByteWord(Index(0x3fec_5e6a, 0x33)));
    EightShifts(ByteWord(Index(0xd952_f164, 0x34)));
    EightShifts(ByteWord(Index(0xa695_c4aa, 0x35)));
    EightShifts(ByteWord(Index(0xbd9a_b747, 0x36)));
    EightShifts(ByteWord(Index(0xd8f0_6c8f, 0x37)));
    EightShifts(ByteWord(Index(0x0d8a_14c4, 0x38)));
    EightShifts(ByteWord(Index(0x49e3_c2fb, 0x39)));
  }

  lemma FeedNext(r: Word, m: seq<Octet>, k: nat)
    requires k < |m|
    ensures TableFeed(r, m[k..]) == TableFeed(TableStep(r, m[k]), m[k + 1..])
  {
    hide TableStep;
    assert m[k..][1..] == m[k + 1..];
  }

  /** The check value of the most-significant-bit-first CRC-32: that of the digits 1 to 9. */
  lemma CheckValue()
    ensures BitSerialCrc([0x31, 0x32, 0x33, 0x34, 0x35, 0x36, 0x37, 0x38, 0x39]) == 0xfc89_1918
  {
    hide TableStep, TableFeed, FeedBits, MessageBits;
    var m: seq<Octet> := [0x31, 0x32, 0x33, 0x34, 0x35, 0x36, 0x37, 0x38, 0x39];
    TableFeedIsBitSerial(0xffff_ffff, m);
    CheckSteps();
    CheckFeed();
    assert !(0x0376_e6e7 as Word) == 0xfc89_1918;
  }

  lemma CheckFeed()
    ensures TableFeed(0xffff_ffff, [0x31, 0x32, 0x33, 0x34, 0x35, 0x36, 0x37, 0x38, 0x39]) == 0x0376_e6e7
  {
    hide TableStep, TableFeed;
    CheckSteps();
    var m: seq<Octet> := [0x31, 0x32, 0x33, 0x34, 0x35, 0x36, 0x37, 0x38, 0x39];
    assert m[0..] == m && m[9..] == [];
    FeedNext(0xffff_ffff, m, 0);
    FeedNext(0x9efb_cf93, m, 1);
    FeedNext(0x3fec_5e6a, m, 2);
    FeedNext(0xd952_f164, m, 3);
    FeedNext(0xa695_c4aa, m, 4);
    FeedNext(0xbd9a_b747, m, 5);
    FeedNext(0xd8f0_6c8f, m, 6);
    FeedNext(0x0d8a_14c4, m, 7);
    FeedNext(0x49e3_c2fb, m, 8);
    NothingFed(0x0376_e6e7);
  }

  lemma NothingFed(r: Word)
    ensures TableFeed(r, []) == r
  {
  }
}
