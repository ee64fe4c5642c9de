/** The initialization of PCI devices in rombios32.c: base-address allocation, and the ROMs found on the way. */
module PciAlloc {
  import opened Common
  import opened Bits
  import opened RomShadow

  const NUM_REGIONS := 7
  const ROM_SLOT := 6

  datatype Space = Io | Mem
  datatype Region = Region(space: Space, base: nat, size: nat)

  /** The next free address in each space. */
  datatype Cursors = Cursors(io: nat, mem: nat) {
    function At(space: Space): nat {
      if space.Io? then io else mem
    }

    function Moved(space: Space, addr: nat): Cursors {
      if space.Io? then Cursors(addr, mem) else Cursors(io, addr)
    }
  }

  const INITIAL := Cursors(0xc000, 0xc000_0000)

  // ---------- the arithmetic, in 32 bits ----------

  /** size = (~(val & ~0xf)) + 1 */
  function SizeOf(val: nat): (size: nat)
    requires val < TWO_32
  {
    var masked := And(val, 0xffff_fff0);
    U32(TWO_32 - 1 - masked + 1)
  }

  /** (addr + size - 1) & ~(size - 1) */
  function Align(addr: nat, size: nat): (r: nat) {
    And(U32(addr + size - 1), Not32(U32(size - 1)))
  }

  function SpaceOf(val: nat): Space {
    if val % 2 == 1 then Io else Mem
  }

  function Place(c: Cursors, val: nat): Region
    requires val < TWO_32
  {
    Region(SpaceOf(val), Align(c.At(SpaceOf(val)), SizeOf(val)), SizeOf(val))
  }

  function Advance(c: Cursors, val: nat): Cursors
    requires val < TWO_32
  {
    var r := Place(c, val);
    c.Moved(r.space, U32(r.base + r.size))
  }

  predicate Words(vals: seq<nat>) {
    forall i :: 0 <= i < |vals| ==> vals[i] < TWO_32
  }

  /** The regions given out for the values read back from a run of base-address registers; 0 is no register. */
  function Placements(c: Cursors, vals: seq<nat>): seq<Region>
    requires Words(vals)
    decreases vals
  {
    if vals == [] then []
    else if vals[0] == 0 then Placements(c, vals[1..])
    else [Place(c, vals[0])] + Placements(Advance(c, vals[0]), vals[1..])
  }

  function CursorsAfter(c: Cursors, vals: seq<nat>): Cursors
    requires Words(vals)
    decreases vals
  {
    if vals == [] then c
    else CursorsAfter(if vals[0] == 0 then c else Advance(c, vals[0]), vals[1..])
  }

  // ---------- what a register that decodes 2^k bytes reads back as ----------

  /** All ones written, the low k bits are hardwired, the lowest ones among them to the flags. */
  ghost predicate Decodes(val: nat, k: nat) {
    && 2 <= k <= 31
    && Pow2(k) <= TWO_32
    && TWO_32 - Pow2(k) <= val < TWO_32 - Pow2(k) + (if k < 4 then Pow2(k) else 16)
  }

  /** The mask arithmetic finds the decoded size, rounded up to 16 bytes. */
  lemma SizeOfDecoded(val: nat, k: nat)
    requires Decodes(val, k)
    ensures val < TWO_32 && val != 0
    ensures SizeOf(val) == Pow2(if k < 4 then 4 else k)
  {
    Pow2Of32();
    SmallPowers();
    Pow2Monotone(k, 31);
    if k < 4 {
      Pow2Monotone(k, 3);
    } else {
      Pow2Monotone(4, k);
      Pow2Split(k);
    }
    hide Pow2, And, RoundDown;
    AndHighMask(val, 32, 4);
    RoundsTo(val, if k < 4 then TWO_32 / 16 - 1 else TWO_32 / 16 - Pow2(k - 4));
  }

  lemma SmallPowers()
    ensures Pow2(2) == 4 && Pow2(3) == 8 && Pow2(4) == 16 && Pow2(31) == 0x8000_0000
  {
    Pow2Of32();
    assert Pow2(32) == 2 * Pow2(31);
  }

  lemma RoundsTo(val: nat, q: nat)
    requires 16 * q <= val < 16 * q + 16
    ensures RoundDown(val, 16) == 16 * q
  {
    DivModUnique(val, 16, q, val - 16 * q);
  }

  lemma {:induction false} Pow2Split(k: nat)
    requires 4 <= k
    ensures Pow2(k) == 16 * Pow2(k - 4)
    decreases k
  {
    if k == 4 {
      assert Pow2(4) == 16;
    } else {
      Pow2Split(k - 1);
    }
  }

  // ---------- one region ----------

  /** The least multiple of the size that is not below the cursor. */
  ghost predicate LeastAligned(base: nat, addr: nat, size: nat)
    requires 1 <= size
  {
    && base % size == 0 && addr <= base < addr + size
    && forall m: nat :: m % size == 0 && addr <= m ==> base <= m
  }

  lemma AlignIsRoundDown(addr: nat, k: nat)
    requires addr < TWO_32 && k <= 31
    ensures Pow2(k) < TWO_32 && Align(addr, Pow2(k)) == RoundDown(U32(addr + Pow2(k) - 1), Pow2(k))
  {
    hide Pow2, And, RoundDown, U32, Not32;
    Pow2Of32();
    SmallPowers();
    Pow2Monotone(k, 31);
    AndHighMask(U32(addr + Pow2(k) - 1), 32, k);
    MaskOf(Pow2(k));
  }

  lemma MaskOf(size: nat)
    requires 1 <= size < TWO_32
    ensures Not32(U32(size - 1)) == TWO_32 - size
  {
  }

  /** The mask arithmetic rounds up to the least aligned address exactly when the rounding does not pass 2^32. */
  lemma AlignRoundsUp(addr: nat, k: nat)
    requires addr < TWO_32 && k <= 31
    ensures Pow2(k) < TWO_32
    ensures addr + Pow2(k) - 1 < TWO_32 ==> LeastAligned(Align(addr, Pow2(k)), addr, Pow2(k))
    ensures addr + Pow2(k) - 1 >= TWO_32 ==> Align(addr, Pow2(k)) < addr
  {
    hide Align, Pow2, RoundDown, LeastAligned;
    AlignIsRoundDown(addr, k);
    var x := U32(addr + Pow2(k) - 1);
    if addr + Pow2(k) - 1 < TWO_32 {
      RoundedIsLeast(addr, Pow2(k));
    } else {
      assert x == addr + Pow2(k) - 1 - TWO_32;
      RoundDownIsGreatest(x, Pow2(k));
    }
  }

  lemma RoundedIsLeast(addr: nat, size: nat)
    requires 1 <= size
    ensures LeastAligned(RoundDown(addr + size - 1, size), addr, size)
  {
    var base := RoundDown(addr + size - 1, size);
    RoundDownIsGreatest(addr + size - 1, size);
    hide RoundDown;
    forall m: nat | m % size == 0 && addr <= m ensures base <= m {
      MultiplesApart(m, base, size);
    }
  }

  lemma MultiplesApart(a: nat, b: nat, size: nat)
    requires 1 <= size && a % size == 0 && b % size == 0
    ensures a < b ==> a + size <= b
  {
    var p, q := a / size, b / size;
    assert a == size * p && b == size * q;
    if p < q {
      MulMonotone(size, p + 1, q);
    } else {
      MulMonotone(size, q, p);
    }
  }

  // ---------- runs of regions ----------

  /** Every register either is not implemented or decodes a power of two. */
  ghost predicate AllDecode(vals: seq<nat>) {
    forall i :: 0 <= i < |vals| && vals[i] != 0 ==> exists k :: Decodes(vals[i], k)
  }

  lemma AllDecodeTail(vals: seq<nat>)
    requires AllDecode(vals) && vals != []
    ensures Words(vals) && AllDecode(vals[1..])
  {
    forall i | 0 <= i < |vals| ensures vals[i] < TWO_32 {
      if vals[i] != 0 {
        var k :| Decodes(vals[i], k);
        SizeOfDecoded(vals[i], k);
      }
    }
  }

  predicate Bounded(c: Cursors) {
    c.io < TWO_32 && c.mem < TWO_32
  }

  /** The next region and the cursor behind it stay below 2^32. */
  ghost predicate StepStays(c: Cursors, val: nat)
    requires val < TWO_32
  {
    var r := Place(c, val);
    c.At(r.space) + r.size - 1 < TWO_32 && r.base + r.size < TWO_32
  }

  ghost predicate StaysBelow(c: Cursors, vals: seq<nat>)
    requires Words(vals)
    decreases vals
  {
    vals == [] ||
    if vals[0] == 0 then StaysBelow(c, vals[1..])
    else StepStays(c, vals[0]) && StaysBelow(Advance(c, vals[0]), vals[1..])
  }

  /** The region is placed at or above the cursor and the cursor ends up above the region's start. */
  ghost predicate StepAdvances(c: Cursors, val: nat)
    requires val < TWO_32
  {
    var r := Place(c, val);
    c.At(r.space) <= r.base < Advance(c, val).At(r.space)
  }

  ghost predicate Advances(c: Cursors, vals: seq<nat>)
    requires Words(vals)
    decreases vals
  {
    vals == [] ||
    if vals[0] == 0 then Advances(c, vals[1..])
    else StepAdvances(c, vals[0]) && Advances(Advance(c, vals[0]), vals[1..])
  }

  lemma StepStaysIffAdvances(c: Cursors, val: nat, k: nat)
    requires Bounded(c) && Decodes(val, k)
    ensures val < TWO_32 && (StepStays(c, val) <==> StepAdvances(c, val))
    ensures var r := Place(c, val);
      StepStays(c, val) ==> 16 <= r.size && LeastAligned(r.base, c.At(r.space), r.size)
    ensures Bounded(Advance(c, val))
  {
    hide And, Align, Pow2, SizeOf, Decodes, LeastAligned;
    SizeOfDecoded(val, k);
    SmallPowers();
    var j := if k < 4 then 4 else k;
    assert 4 <= j <= 31 by { assert 2 <= k <= 31 by { DecodesRange(val, k); } }
    Pow2Monotone(4, j);
    AlignRoundsUp(c.At(SpaceOf(val)), j);
    LeastAlignedIsAbove(Place(c, val).base, c.At(SpaceOf(val)), Pow2(j));
  }

  lemma DecodesRange(val: nat, k: nat)
    requires Decodes(val, k)
    ensures 2 <= k <= 31
  {
  }

  lemma LeastAlignedIsAbove(base: nat, addr: nat, size: nat)
    requires 1 <= size
    ensures LeastAligned(base, addr, size) ==> addr <= base < addr + size && base % size == 0
  {
  }

  /** The allocator makes progress in both spaces exactly as long as nothing passes 2^32. */
  lemma {:induction false} StaysIffAdvances(c: Cursors, vals: seq<nat>)
    requires Bounded(c) && AllDecode(vals) && Words(vals)
    ensures StaysBelow(c, vals) <==> Advances(c, vals)
    decreases vals
  {
    hide StepStays, StepAdvances, Advance, AllDecode, Decodes;
    if vals != [] {
      AllDecodeTail(vals);
      if vals[0] == 0 {
        StaysIffAdvances(c, vals[1..]);
      } else {
        var k := DecodedAs(vals, 0);
        StepStaysIffAdvances(c, vals[0], k);
        StaysIffAdvances(Advance(c, vals[0]), vals[1..]);
      }
    }
  }

  lemma DecodedAs(vals: seq<nat>, i: nat) returns (k: nat)
    requires AllDecode(vals) && i < |vals| && vals[i] != 0
    ensures Decodes(vals[i], k)
  {
    k :| Decodes(vals[i], k);
  }

  /** Aligned, above the start, and pairwise disjoint and increasing within each space. */
  ghost predicate WellPlaced(rs: seq<Region>, c: Cursors) {
    && (forall i :: 0 <= i < |rs| ==>
          1 <= rs[i].size && rs[i].base % rs[i].size == 0 && c.At(rs[i].space) <= rs[i].base)
    && (forall i, j :: 0 <= i < j < |rs| && rs[i].space == rs[j].space ==> rs[i].base + rs[i].size <= rs[j].base)
  }

  /** An address that region i could have had: aligned, and clear of all that was given out before it. */
  ghost predicate Candidate(rs: seq<Region>, c: Cursors, i: nat, m: nat)
    requires i < |rs| && 1 <= rs[i].size
  {
    && m % rs[i].size == 0 && c.At(rs[i].space) <= m
    && forall j :: 0 <= j < i && rs[j].space == rs[i].space ==> rs[j].base + rs[j].size <= m
  }

  /** Every region of a run has the smallest address it could have had. */
  ghost predicate SmallestPlaced(rs: seq<Region>, c: Cursors)
    requires WellPlaced(rs, c)
  {
    forall i, m: nat :: 0 <= i < |rs| && Candidate(rs, c, i, m) ==> rs[i].base <= m
  }

  /** The place for a region in unbounded arithmetic. */
  function Ideal(c: Cursors, val: nat): Region
    requires val < TWO_32 && 1 <= SizeOf(val)
  {
    var size := SizeOf(val);
    Region(SpaceOf(val), RoundDown(c.At(SpaceOf(val)) + size - 1, size), size)
  }

  /** Rounding up in unbounded arithmetic, one region behind the other, no region ends above 4GB. */
  ghost predicate Fits(c: Cursors, vals: seq<nat>)
    requires Words(vals)
    decreases vals
  {
    vals == [] ||
    if vals[0] == 0 || SizeOf(vals[0]) == 0 then Fits(c, vals[1..])
    else
      var r := Ideal(c, vals[0]);
      r.base + r.size <= TWO_32 && Fits(c.Moved(r.space, r.base + r.size), vals[1..])
  }

  /** The cursors as the 32-bit variables hold them: a space that is full up to 4GB has its cursor at 0 again. */
  function Wrapped(c: Cursors): Cursors {
    Cursors(U32(c.io), U32(c.mem))
  }

  predicate WithinSpace(c: Cursors) {
    c.io <= TWO_32 && c.mem <= TWO_32
  }

  /**
   The regions of a run are aligned, above the start, disjoint and increasing if and only if, rounding up in unbounded
   arithmetic, none of them ends above 4GB; then each has the smallest address it could have had.
   */
  lemma RegionsAreWellPlaced(c: Cursors, vals: seq<nat>)
    requires Bounded(c) && AllDecode(vals) && Words(vals)
    ensures WellPlaced(Placements(c, vals), c) <==> Fits(c, vals)
    ensures Fits(c, vals) ==> SmallestPlaced(Placements(c, vals), c)
  {
    assert Wrapped(c) == c;
    if Fits(c, vals) {
      FittingIsWellPlaced(c, vals);
    } else if WellPlaced(Placements(c, vals), c) {
      WellPlacedFits(c, vals);
    }
  }

  /** Two registers of 1GB each: the first fills the space up to 4GB, and the second is not well placed behind it. */
  lemma TwoGigabytesDoNotFit()
    ensures var vals := [0xc000_0000, 0xc000_0000];
      && AllDecode(vals) && Words(vals)
      && !Fits(INITIAL, vals) && !WellPlaced(Placements(INITIAL, vals), INITIAL)
  {
    hide And, WellPlaced, Placements, SizeOf, Pow2;
    var vals := [0xc000_0000, 0xc000_0000];
    assert Decodes(0xc000_0000, 30) && Pow2(30) == 0x4000_0000 by {
      SmallPowers();
      Pow2Of32();
      Pow2Add(30, 1);
      Pow2Add(31, 1);
    }
    SizeOfDecoded(0xc000_0000, 30);
    assert !Fits(Cursors(0xc000, TWO_32), vals[1..]);
    RegionsAreWellPlaced(INITIAL, vals);
  }

  lemma {:induction false} FittingIsWellPlaced(c: Cursors, vals: seq<nat>)
    requires WithinSpace(c) && AllDecode(vals) && Words(vals) && Fits(c, vals)
    ensures WellPlaced(Placements(Wrapped(c), vals), c)
    ensures SmallestPlaced(Placements(Wrapped(c), vals), c)
    decreases vals
  {
    hide And, Align, SizeOf, AllDecode, Decodes, WellPlaced, SmallestPlaced, LeastAligned, RoundDown;
    if vals == [] {
      NothingPlaced(c);
    } else {
      AllDecodeTail(vals);
      if vals[0] == 0 {
        FittingIsWellPlaced(c, vals[1..]);
      } else {
        var k := DecodedAs(vals, 0);
        StepIsIdeal(c, vals[0], k);
        var r := Ideal(c, vals[0]);
        var d := c.Moved(r.space, r.base + r.size);
        FittingIsWellPlaced(d, vals[1..]);
        FirstRegion(c, r, Placements(Wrapped(d), vals[1..]));
      }
    }
  }

  lemma NothingPlaced(c: Cursors)
    ensures WellPlaced([], c) && SmallestPlaced([], c)
  {
  }

  lemma {:induction false} WellPlacedFits(c: Cursors, vals: seq<nat>)
    requires WithinSpace(c) && AllDecode(vals) && Words(vals) && WellPlaced(Placements(Wrapped(c), vals), c)
    ensures Fits(c, vals)
    decreases vals
  {
    hide And, Align, SizeOf, AllDecode, Decodes, WellPlaced, LeastAligned, RoundDown;
    if vals != [] {
      AllDecodeTail(vals);
      if vals[0] == 0 {
        WellPlacedFits(c, vals[1..]);
      } else {
        var k := DecodedAs(vals, 0);
        StepIsIdeal(c, vals[0], k);
        var r := Place(Wrapped(c), vals[0]);
        var rest := Placements(Advance(Wrapped(c), vals[0]), vals[1..]);
        assert Placements(Wrapped(c), vals) == [r] + rest;
        FirstIsAbove(c, r, rest);
        var d := c.Moved(r.space, r.base + r.size);
        WellPlacedRest(c, r, rest);
        WellPlacedFits(d, vals[1..]);
      }
    }
  }

  lemma FirstIsAbove(c: Cursors, r: Region, rest: seq<Region>)
    requires WellPlaced([r] + rest, c)
    ensures 1 <= r.size && c.At(r.space) <= r.base
  {
    assert ([r] + rest)[0] == r;
  }

  lemma WellPlacedRest(c: Cursors, r: Region, rest: seq<Region>)
    requires WellPlaced([r] + rest, c)
    ensures WellPlaced(rest, c.Moved(r.space, r.base + r.size))
  {
    var rs := [r] + rest;
    assert rs[0] == r && forall i :: 0 <= i < |rest| ==> rest[i] == rs[i + 1];
  }

  /** A region is placed at or above the cursor exactly if its ideal place ends within 4GB, and then at that place. */
  lemma StepIsIdeal(c: Cursors, val: nat, k: nat)
    requires WithinSpace(c) && Decodes(val, k)
    ensures val < TWO_32 && 16 <= SizeOf(val)
    ensures var r, i := Place(Wrapped(c), val), Ideal(c, val);
      && (c.At(r.space) <= r.base <==> i.base + i.size <= TWO_32)
      && (i.base + i.size <= TWO_32 ==>
            && r == i && LeastAligned(i.base, c.At(i.space), i.size)
            && Advance(Wrapped(c), val) == Wrapped(c.Moved(i.space, i.base + i.size))
            && WithinSpace(c.Moved(i.space, i.base + i.size)))
  {
    hide And, Align, Pow2, SizeOf, Decodes, LeastAligned, RoundDown;
    SizeOfDecoded(val, k);
    SmallPowers();
    var j := if k < 4 then 4 else k;
    assert 4 <= j <= 31 by { assert 2 <= k <= 31 by { DecodesRange(val, k); } }
    Pow2Monotone(4, j);
    var space, size := SpaceOf(val), Pow2(j);
    var addr := c.At(space);
    RoundedIsLeast(addr, size);
    LeastAlignedIsAbove(Ideal(c, val).base, addr, size);
    BelowTop(Wrapped(c).At(space), j);
    if addr < TWO_32 {
      AlignRoundsUp(addr, j);
      if addr + size - 1 < TWO_32 {
        SameLeast(Align(addr, size), Ideal(c, val).base, addr, size);
        EndsWithin(Align(addr, size), j);
      }
    }
  }

  lemma SameLeast(a: nat, b: nat, addr: nat, size: nat)
    requires 1 <= size && LeastAligned(a, addr, size) && LeastAligned(b, addr, size)
    ensures a == b
  {
  }

  lemma BelowTop(addr: nat, k: nat)
    requires addr < TWO_32 && k <= 31
    ensures Align(addr, Pow2(k)) < TWO_32
  {
    hide Pow2, And, Align, RoundDown;
    AlignIsRoundDown(addr, k);
    RoundDownIsGreatest(U32(addr + Pow2(k) - 1), Pow2(k));
  }

  /** An aligned region that starts below 4GB does not end above it. */
  lemma EndsWithin(base: nat, k: nat)
    requires base < TWO_32 && base % Pow2(k) == 0 && k <= 31
    ensures base + Pow2(k) <= TWO_32
  {
    hide Pow2;
    Pow2Add(k, 32 - k);
    Pow2Of32();
    DivModUnique(TWO_32, Pow2(k), Pow2(32 - k), 0);
    MultiplesApart(base, TWO_32, Pow2(k));
  }

  lemma {:induction false} Pow2Add(j: nat, k: nat)
    ensures Pow2(j + k) == Pow2(j) * Pow2(k)
    decreases k
  {
    if k > 0 {
      Pow2Add(j, k - 1);
      DoubleRight(Pow2(j), Pow2(k - 1));
    }
  }

  lemma DoubleRight(p: int, q: int)
    ensures p * (2 * q) == 2 * (p * q)
  {
  }

  lemma FirstRegion(c: Cursors, r: Region, rest: seq<Region>)
    requires 1 <= r.size && LeastAligned(r.base, c.At(r.space), r.size)
    requires WellPlaced(rest, c.Moved(r.space, r.base + r.size))
    requires SmallestPlaced(rest, c.Moved(r.space, r.base + r.size))
    ensures WellPlaced([r] + rest, c)
    ensures SmallestPlaced([r] + rest, c)
  {
    var d := c.Moved(r.space, r.base + r.size);
    var rs := [r] + rest;
    assert forall s :: s != r.space ==> d.At(s) == c.At(s);
    hide LeastAligned;
    LeastAlignedIsAbove(r.base, c.At(r.space), r.size);
    assert forall i :: 0 < i < |rs| ==> rs[i] == rest[i - 1];
    forall i, m: nat | 0 <= i < |rs| && Candidate(rs, c, i, m) ensures rs[i].base <= m {
      if i == 0 {
        LeastAlignedIsLeast(r.base, c.At(r.space), r.size, m);
      } else {
        forall j | 0 <= j < i - 1 && rest[j].space == rest[i - 1].space ensures rest[j].base + rest[j].size <= m {
          assert rs[j + 1] == rest[j];
        }
        assert rs[0] == r;
        assert Candidate(rest, d, i - 1, m);
      }
    }
  }

  lemma LeastAlignedIsLeast(base: nat, addr: nat, size: nat, m: nat)
    requires 1 <= size && LeastAligned(base, addr, size) && m % size == 0 && addr <= m
    ensures base <= m
  {
  }

  /** An I/O register whose upper half is hardwired to 0 is not decoded: the size found is nearly the whole of 2^32. */
  lemma NarrowRegister(val: nat)
    requires 16 <= val < 0x1_0000
    ensures 0xffff_0000 < SizeOf(val) < TWO_32
  {
    Pow2Of32();
    SmallPowers();
    hide And, Pow2;
    AndHighMask(val, 32, 4);
  }

  // ---------- the devices ----------

  const STORAGE_IDE := 0x0101
  const DISPLAY_VGA := 0x0300
  const SYSTEM_PIC := 0x0800
  const INTEL := 0x8086
  const IBM := 0x1014
  const APPLE := 0x106b

  /** Class code, vendor and device of the configuration header. */
  datatype Identity = Identity(classCode: nat, vendor: nat, device: nat)

  /** What registers 0, 1, ... are given without being probed; no value for a device with the default mapping. */
  function FixedAddresses(id: Identity): (r: Option<seq<nat>>)
    ensures r.Some? ==> |r.value| < ROM_SLOT
  {
    if id.classCode == STORAGE_IDE then
      if id.vendor == INTEL && id.device in {0x7010, 0x7111} then None else Some([0x1f0, 0x3f4, 0x170, 0x374])
    else if id.classCode == SYSTEM_PIC then
      Some(if id.vendor == IBM && id.device in {0x0046, 0xffff} then [0x8084_0000] else [])
    else if id.classCode == 0xff00 then
      Some(if id.vendor == APPLE && id.device in {0x0017, 0x0022} then [0x8080_0000] else [])
    else None
  }

  /** What has been given out never starts at a fixed address, as long as everything fits. */
  lemma FixedAddressesAreClear(vals: seq<nat>, id: Identity, r: Region, a: nat)
    requires AllDecode(vals) && Words(vals) && Fits(INITIAL, vals) && r in Placements(INITIAL, vals)
    requires FixedAddresses(id).Some? && a in FixedAddresses(id).value
    requires r.space.Io? <==> id.classCode == STORAGE_IDE
    ensures a < r.base
  {
    hide Placements, Fits, AllDecode;
    RegionsAreWellPlaced(INITIAL, vals);
  }

  /** A PCI function: what it is, what its registers read back after all ones are written, and what they hold now. */
  class PciFunction {
    const id: Identity
    const probe: seq<nat>
    var bar: seq<nat>
    var ioEnabled: bool
    var memEnabled: bool

    ghost predicate Valid()
      reads this
    {
      |probe| == |bar| == NUM_REGIONS && Words(probe) && bar[ROM_SLOT] < TWO_32
    }

    constructor (id: Identity, probe: seq<nat>)
      requires |probe| == NUM_REGIONS && Words(probe)
      ensures Valid() && this.id == id && this.probe == probe
    {
      this.id, this.probe, bar := id, probe, seq(NUM_REGIONS, _ => 0);
      ioEnabled, memEnabled := false, false;
    }

    /** pci_set_io_region_addr, with oldAddr as read from the register. */
    method SetIoRegionAddr(region: nat, addr: nat, oldAddr: nat)
      requires Valid() && region < NUM_REGIONS && addr < TWO_32
      modifies this
      ensures Valid() && bar == old(bar)[region := if region == ROM_SLOT then RomEnabled(addr) else addr]
      ensures if region == 6 then bar[6] % 2 == 1 && bar[6] / 2 == addr / 2 else bar[region] == addr
      ensures ioEnabled == (old(ioEnabled) || (region != ROM_SLOT && oldAddr % 2 == 1))
      ensures memEnabled == (old(memEnabled) || region == ROM_SLOT || oldAddr % 2 == 0)
    {
      var word := if region == ROM_SLOT then RomEnabled(addr) else addr;
      bar := bar[region := word];
      if region == ROM_SLOT {
        memEnabled := true;
      } else if oldAddr % 2 == 1 {
        ioEnabled := true;
      } else {
        memEnabled := true;
      }
    }

    /** pci_config_writeb(d, PCI_ROM_ADDRESS, 0x00): the ROM is disabled. */
    method DisableRom()
      requires Valid()
      modifies this`bar
      ensures Valid() && bar == old(bar)[ROM_SLOT := RomDisabled(old(bar[ROM_SLOT]))]
      ensures bar[6] % 0x100 == 0 && bar[6] / 0x100 == old(bar[6]) / 0x100
    {
      bar := bar[ROM_SLOT := RomDisabled(bar[ROM_SLOT])];
    }
  }

  /** addr | PCI_ROM_ADDRESS_ENABLE */
  function RomEnabled(addr: nat): (r: nat)
    ensures addr < TWO_32 ==> r < TWO_32
  {
    addr - addr % 2 + 1
  }

  /** The low byte made 0. */
  function RomDisabled(word: nat): nat {
    word - word % 256
  }

  /** What the processor reads from an address on. */
  function Window(memory: nat -> Byte, addr: nat): nat -> Byte {
    k => memory(addr + k)
  }

  /** The ROM that is copied as soon as its place has been found: that of a display controller. */
  function RomAt(d: PciFunction, memory: nat -> Byte, base: nat): seq<Rom> {
    if d.id.classCode == DISPLAY_VGA then [Rom(base, Window(memory, base))] else []
  }

  function DisplayRom(c: Cursors, d: PciFunction, memory: nat -> Byte): seq<Rom>
    requires |d.probe| == NUM_REGIONS && Words(d.probe)
  {
    if d.probe[ROM_SLOT] == 0 then []
    else RomAt(d, memory, Place(CursorsAfter(c, d.probe[..ROM_SLOT]), d.probe[ROM_SLOT]).base)
  }

  /** The ROM that is copied in the last pass: that of any other device, where its register says. */
  function OptionRom(id: Identity, word: nat, memory: nat -> Byte): seq<Rom> {
    if id.classCode == DISPLAY_VGA then []
    else
      var paddr := And(word, 0xffff_fc00);
      [Rom(paddr, Window(memory, paddr))]
  }

  class PciBios {
    var ioAddr: nat
    var memAddr: nat
    var regions: seq<Region>  // not in the source: what has been given out
    const bridge: HostBridge
    const memory: nat -> Byte  // what is read where a ROM is mapped

    function View(): Cursors
      reads this
    {
      Cursors(ioAddr, memAddr)
    }

    ghost predicate Valid()
      reads this, bridge, bridge.ram
    {
      bridge.Valid() && Bounded(View())
    }

    constructor (bridge: HostBridge, memory: nat -> Byte)
      requires bridge.Valid()
      ensures Valid() && View() == INITIAL && regions == [] && this.bridge == bridge && this.memory == memory
      ensures ioAddr == 0xc000 && memAddr == 0xc000_0000
    {
      this.bridge, this.memory := bridge, memory;
      ioAddr, memAddr, regions := 0xc000, 0xc000_0000, [];
    }

    /** A ROM is copied, and the device's own mapping of it then switched off. */
    method ShadowRom(d: PciFunction, paddr: nat)
      requires Valid() && d.Valid()
      modifies d`bar, bridge, bridge.ram
      ensures Valid() && d.Valid()
      ensures var roms := [Rom(paddr, Window(memory, paddr))];
        && bridge.placed == old(bridge.placed) + Loaded(old(bridge.romStart), roms)
        && bridge.romStart == EndOf(old(bridge.romStart), roms)
        && d.bar == if Loaded(old(bridge.romStart), roms) == [] then old(d.bar)
                    else old(d.bar)[ROM_SLOT := RomDisabled(old(d.bar[ROM_SLOT]))]
    {
      hide RomSize;
      OneRom(bridge.romStart, Rom(paddr, Window(memory, paddr)));
      var copied := bridge.InitPciRom(paddr, Window(memory, paddr));
      if copied {
        d.DisableRom();
      }
    }

    /** One round of default_map, for a register that is implemented. */
    method MapRegion(d: PciFunction, i: nat)
      requires Valid() && d.Valid() && i < NUM_REGIONS && d.probe[i] != 0
      modifies this, d, bridge, bridge.ram
      ensures Valid() && d.Valid()
      ensures View() == Advance(old(View()), d.probe[i])
      ensures if d.probe[i] % 2 == 1 then memAddr == old(memAddr) else ioAddr == old(ioAddr)
      ensures var r := Place(old(View()), d.probe[i]);
        var roms := if i == ROM_SLOT then RomAt(d, memory, r.base) else [];
        && regions == old(regions) + [r]
        && bridge.placed == old(bridge.placed) + Loaded(old(bridge.romStart), roms)
        && bridge.romStart == EndOf(old(bridge.romStart), roms)
        && d.bar == old(d.bar)[i := Placed(i, r.base, Loaded(old(bridge.romStart), roms) != [])]
    {
      hide And, Align, SizeOf, Loaded, EndOf, HostBridge.Valid, RomEnabled, RomDisabled, Window, U32;
      NoRoms(bridge.romStart);
      var val := d.probe[i];
      var size := SizeOf(val);
      AlignedIsWord(View().At(SpaceOf(val)), size);
      var base;
      if val % 2 == 1 {
        ioAddr := Align(ioAddr, size);
        base := ioAddr;
      } else {
        memAddr := Align(memAddr, size);
        base := memAddr;
      }
      d.SetIoRegionAddr(i, base, val);
      if i == ROM_SLOT && d.id.classCode == DISPLAY_VGA {
        ShadowRom(d, base);
      }
      if val % 2 == 1 {
        ioAddr := U32(ioAddr + size);
      } else {
        memAddr := U32(memAddr + size);
      }
      regions := regions + [Region(SpaceOf(val), base, size)];
    }

    method DefaultMap(d: PciFunction)
      requires Valid() && d.Valid()
      modifies this, d, bridge, bridge.ram
      ensures Valid() && d.Valid()
      ensures View() == CursorsAfter(old(View()), d.probe)
      ensures regions == old(regions) + Placements(old(View()), d.probe)
      ensures var roms := DisplayRom(old(View()), d, memory);
        && bridge.placed == old(bridge.placed) + Loaded(old(bridge.romStart), roms)
        && bridge.romStart == EndOf(old(bridge.romStart), roms)
        && forall i :: 0 <= i < NUM_REGIONS ==>
             d.bar[i] == BarAfter(old(View()), d.probe, old(d.bar), i, Loaded(old(bridge.romStart), roms) != [])
    {
      hide Place, Advance, Loaded, EndOf, Valid, RomEnabled, RomDisabled;
      ghost var start, romStart := View(), bridge.romStart;
      ghost var roms := DisplayRom(start, d, memory);
      NoRoms(romStart);
      var i := 0;
      while i < NUM_REGIONS
        invariant 0 <= i <= NUM_REGIONS && Valid() && d.Valid()
        invariant CursorsAfter(View(), d.probe[i..]) == CursorsAfter(start, d.probe)
        invariant regions + Placements(View(), d.probe[i..]) == old(regions) + Placements(start, d.probe)
        invariant View() == CursorsAfter(start, d.probe[..i])
        invariant bridge.placed == old(bridge.placed) + Loaded(romStart, if i <= ROM_SLOT then [] else roms)
        invariant bridge.romStart == EndOf(romStart, if i <= ROM_SLOT then [] else roms)
        invariant forall k :: 0 <= k < i ==>
          d.bar[k] == BarAfter(start, d.probe, old(d.bar), k, Loaded(romStart, roms) != [])
        invariant forall k :: i <= k < NUM_REGIONS ==> d.bar[k] == old(d.bar[k])
      {
        assert d.probe[i..][0] == d.probe[i] && d.probe[i..][1..] == d.probe[i + 1..];
        CursorsSnoc(start, d.probe, i);
        if d.probe[i] != 0 {
          MapRegion(d, i);
        }
        i := i + 1;
      }
      assert d.probe[..NUM_REGIONS] == d.probe && d.probe[NUM_REGIONS..] == [];
    }

    /** Registers 0, 1, ... are given these addresses. */
    method SetFixed(d: PciFunction, addrs: seq<nat>)
      requires d.Valid() && |addrs| < ROM_SLOT && forall i :: 0 <= i < |addrs| ==> addrs[i] < TWO_32
      modifies d
      ensures d.Valid() && d.bar == addrs + old(d.bar)[|addrs|..]
    {
      var i := 0;
      while i < |addrs|
        invariant 0 <= i <= |addrs| && d.Valid()
        invariant forall k :: 0 <= k < NUM_REGIONS ==> d.bar[k] == if k < i then addrs[k] else old(d.bar)[k]
      {
        d.SetIoRegionAddr(i, addrs[i], d.bar[i]);
        i := i + 1;
      }
    }

    /** pci_bios_init_device, up to the mapping of the interrupt. */
    method InitDevice(d: PciFunction)
      requires Valid() && d.Valid()
      modifies this, d, bridge, bridge.ram
      ensures Valid() && d.Valid()
      ensures View() == CursorsAfter(old(View()), Probed(d))
      ensures regions == old(regions) + Placements(old(View()), Probed(d))
      ensures var roms := DisplayRom(old(View()), d, memory);
        && bridge.placed == old(bridge.placed) + Loaded(old(bridge.romStart), roms)
        && bridge.romStart == EndOf(old(bridge.romStart), roms)
      ensures d.id.classCode == 0x0101 && !(d.id.vendor == 0x8086 && d.id.device in {0x7010, 0x7111}) ==>
        d.bar[..4] == [0x1f0, 0x3f4, 0x170, 0x374]
      ensures d.id.classCode == 0x0800 && d.id.vendor == 0x1014 && d.id.device in {0x0046, 0xffff} ==>
        d.bar[0] == 0x8084_0000
      ensures d.id.classCode == 0xff00 && d.id.vendor == 0x106b && d.id.device in {0x0017, 0x0022} ==>
        d.bar[0] == 0x8080_0000
      ensures match FixedAddresses(d.id)
        case Some(addrs) => d.bar == addrs + old(d.bar)[|addrs|..]
        case None => d.id.classCode != DISPLAY_VGA ==>
          forall i :: 0 <= i < NUM_REGIONS ==> d.bar[i] == BarAfter(old(View()), d.probe, old(d.bar), i, false)
    {
      hide Placements, CursorsAfter, Loaded, EndOf, BarAfter, Place;
      NoRoms(bridge.romStart);
      NoRegisters(View());
      if d.id.classCode == STORAGE_IDE {
        if d.id.vendor == INTEL && (d.id.device == 0x7010 || d.id.device == 0x7111) {
          DefaultMap(d);
        } else {
          SetFixed(d, [0x1f0, 0x3f4, 0x170, 0x374]);
        }
      } else if d.id.classCode == SYSTEM_PIC {
        if d.id.vendor == IBM && (d.id.device == 0x0046 || d.id.device == 0xffff) {
          SetFixed(d, [0x8080_0000 + 0x0004_0000]);
        }
      } else if d.id.classCode == 0xff00 {
        if d.id.vendor == APPLE && (d.id.device == 0x0017 || d.id.device == 0x0022) {
          SetFixed(d, [0x8080_0000]);
        }
      } else {
        DefaultMap(d);
      }
    }

    /** pci_for_each_device(pci_bios_init_device). */
    method MapDevices(ds: seq<PciFunction>)
      requires Valid() && View() == INITIAL && regions == [] && Devices(ds)
      modifies this, ds, bridge, bridge.ram
      ensures Valid() && Devices(ds)
      ensures regions == Placements(INITIAL, Registers(ds))
      ensures AllDecode(Registers(ds)) ==>
        && (WellPlaced(regions, INITIAL) <==> Fits(INITIAL, Registers(ds)))
        && (Fits(INITIAL, Registers(ds)) ==> SmallestPlaced(regions, INITIAL))
      ensures var roms := DisplayRoms(ds, memory);
        && bridge.placed == old(bridge.placed) + Loaded(old(bridge.romStart), roms)
        && bridge.romStart == EndOf(old(bridge.romStart), roms)
      ensures forall k :: 0 <= k < |ds| && ds[k].id.classCode != DISPLAY_VGA ==>
        ds[k].bar[ROM_SLOT] == RomWord(Before(ds, k), ds[k], old(ds[k].bar[ROM_SLOT]))
    {
      hide Place, Advance, AllDecode, Fits, WellPlaced, SmallestPlaced, Loaded, EndOf, DisplayRom, DisplayRoms,
        RomWord, BarAfter, Registers, Placements, CursorsAfter, HostBridge.Valid, FixedAddresses;
      ghost var romStart, placed := bridge.romStart, bridge.placed;
      assert ds[..0] == [];
      NoDevices(memory);
      NoRegisters(INITIAL);
      NoRoms(romStart);
      var i := 0;
      while i < |ds|
        invariant 0 <= i <= |ds| && Valid() && Devices(ds)
        invariant View() == Before(ds, i)
        invariant regions == Placements(INITIAL, Registers(ds[..i]))
        invariant bridge.placed == placed + Loaded(romStart, DisplayRoms(ds[..i], memory))
        invariant bridge.romStart == EndOf(romStart, DisplayRoms(ds[..i], memory))
        invariant forall k :: 0 <= k < i && ds[k].id.classCode != DISPLAY_VGA ==>
          ds[k].bar[ROM_SLOT] == RomWord(Before(ds, k), ds[k], old(ds[k].bar[ROM_SLOT]))
        invariant forall k :: i <= k < |ds| ==> ds[k].bar == old(ds[k].bar)
      {
        RegistersSnoc(ds, i);
        RunConcat(INITIAL, Registers(ds[..i]), Probed(ds[i]));
        DisplayRomsSnoc(ds, i, memory);
        LoadedConcat(romStart, DisplayRoms(ds[..i], memory), DisplayRom(View(), ds[i], memory));
        RomWordIs(View(), ds[i], ds[i].bar);
        InitDevice(ds[i]);
        i := i + 1;
      }
      assert ds[..i] == ds;
      if AllDecode(Registers(ds)) {
        RegionsAreWellPlaced(INITIAL, Registers(ds));
      }
    }

    /** pci_for_each_device(pci_bios_init_optrom). */
    method InitOptRoms(ds: seq<PciFunction>)
      requires Valid() && Devices(ds)
      modifies ds, bridge, bridge.ram
      ensures Valid() && Devices(ds)
      ensures var roms := OptionRoms(ds, old(RomWords(ds)), memory);
        && bridge.placed == old(bridge.placed) + Loaded(old(bridge.romStart), roms)
        && bridge.romStart == EndOf(old(bridge.romStart), roms)
    {
      hide And, Loaded, EndOf, OptionRoms, HostBridge.Valid, Window;
      ghost var romStart, words, placed := bridge.romStart, RomWords(ds), bridge.placed;
      assert ds[..0] == [] && words[..0] == [];
      NoDevices(memory);
      NoRoms(romStart);
      var i := 0;
      while i < |ds|
        invariant 0 <= i <= |ds| && Valid() && Devices(ds)
        invariant bridge.placed == placed + Loaded(romStart, OptionRoms(ds[..i], words[..i], memory))
        invariant bridge.romStart == EndOf(romStart, OptionRoms(ds[..i], words[..i], memory))
        invariant forall k :: i <= k < |ds| ==> ds[k].bar == old(ds[k].bar)
      {
        OptionRomsSnoc(ds, words, i, memory);
        LoadedConcat(romStart, OptionRoms(ds[..i], words[..i], memory), OptionRom(ds[i].id, words[i], memory));
        NoRoms(bridge.romStart);
        if ds[i].id.classCode != DISPLAY_VGA {
          ShadowRom(ds[i], And(ds[i].bar[ROM_SLOT], 0xffff_fc00));
        }
        i := i + 1;
      }
      assert ds[..i] == ds && words[..i] == words;
    }

    /**
     The two passes of pci_bios_init behind that over the bridges.  The regions given out are well placed exactly if
     none ends above 4GB; the ROMs in shadow RAM, all of them intact, read-only and disjoint, are those of the display
     controllers and then those of the other devices, as far as there was room for them.
     */
    method Init(ds: seq<PciFunction>)
      requires Valid() && View() == INITIAL && regions == [] && Devices(ds)
      requires bridge.romStart == BASE && bridge.placed == []
      modifies this, ds, bridge, bridge.ram
      ensures bridge.Valid()
      ensures bridge.placed == Loaded(BASE, DisplayRoms(ds, memory) +
                                            OptionRoms(ds, WordsAfter(ds, old(RomWords(ds))), memory))
      ensures regions == Placements(INITIAL, Registers(ds))
      ensures AllDecode(Registers(ds)) ==> (WellPlaced(regions, INITIAL) <==> Fits(INITIAL, Registers(ds)))
    {
      hide Loaded, EndOf, AllDecode, WellPlaced, Fits, DisplayRoms, Registers, Placements, OptionRoms, RomWord,
        SmallestPlaced, HostBridge.Valid, Before;
      MapDevices(ds);
      ghost var words := RomWords(ds);
      SameOptionRoms(ds, words, WordsAfter(ds, old(RomWords(ds))), memory);
      InitOptRoms(ds);
      LoadedConcat(BASE, DisplayRoms(ds, memory), OptionRoms(ds, words, memory));
    }
  }

  /** Devices, each of them once. */
  ghost predicate Devices(ds: seq<PciFunction>)
    reads ds
  {
    (forall i :: 0 <= i < |ds| ==> ds[i].Valid()) && forall i, j :: 0 <= i < j < |ds| ==> ds[i] != ds[j]
  }

  predicate Probeable(ds: seq<PciFunction>) {
    forall i :: 0 <= i < |ds| ==> |ds[i].probe| == NUM_REGIONS && Words(ds[i].probe)
  }

  /** What the ROM registers hold. */
  function RomWords(ds: seq<PciFunction>): (words: seq<nat>)
    requires forall i :: 0 <= i < |ds| ==> ROM_SLOT < |ds[i].bar|
    reads ds
    ensures |words| == |ds| && forall i :: 0 <= i < |ds| ==> words[i] == ds[i].bar[ROM_SLOT]
  {
    seq(|ds|, i requires 0 <= i < |ds| && ROM_SLOT < |ds[i].bar| reads ds => ds[i].bar[ROM_SLOT])
  }

  lemma NoRoms(start: nat)
    ensures Loaded(start, []) == [] && EndOf(start, []) == start
  {
  }

  lemma NoRegisters(c: Cursors)
    ensures Placements(c, []) == [] && CursorsAfter(c, []) == c
  {
  }

  /** The registers that are probed: all or none. */
  function Probed(d: PciFunction): seq<nat> {
    if FixedAddresses(d.id).None? then d.probe else []
  }

  /** The registers of all devices that are probed, in the order they are visited. */
  function Registers(ds: seq<PciFunction>): (vals: seq<nat>)
    requires Probeable(ds)
    ensures Words(vals)
  {
    if ds == [] then []
    else
      var first, last := Registers(ds[..|ds| - 1]), Probed(ds[|ds| - 1]);
      assert Words(ds[|ds| - 1].probe);
      first + last
  }

  lemma RegistersSnoc(ds: seq<PciFunction>, i: nat)
    requires i < |ds| && Probeable(ds)
    ensures Registers(ds[..i + 1]) == Registers(ds[..i]) + Probed(ds[i])
  {
    assert ds[..i + 1][..i] == ds[..i];
  }

  /** The cursors when device k has its turn. */
  function Before(ds: seq<PciFunction>, k: nat): Cursors
    requires Probeable(ds) && k <= |ds|
  {
    CursorsAfter(INITIAL, Registers(ds[..k]))
  }

  /** The ROMs of the display controllers, each where the allocator puts it. */
  function DisplayRoms(ds: seq<PciFunction>, memory: nat -> Byte): seq<Rom>
    requires Probeable(ds)
  {
    if ds == [] then []
    else
      var n := |ds| - 1;
      DisplayRoms(ds[..n], memory) + DisplayRom(Before(ds, n), ds[n], memory)
  }

  lemma DisplayRomsSnoc(ds: seq<PciFunction>, i: nat, memory: nat -> Byte)
    requires i < |ds| && Probeable(ds)
    ensures DisplayRoms(ds[..i + 1], memory) == DisplayRoms(ds[..i], memory) + DisplayRom(Before(ds, i), ds[i], memory)
  {
    hide DisplayRom;
    assert ds[..i + 1][..i] == ds[..i];
  }

  lemma OptionRomsSnoc(ds: seq<PciFunction>, words: seq<nat>, i: nat, memory: nat -> Byte)
    requires i < |ds| == |words|
    ensures OptionRoms(ds[..i + 1], words[..i + 1], memory) ==
            OptionRoms(ds[..i], words[..i], memory) + OptionRom(ds[i].id, words[i], memory)
  {
    hide OptionRom;
    assert ds[..i + 1][..i] == ds[..i] && words[..i + 1][..i] == words[..i];
  }

  lemma NoDevices(memory: nat -> Byte)
    ensures DisplayRoms([], memory) == [] && OptionRoms([], [], memory) == [] && Registers([]) == []
  {
  }

  lemma RomWordIs(c: Cursors, d: PciFunction, bars: seq<nat>)
    requires |d.probe| == NUM_REGIONS == |bars| && Words(d.probe)
    ensures RomWord(c, d, bars[ROM_SLOT]) ==
            if FixedAddresses(d.id).None? then BarAfter(c, d.probe, bars, ROM_SLOT, false) else bars[ROM_SLOT]
    ensures Probed(d) == if FixedAddresses(d.id).None? then d.probe else []
    ensures match FixedAddresses(d.id)
      case Some(addrs) => |addrs| < ROM_SLOT && (addrs + bars[|addrs|..])[ROM_SLOT] == bars[ROM_SLOT]
      case None => true
  {
    hide Place, CursorsAfter;
  }

  /** What the ROM register of another device than a display controller holds after the mapping. */
  function RomWord(c: Cursors, d: PciFunction, held: nat): nat
    requires |d.probe| == NUM_REGIONS && Words(d.probe)
  {
    if Probed(d) == [] || d.probe[ROM_SLOT] == 0 then held
    else RomEnabled(Place(CursorsAfter(c, d.probe[..ROM_SLOT]), d.probe[ROM_SLOT]).base)
  }

  function WordsAfter(ds: seq<PciFunction>, held: seq<nat>): (words: seq<nat>)
    requires Probeable(ds) && |held| == |ds|
    ensures |words| == |ds| && forall k :: 0 <= k < |ds| ==> words[k] == RomWord(Before(ds, k), ds[k], held[k])
  {
    seq(|ds|, k requires 0 <= k < |ds| => RomWord(Before(ds, k), ds[k], held[k]))
  }

  /** The ROMs of the other devices, where their registers say. */
  function OptionRoms(ds: seq<PciFunction>, words: seq<nat>, memory: nat -> Byte): seq<Rom>
    requires |words| == |ds|
  {
    if ds == [] then []
    else
      var n := |ds| - 1;
      OptionRoms(ds[..n], words[..n], memory) + OptionRom(ds[n].id, words[n], memory)
  }

  lemma {:induction false} SameOptionRoms(ds: seq<PciFunction>, a: seq<nat>, b: seq<nat>, memory: nat -> Byte)
    requires |a| == |b| == |ds|
    requires forall k :: 0 <= k < |ds| && ds[k].id.classCode != DISPLAY_VGA ==> a[k] == b[k]
    ensures OptionRoms(ds, a, memory) == OptionRoms(ds, b, memory)
  {
    if ds != [] {
      var n := |ds| - 1;
      SameOptionRoms(ds[..n], a[..n], b[..n], memory);
    }
  }

  lemma {:induction false} RunConcat(c: Cursors, a: seq<nat>, b: seq<nat>)
    requires Words(a) && Words(b)
    ensures Words(a + b) && CursorsAfter(c, a + b) == CursorsAfter(CursorsAfter(c, a), b)
    ensures Placements(c, a + b) == Placements(c, a) + Placements(CursorsAfter(c, a), b)
    decreases a
  {
    hide Place, Advance;
    if a == [] {
      assert a + b == b;
    } else {
      assert (a + b)[1..] == a[1..] + b;
      RunConcat(if a[0] == 0 then c else Advance(c, a[0]), a[1..], b);
    }
  }

  /** What register i holds once it has been given a base; a ROM that has been copied is disabled again. */
  function Placed(i: nat, base: nat, copied: bool): nat {
    if i != ROM_SLOT then base else if copied then RomDisabled(RomEnabled(base)) else RomEnabled(base)
  }

  /** What register i holds after default_map: the base placed for it, or what it held when it is not implemented. */
  function BarAfter(c: Cursors, probe: seq<nat>, bars: seq<nat>, i: nat, copied: bool): nat
    requires Words(probe) && i < |probe| == |bars|
  {
    if probe[i] == 0 then bars[i] else Placed(i, Place(CursorsAfter(c, probe[..i]), probe[i]).base, copied)
  }

  lemma AlignedIsWord(addr: nat, size: nat)
    ensures Align(addr, size) < TWO_32
  {
    hide And;
    AndBelow(U32(addr + size - 1), Not32(U32(size - 1)));
  }

  lemma {:induction false} CursorsSnoc(c: Cursors, vals: seq<nat>, i: nat)
    requires Words(vals) && i < |vals|
    ensures var before := CursorsAfter(c, vals[..i]);
      CursorsAfter(c, vals[..i + 1]) == if vals[i] == 0 then before else Advance(before, vals[i])
    decreases i
  {
    hide Advance;
    if i > 0 {
      assert vals[..i][1..] == vals[1..][..i - 1] && vals[..i + 1][1..] == vals[1..][..i];
      CursorsSnoc(if vals[0] == 0 then c else Advance(c, vals[0]), vals[1..], i - 1);
    } else {
      assert vals[..1][1..] == [];
    }
  }

  // ---------- where a ROM is read from ----------

  /** How many registers are implemented. */
  function Implemented(vals: seq<nat>): nat
    decreases vals
  {
    if vals == [] then 0 else (if vals[0] == 0 then 0 else 1) + Implemented(vals[1..])
  }

  /** The place in the run of regions of the one for register i of device k. */
  function RegionIndex(ds: seq<PciFunction>, k: nat, i: nat): nat
    requires Probeable(ds) && k < |ds| && i <= NUM_REGIONS
  {
    Implemented(Registers(ds[..k])) + Implemented(ds[k].probe[..i])
  }

  lemma {:induction false} ImplementedConcat(a: seq<nat>, b: seq<nat>)
    ensures Implemented(a + b) == Implemented(a) + Implemented(b)
    decreases a
  {
    if a == [] {
      assert a + b == b;
    } else {
      assert (a + b)[1..] == a[1..] + b;
      ImplementedConcat(a[1..], b);
    }
  }

  lemma {:induction false} PlacementAt(c: Cursors, vals: seq<nat>, n: nat)
    requires Words(vals) && n < |vals| && vals[n] != 0
    ensures Implemented(vals[..n]) < |Placements(c, vals)|
    ensures Placements(c, vals)[Implemented(vals[..n])] == Place(CursorsAfter(c, vals[..n]), vals[n])
    decreases n
  {
    hide Place, Advance;
    if n > 0 {
      assert vals[..n][0] == vals[0] && vals[..n][1..] == vals[1..][..n - 1];
      PlacementAt(if vals[0] == 0 then c else Advance(c, vals[0]), vals[1..], n - 1);
    }
  }

  /** Register i of device k has its region among those given out, at the place its turn gives it. */
  lemma RegionOf(ds: seq<PciFunction>, k: nat, i: nat)
    requires Probeable(ds) && k < |ds| && Probed(ds[k]) != [] && i < NUM_REGIONS && ds[k].probe[i] != 0
    ensures var regions := Placements(INITIAL, Registers(ds));
      RegionIndex(ds, k, i) < |regions| &&
      regions[RegionIndex(ds, k, i)] == Place(CursorsAfter(Before(ds, k), ds[k].probe[..i]), ds[k].probe[i])
  {
    hide Place, Placements, CursorsAfter, Implemented;
    var before, n := Registers(ds[..k]), |Registers(ds[..k])|;
    RegistersPrefix(ds, k);
    var vals := Registers(ds);
    assert vals[..n + i] == before + ds[k].probe[..i] && vals[n + i] == ds[k].probe[i];
    PlacementAt(INITIAL, vals, n + i);
    ImplementedConcat(before, ds[k].probe[..i]);
    RunConcat(INITIAL, before, ds[k].probe[..i]);
  }

  lemma {:induction false} RegistersPrefix(ds: seq<PciFunction>, k: nat)
    requires Probeable(ds) && k < |ds|
    ensures Registers(ds[..k]) + Probed(ds[k]) <= Registers(ds)
    decreases |ds|
  {
    RegistersSnoc(ds, |ds| - 1);
    assert ds[..|ds|] == ds;
    if k < |ds| - 1 {
      RegistersPrefix(ds[..|ds| - 1], k);
      assert ds[..|ds| - 1][..k] == ds[..k];
    }
  }

  /** A ROM as it is seen in a region: it is mapped at the base, and its bytes are those read from there on. */
  ghost predicate SeenIn(rom: Rom, r: Region, memory: nat -> Byte) {
    rom.paddr == r.base && forall a: nat :: rom.image(a) == memory(r.base + a)
  }

  /** A display controller's ROM is copied from the region given to it. */
  lemma DisplayRomIsRead(ds: seq<PciFunction>, k: nat, memory: nat -> Byte)
    requires Probeable(ds) && k < |ds| && ds[k].id.classCode == 0x0300 && ds[k].probe[ROM_SLOT] != 0
    ensures var r := RegionIndex(ds, k, ROM_SLOT); r < |Placements(INITIAL, Registers(ds))|
    ensures var roms := DisplayRom(Before(ds, k), ds[k], memory);
      |roms| == 1 && SeenIn(roms[0], Placements(INITIAL, Registers(ds))[RegionIndex(ds, k, ROM_SLOT)], memory)
  {
    hide Place, Placements, CursorsAfter, RegionIndex, Before;
    RegionOf(ds, k, ROM_SLOT);
  }

  /**
   Any other device's ROM is copied from the region given to it, the enable bit in its register not counting, if and
   only if that is at a multiple of 1KB; so it is for every ROM that takes 1KB or more.
   */
  lemma OptionRomIsRead(ds: seq<PciFunction>, k: nat, held: nat, memory: nat -> Byte, j: nat)
    requires Probeable(ds) && k < |ds| && ds[k].id.classCode != 0x0300 && FixedAddresses(ds[k].id).None?
    requires Decodes(ds[k].probe[ROM_SLOT], j)
    ensures var r := RegionIndex(ds, k, ROM_SLOT); r < |Placements(INITIAL, Registers(ds))|
    ensures var r := Placements(INITIAL, Registers(ds))[RegionIndex(ds, k, ROM_SLOT)];
      var roms := OptionRom(ds[k].id, RomWord(Before(ds, k), ds[k], held), memory);
      && |roms| == 1
      && (SeenIn(roms[0], r, memory) <==> r.base % 0x400 == 0)
      && (10 <= j ==> SeenIn(roms[0], r, memory))
  {
    hide Place, Placements, CursorsAfter, RegionIndex, Decodes, OptionRom, SeenIn, Registers, RomEnabled;
    var d := ds[k];
    var val := d.probe[ROM_SLOT];
    DecodesWord(val, j);
    RegionOf(ds, k, ROM_SLOT);
    var c := CursorsAfter(Before(ds, k), d.probe[..ROM_SLOT]);
    var base := Place(c, val).base;
    BoundedAfter(INITIAL, Registers(ds[..k]));
    BoundedAfter(Before(ds, k), d.probe[..ROM_SLOT]);
    PlacedAligned(c, val, j);
    OptionRomAt(d.id, Place(c, val), memory);
  }

  lemma DecodesWord(val: nat, j: nat)
    requires Decodes(val, j)
    ensures val != 0 && val < TWO_32
  {
    hide SizeOf, Decodes, Pow2;
    SizeOfDecoded(val, j);
  }

  lemma OptionRomAt(id: Identity, r: Region, memory: nat -> Byte)
    requires id.classCode != DISPLAY_VGA && r.base < TWO_32 && r.base % 16 == 0
    ensures var roms := OptionRom(id, RomEnabled(r.base), memory);
      |roms| == 1 && (SeenIn(roms[0], r, memory) <==> r.base % 0x400 == 0)
  {
    hide And, RomEnabled;
    MaskedRomAddress(r.base);
  }

  lemma {:induction false} BoundedAfter(c: Cursors, vals: seq<nat>)
    requires Bounded(c) && Words(vals)
    ensures Bounded(CursorsAfter(c, vals))
    decreases vals
  {
    hide Place;
    if vals != [] {
      BoundedAfter(if vals[0] == 0 then c else Advance(c, vals[0]), vals[1..]);
    }
  }

  lemma PlacedAligned(c: Cursors, val: nat, j: nat)
    requires Bounded(c) && Decodes(val, j)
    ensures val < TWO_32
    ensures var base := Place(c, val).base; base < TWO_32 && base % 16 == 0 && (10 <= j ==> base % 0x400 == 0)
  {
    hide And, Align, SizeOf, Pow2, RoundDown;
    SizeOfDecoded(val, j);
    DecodesRange(val, j);
    var m := if j < 4 then 4 else j;
    var addr := c.At(SpaceOf(val));
    AlignIsRoundDown(addr, m);
    BelowTop(addr, m);
    RoundDownIsGreatest(U32(addr + Pow2(m) - 1), Pow2(m));
    PowerDivides(Place(c, val).base, 4, m);
    if 10 <= j {
      PowerDivides(Place(c, val).base, 10, m);
    }
    TenthPower();
  }

  lemma TenthPower()
    ensures Pow2(4) == 16 && Pow2(10) == 0x400
  {
    assert Pow2(8) == 0x100;
  }

  lemma PowerDivides(x: nat, a: nat, b: nat)
    requires a <= b && x % Pow2(b) == 0
    ensures x % Pow2(a) == 0
  {
    hide Pow2;
    Pow2Add(a, b - a);
    var q := x / Pow2(b);
    assert x == Pow2(a) * Pow2(b - a) * q;
    Regrouped(Pow2(a), Pow2(b - a), q);
    DivModUnique(x, Pow2(a), Pow2(b - a) * q, 0);
  }

  lemma Regrouped(a: nat, b: nat, q: nat)
    ensures a * b * q == a * (b * q)
  {
  }

  /** The mask of the last pass takes off the enable bit, and whatever else is below 1KB. */
  lemma MaskedRomAddress(base: nat)
    requires base < TWO_32 && base % 16 == 0
    ensures And(RomEnabled(base), 0xffff_fc00) == base - base % 0x400
  {
    hide And, RoundDown, Pow2;
    assert base % 2 == 0;
    Pow2Of32();
    TenthPower();
    AndHighMask(base + 1, 32, 10);
    assert RoundDown(base + 1, 0x400) == base - base % 0x400 by { OddRoundsDown(base); }
  }

  lemma OddRoundsDown(base: nat)
    requires base % 16 == 0
    ensures RoundDown(base + 1, 0x400) == base - base % 0x400
  {
    var q, r := base / 0x400, base % 0x400;
    assert r == 16 * (base / 16 - 64 * q);
    assert r < 0x400 - 1;
    DivModUnique(base + 1, 0x400, q, r + 1);
  }

  /** A register that was not given a base, and held 0, makes no ROM. */
  lemma UnmappedRomIsSkipped(id: Identity, memory: nat -> Byte, start: nat)
    ensures Loaded(start, OptionRom(id, 0, memory)) == [] && EndOf(start, OptionRom(id, 0, memory)) == start
  {
    hide RomSize;
    if id.classCode != DISPLAY_VGA {
      assert And(0, 0xffff_fc00) == 0;
      OneRom(start, OptionRom(id, 0, memory)[0]);
    }
  }

  /** How many devices are not display controllers. */
  function Others(ds: seq<PciFunction>): nat {
    if ds == [] then 0
    else Others(ds[..|ds| - 1]) + if ds[|ds| - 1].id.classCode == DISPLAY_VGA then 0 else 1
  }

  /** How many display controllers have a ROM. */
  function Displays(ds: seq<PciFunction>): nat
    requires Probeable(ds)
  {
    if ds == [] then 0
    else
      var d := ds[|ds| - 1];
      Displays(ds[..|ds| - 1]) + if d.id.classCode == DISPLAY_VGA && d.probe[ROM_SLOT] != 0 then 1 else 0
  }

  /** Every device that is not a display controller has its turn in the last pass, in order. */
  lemma {:induction false} OptionRomsInOrder(ds: seq<PciFunction>, words: seq<nat>, k: nat, memory: nat -> Byte)
    requires k < |ds| == |words| && ds[k].id.classCode != DISPLAY_VGA
    ensures var roms := OptionRoms(ds, words, memory);
      && |roms| == Others(ds) && Others(ds[..k]) < |roms|
      && [roms[Others(ds[..k])]] == OptionRom(ds[k].id, words[k], memory)
    decreases |ds|
  {
    hide And;
    var n := |ds| - 1;
    OptionRomsCounted(ds[..n], words[..n], memory);
    if k < n {
      OptionRomsInOrder(ds[..n], words[..n], k, memory);
      assert ds[..n][..k] == ds[..k];
    }
  }

  lemma {:induction false} OptionRomsCounted(ds: seq<PciFunction>, words: seq<nat>, memory: nat -> Byte)
    requires |ds| == |words|
    ensures |OptionRoms(ds, words, memory)| == Others(ds)
    decreases |ds|
  {
    hide And;
    if ds != [] {
      OptionRomsCounted(ds[..|ds| - 1], words[..|ds| - 1], memory);
    }
  }

  /** Every display controller with a ROM has its turn in the pass before that, in order. */
  lemma {:induction false} DisplayRomsInOrder(ds: seq<PciFunction>, k: nat, memory: nat -> Byte)
    requires Probeable(ds) && k < |ds| && ds[k].id.classCode == DISPLAY_VGA && ds[k].probe[ROM_SLOT] != 0
    ensures var roms := DisplayRoms(ds, memory);
      && |roms| == Displays(ds) && Displays(ds[..k]) < |roms|
      && [roms[Displays(ds[..k])]] == DisplayRom(Before(ds, k), ds[k], memory)
    decreases |ds|
  {
    hide Place, Registers, CursorsAfter;
    var n := |ds| - 1;
    DisplayRomsCounted(ds[..n], memory);
    assert forall m :: 0 <= m <= n ==> ds[..n][..m] == ds[..m];
    if k < n {
      DisplayRomsInOrder(ds[..n], k, memory);
    }
  }

  lemma {:induction false} DisplayRomsCounted(ds: seq<PciFunction>, memory: nat -> Byte)
    requires Probeable(ds)
    ensures |DisplayRoms(ds, memory)| == Displays(ds)
    decreases |ds|
  {
    hide Place, Registers, CursorsAfter;
    if ds != [] {
      DisplayRomsCounted(ds[..|ds| - 1], memory);
    }
  }
}
