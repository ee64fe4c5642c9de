/**
 Copying option ROMs into shadow RAM: pci_bios_init_pcirom of rombios32.c, over a model of the host bridge
 in which a write to a 16KB segment that is not write-enabled is lost.
 */
module RomShadow {
  import opened Common

  const BASE := 0xc_0000
  const LIMIT := 0xe_0000
  const SEGMENT := 0x4000
  const READ_ONLY := 1
  const WRITE_ONLY := 2

  // ---------- the programmable attribute registers 0x5a..0x5e, two segments each ----------

  /** The two mode bits of the low or high nibble. */
  function Mode(v: Byte, high: bool): (m: nat)
    ensures m < 4
  {
    if high then (v / 16) % 4 else v % 4
  }

  /** (v & ~(0x03 << shift)) | (m << shift) */
  function SetMode(v: Byte, high: bool, m: nat): (r: Byte)
    requires m < 4
    ensures Mode(r, high) == m && Mode(r, !high) == Mode(v, !high)
    ensures Reserved(r) == Reserved(v)
  {
    var q, hi, c, lo := v / 64, (v / 16) % 4, (v / 4) % 4, v % 4;
    Fields(q, if high then m else hi, c, if high then lo else m);
    64 * q + 16 * (if high then m else hi) + 4 * c + (if high then lo else m)
  }

  lemma Fields(q: nat, hi: nat, c: nat, lo: nat)
    requires q < 4 && hi < 4 && c < 4 && lo < 4
    ensures var v := 64 * q + 16 * hi + 4 * c + lo;
      v < 256 && v / 64 == q && (v / 16) % 4 == hi && (v / 4) % 4 == c && v % 4 == lo
  {
    var v := 64 * q + 16 * hi + 4 * c + lo;
    assert v / 4 == 16 * q + 4 * hi + c;
    assert v / 16 == 4 * q + hi;
  }

  /** The other two bits of both nibbles. */
  function Reserved(v: Byte): (nat, nat) {
    ((v / 4) % 4, v / 64)
  }

  function SegmentOf(addr: nat): nat
    requires BASE <= addr <= LIMIT
  {
    (addr - BASE) / SEGMENT
  }

  function SegmentMode(pam: seq<Byte>, s: nat): nat
    requires s / 2 < |pam|
  {
    Mode(pam[s / 2], s % 2 == 1)
  }

  // ---------- accesses by the processor ----------

  /** Bit 0 of the mode: reads of the segment are of shadow RAM, not of the expansion ROM behind it. */
  predicate ReadsRam(mode: nat) {
    mode % 2 == 1
  }

  /** Bit 1 of the mode: writes to the segment arrive. */
  predicate WritesRam(mode: nat) {
    mode / 2 % 2 == 1
  }

  function Fetched(pam: seq<Byte>, ram: seq<Byte>, exrom: nat -> Byte, addr: nat): Byte
    requires |pam| == 5 && |ram| == LIMIT - BASE && BASE <= addr < LIMIT
  {
    if ReadsRam(SegmentMode(pam, SegmentOf(addr))) then ram[addr - BASE] else exrom(addr)
  }

  function Stored(pam: seq<Byte>, ram: seq<Byte>, addr: nat, b: Byte): (r: seq<Byte>)
    requires |pam| == 5 && |ram| == LIMIT - BASE && BASE <= addr < LIMIT
  {
    if WritesRam(SegmentMode(pam, SegmentOf(addr))) then ram[addr - BASE := b] else ram
  }

  /** The bits of register 0x5a + n, for the n-th 32KB: 0 and 1 for the lower 16KB, 4 and 5 for the upper. */
  lemma ModeBits(pam: seq<Byte>, addr: nat)
    requires |pam| == 5 && 0xc_0000 <= addr < 0xe_0000
    ensures var v: nat := pam[(addr - 0xc_0000) / 0x8000];
      var mode := SegmentMode(pam, SegmentOf(addr));
      && (ReadsRam(mode) <==> (if addr / 0x4000 % 2 == 0 then v else v / 16) % 2 == 1)
      && (WritesRam(mode) <==> (if addr / 0x4000 % 2 == 0 then v / 2 else v / 32) % 2 == 1)
  {
    hide Mode, ReadsRam, WritesRam;
    SegmentPlace(addr);
    NibbleBits(pam[(addr - 0xc_0000) / 0x8000], addr / 0x4000 % 2 == 1);
  }

  lemma SegmentPlace(addr: nat)
    requires 0xc_0000 <= addr < 0xe_0000
    ensures SegmentOf(addr) / 2 == (addr - 0xc_0000) / 0x8000 < 5 && SegmentOf(addr) % 2 == addr / 0x4000 % 2
  {
    var q, r := (addr - 0xc_0000) / 0x4000, (addr - 0xc_0000) % 0x4000;
    DivModUnique(addr - 0xc_0000, 0x8000, q / 2, 0x4000 * (q % 2) + r);
    DivModUnique(addr, 0x4000, q + 0x30, r);
  }

  lemma NibbleBits(v: Byte, high: bool)
    ensures ReadsRam(Mode(v, high)) <==> (if high then v / 16 else v) % 2 == 1
    ensures WritesRam(Mode(v, high)) <==> (if high then v / 32 else v / 2) % 2 == 1
  {
    var x := if high then v / 16 else v;
    assert x % 4 % 2 == x % 2 && x % 4 / 2 % 2 == x / 2 % 2;
    assert v / 16 / 2 == v / 32;
  }

  /** From address a on n bytes are read as the image has them, whatever ROM is behind, and cannot be written. */
  ghost predicate Serves(pam: seq<Byte>, ram: seq<Byte>, a: nat, n: nat, image: nat -> Byte)
    requires |pam| == 5 && |ram| == LIMIT - BASE
  {
    && 0xc_0000 <= a && a + n <= 0xe_0000
    && (forall addr, exrom :: a <= addr < a + n ==> Fetched(pam, ram, exrom, addr) == image(addr - a))
    && (forall addr, b :: a <= addr < a + n ==> Stored(pam, ram, addr, b) == ram)
  }

  // ---------- sizes ----------

  /** The size of the image: the length byte, in units of 512 bytes, rounded up to 2KB. */
  function RomSize(length: Byte): (size: nat)
    ensures size % 0x800 == 0 && 512 * length <= size < 512 * length + 0x800
  {
    if length % 4 != 0 then 512 * (length - length % 4 + 4) else 512 * length
  }

  class HostBridge {
    var pam: seq<Byte>
    const ram: array<Byte>   // 0xc0000..0xdffff
    var romStart: nat
    ghost var placed: seq<Placement>   // the ROMs copied so far

    ghost predicate Wired()
      reads this, ram
    {
      |pam| == 5 && ram.Length == LIMIT - BASE && BASE <= romStart <= LIMIT
    }

    /** All ROMs copied are below the next one's place, intact, read-only and clear of each other. */
    ghost predicate Valid()
      reads this, ram
    {
      && Wired() && Disjoint(placed)
      && forall j :: 0 <= j < |placed| ==>
           placed[j].start + placed[j].size <= romStart && Installed(placed[j], ram[..], pam)
    }

    /** The processor reads every ROM that has been copied where it has been put, and cannot change it. */
    ghost predicate AllServed()
      requires Wired()
      reads this, ram
    {
      forall j :: 0 <= j < |placed| ==> Serves(pam, ram[..], placed[j].start, placed[j].size, placed[j].image)
    }

    lemma Served()
      requires Valid()
      ensures AllServed()
    {
      AllInstalledServe(placed, ram[..], pam);
    }

    constructor (pam: seq<Byte>, ram: array<Byte>)
      requires |pam| == 5 && ram.Length == LIMIT - BASE
      ensures Valid() && romStart == 0xc_0000 && placed == [] && this.pam == pam && this.ram == ram
    {
      this.pam, this.ram, romStart, placed := pam, ram, BASE, [];
    }

    /** A store by the processor. */
    method WriteByte(addr: nat, b: Byte)
      requires Wired() && BASE <= addr < LIMIT
      modifies ram
      ensures ram[..] == Stored(pam, old(ram[..]), addr, b)
    {
      if WritesRam(SegmentMode(pam, SegmentOf(addr))) {
        ram[addr - BASE] := b;
      }
    }

    /** memcpy from the ROM into one write-enabled segment. */
    method Memcpy(dst: nat, image: nat -> Byte, offset: nat, n: nat)
      requires Wired() && BASE <= dst <= dst + n <= LIMIT
      requires dst / SEGMENT * SEGMENT + SEGMENT >= dst + n
      requires WritesRam(SegmentMode(pam, SegmentOf(dst)))
      modifies ram
      ensures forall k :: 0 <= k < ram.Length ==>
        ram[k] == if dst - BASE <= k < dst - BASE + n then image(offset + (k - (dst - BASE))) else old(ram[k])
    {
      var i := 0;
      while i < n
        invariant 0 <= i <= n && Wired()
        invariant forall k :: 0 <= k < ram.Length ==>
          ram[k] == if dst - BASE <= k < dst - BASE + i then image(offset + (k - (dst - BASE))) else old(ram[k])
      {
        assert SegmentOf(dst + i) == SegmentOf(dst);
        label L:
        WriteByte(dst + i, image(offset + i));
        assert forall k :: 0 <= k < ram.Length && k != dst + i - BASE ==> ram[k] == ram[..][k] == old@L(ram[k]);
        i := i + 1;
      }
    }

    /** Sets the mode of the segment at addr: a read-modify-write of register 0x5a + ((addr >> 15) & 7). */
    method SetSegmentMode(addr: nat, m: nat)
      requires Wired() && BASE <= addr <= LIMIT && m < 4
      modifies this`pam
      ensures Wired() && ModesSet(old(pam), pam, SegmentOf(addr), SegmentOf(addr), m)
    {
      var reg := (addr / 0x8000) % 8;
      var high := (addr / SEGMENT) % 2 == 1;
      RegisterOf(addr);
      pam := pam[reg := SetMode(pam[reg], high, m)];
    }

    /** One round of the copy loop: what is left of the image, up to the end of the 16KB segment. */
    method CopyChunk(tmpaddr: nat, image: nat -> Byte, copied: nat, size: nat) returns (tmpsize: nat)
      requires Wired() && copied <= size && BASE <= tmpaddr && tmpaddr + (size - copied) <= LIMIT
      modifies this`pam, ram
      ensures Wired() && tmpsize == ChunkSize(tmpaddr, size - copied)
      ensures ModesSet(old(pam), pam, SegmentOf(tmpaddr), SegmentOf(tmpaddr), READ_ONLY)
      ensures forall k :: 0 <= k < ram.Length ==>
        ram[k] == if tmpaddr - BASE <= k < tmpaddr - BASE + tmpsize then
          image(copied + (k - (tmpaddr - BASE))) else old(ram[k])
    {
      tmpsize := SEGMENT - tmpaddr % SEGMENT;
      if size - copied < tmpsize {
        tmpsize := size - copied;
      }
      ChunkInSegment(tmpaddr, size - copied);
      SetSegmentMode(tmpaddr, WRITE_ONLY);
      Memcpy(tmpaddr, image, copied, tmpsize);
      SetSegmentMode(tmpaddr, READ_ONLY);
    }

    /** The copy loop, for a ROM that there is room for. */
    method CopyRom(image: nat -> Byte, size: nat)
      requires Wired() && romStart + size <= LIMIT
      modifies this`pam, ram
      ensures Wired()
      ensures ModesSet(old(pam), pam, SegmentOf(romStart), LastSegment(romStart, size), READ_ONLY)
      ensures forall k :: 0 <= k < ram.Length ==>
        ram[k] == if romStart - BASE <= k < romStart - BASE + size then image(k - (romStart - BASE)) else old(ram[k])
    {
      hide ModesSet, SegmentOf;
      var tmpaddr, copied := romStart, 0;
      ghost var top := SegmentOf(romStart) - 1;  // the last segment done
      NothingSet(pam, SegmentOf(romStart));
      var first := true;
      while first || copied < size
        invariant Wired() && 0 <= copied <= size && tmpaddr == romStart + copied
        invariant first ==> copied == 0
        invariant top == if first then SegmentOf(romStart) - 1 else LastSegment(romStart, copied)
        invariant first || copied == size || SegmentOf(tmpaddr) == top + 1
        invariant ModesSet(old(pam), pam, SegmentOf(romStart), top, READ_ONLY)
        invariant forall k :: 0 <= k < ram.Length ==>
          ram[k] == if romStart - BASE <= k < tmpaddr - BASE then image(k - (romStart - BASE)) else old(ram[k])
        decreases first, size - copied
      {
        ghost var pam1 := pam;
        var tmpsize := CopyChunk(tmpaddr, image, copied, size);
        NextChunk(romStart, copied, size, tmpsize);
        OneMoreSet(old(pam), pam1, pam, SegmentOf(romStart), SegmentOf(tmpaddr), READ_ONLY);
        top := SegmentOf(tmpaddr);
        tmpaddr := tmpaddr + tmpsize;
        copied := copied + tmpsize;
        first := false;
      }
    }

    /**
     paddr is where the ROM is mapped, 0 for no ROM; image(k) is the byte at paddr + k.  The ROM is installed behind
     the ones before it, which stay as they are, or nothing changes.
     */
    method InitPciRom(paddr: nat, image: nat -> Byte) returns (copied: bool)
      requires Valid()
      modifies this, ram
      ensures Valid() && copied == Loads(old(romStart), paddr, image)
      ensures copied <==> paddr != 0 && old(romStart) + RomSize(image(2)) <= 0xe_0000
      ensures AllServed()
      ensures romStart == EndOf(old(romStart), [Rom(paddr, image)])
      ensures placed == old(placed) + Loaded(old(romStart), [Rom(paddr, image)])
      ensures !copied ==> pam == old(pam) && ram[..] == old(ram[..])
      ensures copied ==>
        && ModesSet(old(pam), pam, SegmentOf(old(romStart)), LastSegment(old(romStart), RomSize(image(2))), READ_ONLY)
        && forall k :: 0 <= k < ram.Length ==>
             ram[k] == if old(romStart) - BASE <= k < romStart - BASE then
               image(k - (old(romStart) - BASE)) else old(ram[k])
    {
      hide RomSize, ModesSet, SegmentOf, Installed, Disjoint;
      OneRom(romStart, Rom(paddr, image));
      AllInstalledServe(placed, ram[..], pam);
      if paddr != 0 {
        var size := RomSize(image(2));
        if romStart + size > LIMIT {
          return false;
        }
        ghost var pam1, ram1 := pam, ram[..];
        CopyRom(image, size);
        ghost var p := Placement(romStart, size, image);
        forall j | 0 <= j < |placed| ensures Installed(placed[j], ram[..], pam) {
          StaysInstalled(placed[j], p, ram1, ram[..], pam1, pam);
        }
        NewlyInstalled(p, ram1, ram[..], pam1, pam);
        StaysDisjoint(placed, p);
        placed := placed + [p];
        romStart := romStart + size;
        AllInstalledServe(placed, ram[..], pam);
        return true;
      }
      return false;
    }

    /** A run over ROMs: exactly those that fit are installed, one behind the other. */
    method InitOptRoms(roms: seq<Rom>)
      requires Valid()
      modifies this, ram
      ensures Valid() && AllServed() && placed == old(placed) + Loaded(old(romStart), roms)
      ensures romStart == EndOf(old(romStart), roms)
      ensures forall k :: 0 <= k < ram.Length && !(old(romStart) - BASE <= k < romStart - BASE) ==>
        ram[k] == old(ram[k])
    {
      hide RomSize, SegmentOf, Installed, ModesSet, AllServed;
      Served();
      var i := 0;
      assert roms[..0] == [];
      while i < |roms|
        invariant 0 <= i <= |roms| && Valid() && old(romStart) <= romStart == EndOf(old(romStart), roms[..i])
        invariant AllServed() && placed == old(placed) + Loaded(old(romStart), roms[..i])
        invariant forall k :: 0 <= k < ram.Length && !(old(romStart) - BASE <= k < romStart - BASE) ==>
          ram[k] == old(ram[k])
      {
        assert roms[..i + 1] == roms[..i] + [roms[i]];
        LoadedConcat(old(romStart), roms[..i], [roms[i]]);
        var _ := InitPciRom(roms[i].paddr, roms[i].image);
        i := i + 1;
      }
      assert roms[..i] == roms;
    }
  }

  lemma OneRom(start: nat, rom: Rom)
    ensures var size := RomSize(rom.image(2));
      && Loaded(start, [rom]) == (if Loads(start, rom.paddr, rom.image) then
                                    [Placement(start, size, rom.image)] else [])
      && EndOf(start, [rom]) == if Loads(start, rom.paddr, rom.image) then start + size else start
  {
    hide RomSize;
    assert [rom][1..] == [];
  }

  lemma StaysDisjoint(ps: seq<Placement>, p: Placement)
    requires Disjoint(ps) && forall j :: 0 <= j < |ps| ==> ps[j].start + ps[j].size <= p.start
    ensures Disjoint(ps + [p])
  {
  }

  lemma NewlyInstalled(p: Placement, ram1: seq<Byte>, ram2: seq<Byte>, pam1: seq<Byte>, pam2: seq<Byte>)
    requires |ram1| == |ram2| == LIMIT - BASE
    requires BASE <= p.start && p.start + p.size <= LIMIT && p.size == RomSize(p.image(2))
    requires ModesSet(pam1, pam2, SegmentOf(p.start), LastSegment(p.start, p.size), READ_ONLY)
    requires forall k :: 0 <= k < |ram2| ==>
      ram2[k] == if p.start - BASE <= k < p.start - BASE + p.size then p.image(k - (p.start - BASE)) else ram1[k]
    ensures Installed(p, ram2, pam2)
  {
    hide RomSize;
  }

  lemma StaysInstalled(q: Placement, p: Placement, ram1: seq<Byte>, ram2: seq<Byte>, pam1: seq<Byte>, pam2: seq<Byte>)
    requires |ram1| == |ram2| == LIMIT - BASE && |pam1| == 5
    requires BASE <= p.start && p.start + p.size <= LIMIT && q.start + q.size <= p.start
    requires ModesSet(pam1, pam2, SegmentOf(p.start), LastSegment(p.start, p.size), READ_ONLY)
    requires forall k :: 0 <= k < |ram2| ==>
      ram2[k] == if p.start - BASE <= k < p.start - BASE + p.size then p.image(k - (p.start - BASE)) else ram1[k]
    requires Installed(q, ram1, pam1)
    ensures Installed(q, ram2, pam2)
  {
    hide RomSize;
  }

  /** The rest of the image or of the segment, whichever is smaller. */
  function ChunkSize(addr: nat, left: nat): nat {
    if left < SEGMENT - addr % SEGMENT then left else SEGMENT - addr % SEGMENT
  }

  lemma ChunkInSegment(addr: nat, left: nat)
    ensures addr / SEGMENT * SEGMENT + SEGMENT >= addr + ChunkSize(addr, left)
  {
  }

  /** A chunk stays in the segment it starts in, and is followed by the end of the image or by the next segment. */
  lemma NextChunk(start: nat, copied: nat, size: nat, chunk: nat)
    requires BASE <= start && copied <= size && start + size <= LIMIT &&
      chunk == ChunkSize(start + copied, size - copied)
    ensures copied < size ==> 0 < chunk
    ensures SegmentOf(start) <= SegmentOf(start + copied)
    ensures copied + chunk <= size
    ensures 0 < copied + chunk && 0 < chunk ==> LastSegment(start, copied + chunk) == SegmentOf(start + copied)
    ensures size == 0 ==> chunk == 0 && LastSegment(start, 0) == SegmentOf(start)
    ensures copied + chunk == size || SegmentOf(start + copied + chunk) == SegmentOf(start + copied) + 1
  {
  }

  lemma NothingSet(pam: seq<Byte>, s: nat)
    requires |pam| == 5
    ensures ModesSet(pam, pam, s, s - 1, READ_ONLY)
  {
  }

  lemma OneMoreSet(a: seq<Byte>, b: seq<Byte>, c: seq<Byte>, lo: nat, hi: nat, m: nat)
    requires ModesSet(a, b, lo, hi - 1, m) && ModesSet(b, c, hi, hi, m) && lo <= hi
    ensures ModesSet(a, c, lo, hi, m)
  {
  }

  datatype Rom = Rom(paddr: nat, image: nat -> Byte)

  /** Where a ROM was put. */
  datatype Placement = Placement(start: nat, size: nat, image: nat -> Byte)

  /** The ROMs that fit below the limit, each right behind the one before it; a ROM that does not fit is passed over. */
  function Loaded(romStart: nat, roms: seq<Rom>): seq<Placement>
    decreases roms
  {
    if roms == [] then []
    else
      var rom := roms[0];
      var size := RomSize(rom.image(2));
      if Loads(romStart, rom.paddr, rom.image) then
        [Placement(romStart, size, rom.image)] + Loaded(romStart + size, roms[1..])
      else Loaded(romStart, roms[1..])
  }

  /** Where the next ROM goes behind them. */
  function EndOf(romStart: nat, roms: seq<Rom>): (r: nat)
    ensures romStart <= r
    decreases roms
  {
    if roms == [] then romStart
    else
      var rom := roms[0];
      EndOf(if Loads(romStart, rom.paddr, rom.image) then romStart + RomSize(rom.image(2)) else romStart, roms[1..])
  }

  lemma {:induction false} LoadedConcat(start: nat, a: seq<Rom>, b: seq<Rom>)
    ensures Loaded(start, a + b) == Loaded(start, a) + Loaded(EndOf(start, a), b)
    ensures EndOf(start, a + b) == EndOf(EndOf(start, a), b)
    decreases a
  {
    hide RomSize;
    if a == [] {
      assert a + b == b;
    } else {
      assert (a + b)[1..] == a[1..] + b;
      var rom := a[0];
      LoadedConcat(if Loads(start, rom.paddr, rom.image) then start + RomSize(rom.image(2)) else start, a[1..], b);
    }
  }

  /** The processor reads the image at the placement, and can no longer write there. */
  ghost predicate Installed(p: Placement, ram: seq<Byte>, pam: seq<Byte>)
    requires |pam| == 5 && |ram| == LIMIT - BASE
  {
    && BASE <= p.start && p.start + p.size <= LIMIT && p.size == RomSize(p.image(2))
    && (forall k :: 0 <= k < p.size ==> ram[p.start - BASE + k] == p.image(k))
    && (forall a :: p.start <= a < p.start + p.size ==> SegmentMode(pam, SegmentOf(a)) == READ_ONLY)
  }

  /** An installed ROM is what the processor reads there, and no store changes it. */
  lemma InstalledServes(p: Placement, ram: seq<Byte>, pam: seq<Byte>)
    requires |pam| == 5 && |ram| == LIMIT - BASE && Installed(p, ram, pam)
    ensures Serves(pam, ram, p.start, p.size, p.image)
  {
    hide SegmentMode, RomSize;
    forall addr | p.start <= addr < p.start + p.size
      ensures SegmentMode(pam, SegmentOf(addr)) == READ_ONLY && ram[addr - BASE] == p.image(addr - p.start)
    {
      assert ram[p.start - BASE + (addr - p.start)] == p.image(addr - p.start);
    }
  }

  lemma AllInstalledServe(ps: seq<Placement>, ram: seq<Byte>, pam: seq<Byte>)
    requires |pam| == 5 && |ram| == LIMIT - BASE
    requires forall j :: 0 <= j < |ps| ==> Installed(ps[j], ram, pam)
    ensures forall j :: 0 <= j < |ps| ==> Serves(pam, ram, ps[j].start, ps[j].size, ps[j].image)
  {
    hide Installed, Serves;
    forall j | 0 <= j < |ps| ensures Serves(pam, ram, ps[j].start, ps[j].size, ps[j].image) {
      InstalledServes(ps[j], ram, pam);
    }
  }

  ghost predicate Disjoint(ps: seq<Placement>) {
    forall i, j :: 0 <= i < j < |ps| ==> ps[i].start + ps[i].size <= ps[j].start
  }

  predicate Loads(romStart: nat, paddr: nat, image: nat -> Byte) {
    paddr != 0 && romStart + RomSize(image(2)) <= LIMIT
  }

  /** The last segment of a ROM; an empty one still touches the segment it would start in. */
  function LastSegment(start: nat, size: nat): nat
    requires BASE <= start && start + size <= LIMIT
  {
    SegmentOf(if size == 0 then start else start + size - 1)
  }

  /** Segments lo..hi are in mode m; every other mode bit and all reserved bits are as before. */
  ghost predicate ModesSet(before: seq<Byte>, after: seq<Byte>, lo: int, hi: int, m: nat) {
    && |before| == |after| == 5
    && (forall r :: 0 <= r < 5 ==> Reserved(after[r]) == Reserved(before[r]))
    && (forall s :: 0 <= s < 10 ==> SegmentMode(after, s) == if lo <= s <= hi then m else SegmentMode(before, s))
  }

  /** The register and the nibble the code computes are those of the segment. */
  lemma RegisterOf(addr: nat)
    requires BASE <= addr <= LIMIT
    ensures (addr / 0x8000) % 8 == SegmentOf(addr) / 2 < 5
    ensures (addr / SEGMENT) % 2 == SegmentOf(addr) % 2
  {
  }
}
