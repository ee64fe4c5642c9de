/**
 The structures that the system BIOS holds for its callers, as rombios.c declares them and rombios32.c lays them out,
 and what the checksum patcher makes of each: that it takes them for what they are.
 */
module BiosStructures {
  import opened Common
  import opened Firmware
  import opened BiosSums
  import MpTable

  /** The image holds the bytes s at h, and the tool may read all that it wants to of the structure. */
  predicate Holds(d: Image, h: nat, s: seq<Byte>) {
    h + |s| <= MAX_OFFSET && d[h..h + |s|] == s
  }

  lemma HeldBytes(d: Image, h: nat, s: seq<Byte>)
    requires Holds(d, h, s)
    ensures forall k :: 0 <= k < |s| ==> d[h + k] == s[k]
  {
    forall k | 0 <= k < |s| ensures d[h + k] == s[k] {
      assert d[h..h + |s|][k] == d[h + k];
    }
  }

  /** What is stored for a structure makes it sum to zero; if it does so already, nothing is stored. */
  ghost predicate Handled(kind: Kind, d: Image, h: nat, s: seq<Byte>, ck: nat) {
    && Signed(kind, d, h) && Checks(kind, d, h)
    && Body(kind, d, h) == s && ck < |s|
    && Patched(kind, d, h) == d[h + ck := Patched(kind, d, h)[h + ck]]
    && SumsToZero(s[ck := Patched(kind, d, h)[h + ck]])
    && (SumsToZero(s) ==> Patched(kind, d, h) == d)
  }

  predicate Signed(kind: Kind, d: Image, h: nat) {
    h + 4 <= SIZE && SignedAt(kind, d, h)
  }

  lemma HandledStructure(kind: Kind, d: Image, h: nat, s: seq<Byte>, ck: nat)
    requires Holds(d, h, s) && Signed(kind, d, h) && Checks(kind, d, h) && Length(kind, d, h) == |s|
    requires ChecksumAt(kind) == ck < |s|
    ensures Handled(kind, d, h, s, ck)
  {
    hide Sum, Negated, Length, Checks, SumsToZero, SignedAt;
    var z := s[ck := 0];
    var b := Needed(s, ck);
    assert Body(kind, d, h) == s;
    assert Patched(kind, d, h) == d[h + ck := b];
    ChecksumStored(z, ck);
    assert z[ck := b] == s[ck := b];
    assert d[h..h + |s|][ck] == d[h + ck] == s[ck];
    if SumsToZero(s) {
      OnlyZero(s, ck);
    }
  }

  /** The byte that makes the sum zero is determined by the others. */
  lemma OnlyZero(s: seq<Byte>, ck: nat)
    requires ck < |s| && SumsToZero(s)
    ensures Needed(s, ck) == s[ck]
  {
    hide Sum;
    SumUpdate(s, ck, 0);
    SumAtLeast(s, ck);
  }

  // ---------- the BIOS32 service directory, the PCI interrupt routing table and the Plug and Play header ----------

  /** With the checksum computed by the assembler, from the address of the entry point. */
  function Bios32(entry: nat): (s: seq<Byte>)
    requires entry < 0x1_0000
  {
    [0x5f, 0x33, 0x32, 0x5f] + Le16(entry)
    + [0x0f, 0, 0, 1, 255 - (entry / 256 + entry % 256 + 0x32) % 256, 0, 0, 0, 0, 0]
  }

  /** The table of 6 slots of 16 bytes each. */
  function RoutingTable(slots: seq<Byte>): (s: seq<Byte>)
    requires |slots| == 96
    ensures |s| == 128
  {
    [0x24, 0x50, 0x49, 0x52, 0, 1] + Le16(32 + 6 * 16) + [0, 0x08, 0, 0, 0x86, 0x80, 0x2e, 0x12, 0, 0, 0, 0]
    + [0, 0, 0, 0, 0, 0, 0, 0, 0, 0, 0, 0x37] + slots
  }

  /** The Plug and Play installation check structure, with the offsets of its two entry points. */
  function PnpHeader(realMode: nat, protMode: nat): (s: seq<Byte>)
    requires realMode < 0x1_0000 && protMode < 0x1_0000
    ensures |s| == 33
  {
    [0x24, 0x50, 0x6e, 0x50, 0x10, 0x21, 0, 0, 0xd1] + Le32(0xf_0000) + Le16(realMode) + Le16(0xf000) + Le16(protMode)
    + Le32(0xf_0000) + Le32(0) + Le16(0xf000) + Le32(0xf_0000)
  }

  /** The service directory is taken for one; its checksum is right as it was assembled. */
  lemma Bios32IsHandled(d: Image, h: nat, entry: nat)
    requires entry < 0x1_0000 && Holds(d, h, Bios32(entry))
    ensures Handled(Pci32, d, h, Bios32(entry), 10) && SumsToZero(Bios32(entry))
  {
    hide Sum, Needed;
    var s := Bios32(entry);
    HeldBytes(d, h, s);
    assert d[h..h + 4] == s[..4] == Ascii("_32_");
    HandledStructure(Pci32, d, h, s, 10);
    Bios32Sum(entry);
  }

  lemma Bios32Sum(entry: nat)
    requires entry < 0x1_0000
    ensures SumsToZero(Bios32(entry))
  {
    hide Sum;
    var hi, lo := entry / 256, entry % 256;
    var ck := 255 - (hi + lo + 0x32) % 256;
    var a, b: seq<Byte> := [0x5f, 0x33, 0x32, 0x5f], [0x0f, 0, 0, 1, ck, 0, 0, 0, 0, 0];
    assert Bios32(entry) == a + [lo, hi] + b;
    SumConcat(a + [lo, hi], b);
    SumConcat(a, [lo, hi]);
    SumOfFour(0x5f, 0x33, 0x32, 0x5f);
    SumOfTwo(lo, hi);
    assert b == [0x0f, 0, 0, 1] + [ck, 0] + [0, 0, 0, 0];
    SumConcat([0x0f, 0, 0, 1] + [ck, 0], [0, 0, 0, 0]);
    SumConcat([0x0f, 0, 0, 1], [ck, 0]);
    SumOfFour(0x0f, 0, 0, 1);
    SumOfFour(0, 0, 0, 0);
    SumOfTwo(ck, 0);
  }

  lemma SumOfTwo(a: Byte, b: Byte)
    ensures Sum([a, b]) == a + b
  {
    var s, t: seq<Byte> := [a, b], [b];
    assert s[1..] == t && t[1..] == [];
    assert Sum(t) == b + Sum(t[1..]) == b;
  }

  lemma SumOfFour(a: Byte, b: Byte, c: Byte, e: Byte)
    ensures Sum([a, b, c, e]) == a + b + c + e
  {
    SumConcat([a, b], [c, e]);
    SumOfTwo(a, b);
    SumOfTwo(c, e);
    assert [a, b] + [c, e] == [a, b, c, e];
  }

  /** The routing table is taken for one, whatever its slots. */
  lemma RoutingTableIsHandled(d: Image, h: nat, slots: seq<Byte>)
    requires |slots| == 96 && Holds(d, h, RoutingTable(slots))
    ensures Handled(Pir, d, h, RoutingTable(slots), 31)
  {
    hide Sum, Needed;
    var s := RoutingTable(slots);
    HeldBytes(d, h, s);
    assert d[h..h + 4] == s[..4] == Ascii("$PIR");
    HandledStructure(Pir, d, h, s, 31);
  }

  /** So is the Plug and Play header. */
  lemma PnpHeaderIsHandled(d: Image, h: nat, realMode: nat, protMode: nat)
    requires realMode < 0x1_0000 && protMode < 0x1_0000 && Holds(d, h, PnpHeader(realMode, protMode))
    ensures Handled(Pnp, d, h, PnpHeader(realMode, protMode), 8)
  {
    hide Sum, Needed;
    var s := PnpHeader(realMode, protMode);
    HeldBytes(d, h, s);
    assert d[h..h + 4] == s[..4] == Ascii("$PnP");
    HandledStructure(Pnp, d, h, s, 8);
  }

  /** The slot of ISA and five PCI slots; the links of the pins go round. */
  function Slot(n: nat): (s: seq<Byte>)
    requires n < 6
    ensures |s| == 16
  {
    [0, 8 * (n + 1), 0x60 + n % 4, 0xf8, 0xde, 0x60 + (n + 1) % 4, 0xf8, 0xde, 0x60 + (n + 2) % 4, 0xf8, 0xde,
     0x60 + (n + 3) % 4, 0xf8, 0xde, n, 0]
  }

  function Slots(n: nat): (s: seq<Byte>)
    requires n <= 6
    ensures |s| == 16 * n
  {
    if n == 0 then [] else Slots(n - 1) + Slot(n - 1)
  }

  lemma SumOfEight(s: seq<Byte>)
    requires |s| == 8
    ensures Sum(s) == s[0] as int + s[1] + s[2] + s[3] + s[4] + s[5] + s[6] + s[7]
  {
    SumConcat(s[..4], s[4..]);
    SumOfFour(s[0], s[1], s[2], s[3]);
    SumOfFour(s[4], s[5], s[6], s[7]);
    assert s[..4] == [s[0], s[1], s[2], s[3]] && s[4..] == [s[4], s[5], s[6], s[7]] && s[..4] + s[4..] == s;
  }

  lemma SumOfSixteen(s: seq<Byte>)
    requires |s| == 16
    ensures Sum(s) == s[0] as int + s[1] + s[2] + s[3] + s[4] + s[5] + s[6] + s[7] +
                      s[8] + s[9] + s[10] + s[11] + s[12] + s[13] + s[14] + s[15]
  {
    SumConcat(s[..8], s[8..]);
    SumOfEight(s[..8]);
    SumOfEight(s[8..]);
    assert s[..8] + s[8..] == s;
  }

  lemma SlotSum(n: nat)
    requires n < 6
    ensures Sum(Slot(n)) == 2278 + 9 * n
  {
    hide Sum;
    var s := Slot(n);
    LinksSum(n);
    SumOfSixteen(s);
  }

  /** The slots of the table, one by one: 6 times 2278, and 9 times 0 to 5. */
  lemma SlotsSum()
    ensures Sum(Slots(6)) == 6 * 2278 + 9 * 15
  {
    hide Sum, Slot;
    SlotsStep(1);
    SlotsStep(2);
    SlotsStep(3);
    SlotsStep(4);
    SlotsStep(5);
    SlotsStep(6);
    assert Sum(Slots(0)) == 0 by { NoSum(); }
  }

  lemma NoSum()
    ensures Slots(0) == [] && Sum([]) == 0
  {
  }

  lemma SlotsStep(n: nat)
    requires 1 <= n <= 6
    ensures Sum(Slots(n)) == Sum(Slots(n - 1)) + 2278 + 9 * (n - 1)
  {
    hide Sum, Slot;
    SumConcat(Slots(n - 1), Slot(n - 1));
    SlotSum(n - 1);
  }

  lemma LinksSum(n: nat)
    ensures n % 4 + (n + 1) % 4 + (n + 2) % 4 + (n + 3) % 4 == 6
  {
  }

  /** The routing table as it is declared has the right checksum. */
  lemma RoutingTableSum()
    ensures SumsToZero(RoutingTable(Slots(6)))
  {
    hide Sum, Slots, SumsToZero;
    SlotsSum();
    var a: seq<Byte> := [0x24, 0x50, 0x49, 0x52, 0, 1, 128, 0, 0, 0x08, 0, 0, 0x86, 0x80, 0x2e, 0x12];
    var b: seq<Byte> := [0, 0, 0, 0, 0, 0, 0, 0, 0, 0, 0, 0, 0, 0, 0, 0x37];
    HeadOfTable(Slots(6), a, b);
    SumConcat(a + b, Slots(6));
    SumConcat(a, b);
    SumOfSixteen(a);
    SumOfSixteen(b);
    assert Sum(RoutingTable(Slots(6))) == 256 * 57;
    ZeroOf(RoutingTable(Slots(6)));
  }

  lemma ZeroOf(s: seq<Byte>)
    requires Sum(s) == 256 * 57
    ensures SumsToZero(s)
  {
    hide Sum;
  }

  lemma HeadOfTable(slots: seq<Byte>, a: seq<Byte>, b: seq<Byte>)
    requires |slots| == 96
    requires a == [0x24, 0x50, 0x49, 0x52, 0, 1, 128, 0, 0, 0x08, 0, 0, 0x86, 0x80, 0x2e, 0x12]
    requires b == [0, 0, 0, 0, 0, 0, 0, 0, 0, 0, 0, 0, 0, 0, 0, 0x37]
    ensures RoutingTable(slots) == (a + b) + slots
  {
  }

  /** The checksum of the Plug and Play header is right for some places of its entry points only; the tool sets it. */
  lemma PnpHeaderSum(realMode: nat, protMode: nat)
    requires realMode < 0x1_0000 && protMode < 0x1_0000
    ensures SumsToZero(PnpHeader(realMode, protMode)) <==>
            (realMode / 256 + realMode % 256 + protMode / 256 + protMode % 256) % 256 == 0xbf
  {
    hide Sum;
    var rl, rh, pl, ph := realMode % 256, realMode / 256, protMode % 256, protMode / 256;
    var a: seq<Byte> := [0x24, 0x50, 0x6e, 0x50, 0x10, 0x21, 0, 0, 0xd1, 0, 0, 0x0f, 0, rl, rh, 0];
    var b: seq<Byte> := [0xf0, pl, ph, 0, 0, 0x0f, 0, 0, 0, 0, 0, 0, 0xf0, 0, 0, 0x0f];
    PnpParts(realMode, protMode, a, b);
    SumConcat(a + b, [0]);
    SumConcat(a, b);
    SumOfSixteen(a);
    SumOfSixteen(b);
    SumOfZero();
    var x := rh + rl + ph + pl;
    assert Sum(PnpHeader(realMode, protMode)) == x + 1089;
    assert 1089 == 4 * 256 + 0x41;
  }

  lemma PnpParts(realMode: nat, protMode: nat, a: seq<Byte>, b: seq<Byte>)
    requires realMode < 0x1_0000 && protMode < 0x1_0000
    requires a == [0x24, 0x50, 0x6e, 0x50, 0x10, 0x21, 0, 0, 0xd1, 0, 0, 0x0f, 0, realMode % 256, realMode / 256, 0]
    requires b == [0xf0, protMode % 256, protMode / 256, 0, 0, 0x0f, 0, 0, 0, 0, 0, 0, 0xf0, 0, 0, 0x0f]
    ensures PnpHeader(realMode, protMode) == (a + b) + [0]
  {
  }

  // ---------- the multiprocessor structures ----------

  /** The floating pointer that rombios32.c makes is left as it is. */
  lemma MpPointerIsHandled(d: Image, h: nat, table: nat)
    requires table < TWO_32 && Holds(d, h, MpTable.FinishedPointer(table))
    ensures Handled(Mp, d, h, MpTable.FinishedPointer(table), 10) && Patched(Mp, d, h) == d
  {
    hide Sum, Needed, MpTable.FinishedPointer;
    var s := MpTable.FinishedPointer(table);
    HeldBytes(d, h, s);
    MpTable.PointerAsRead(table);
    assert |s| == 16;
    assert d[h..h + 4] == s[..4] == Ascii("_MP_");
    HandledStructure(Mp, d, h, s, 10);
  }

  /** So is its configuration table, as far as that fits the image. */
  lemma MpTableIsHandled(d: Image, h: nat, m: MpTable.Machine)
    requires Holds(d, h, MpTable.Table(m))
    ensures Handled(Pcmp, d, h, MpTable.Table(m), 7) && Patched(Pcmp, d, h) == d
  {
    hide Sum, Needed, MpTable.Table, Handled, Holds;
    MpTable.FieldsAsRead(m);
    MpTable.TableSumsToZero(m);
    assert |MpTable.Table(m)| == 20 * m.smpCpus + 180;
    PcmpIsHandled(d, h, MpTable.Table(m));
  }

  lemma PcmpIsHandled(d: Image, h: nat, s: seq<Byte>)
    requires Holds(d, h, s) && 44 <= |s| && s[..4] == Ascii("PCMP") && Read16(s, 4) == |s| % 0x1_0000
    requires s[40] == s[41] == s[42] == 0 && SumsToZero(s)
    ensures Handled(Pcmp, d, h, s, 7) && Patched(Pcmp, d, h) == d
  {
    hide Sum, Needed;
    HeldBytes(d, h, s);
    assert d[h..h + 4] == s[..4];
    HandledStructure(Pcmp, d, h, s, 7);
  }
}
