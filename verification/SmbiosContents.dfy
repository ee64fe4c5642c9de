/** What the structures of the SMBIOS table say, read by the field offsets of section 7 of DMTF DSP0134. */
module SmbiosContents {
  import opened Common
  import opened Firmware
  import opened Smbios

  // ---------- readers ----------

  /** Where the string at k ends. */
  function TextEnd(s: seq<Byte>, k: nat): (e: nat)
    requires k <= |s|
    ensures k <= e <= |s|
    decreases |s| - k
  {
    if k == |s| || s[k] == 0 then k else TextEnd(s, k + 1)
  }

  /** The n-th of the strings that start at k; strings are numbered from 1, and 0 stands for none. */
  function TextFrom(s: seq<Byte>, k: nat, n: nat): seq<Byte>
    requires k <= |s|
    decreases n
  {
    var e := TextEnd(s, k);
    if n <= 1 || e == |s| then s[k..e] else TextFrom(s, e + 1, n - 1)
  }

  /** The string that the byte at offset k of the structure names. */
  function Text(s: seq<Byte>, k: nat): seq<Byte> {
    if |s| <= k || |s| < 2 || s[k] == 0 || |s| < s[1] then [] else TextFrom(s, s[1], s[k])
  }

  predicate BitOf(b: nat, j: nat) {
    (if j == 0 then b else if j == 1 then b / 2 else if j == 2 then b / 4 else if j == 3 then b / 8
     else if j == 4 then b / 16 else if j == 5 then b / 32 else if j == 6 then b / 64 else b / 128) % 2 == 1
  }

  /** A flag of the little-endian double word at k. */
  predicate Flag(s: seq<Byte>, k: nat, bit: nat)
    requires k + 4 <= |s| && bit < 32
  {
    BitOf(s[k + bit / 8], bit % 8)
  }

  lemma {:induction false} TextEndAt(s: seq<Byte>, k: nat, e: nat)
    requires k <= e < |s| && s[e] == 0 && forall j :: k <= j < e ==> s[j] != 0
    ensures TextEnd(s, k) == e
    decreases e - k
  {
    if k < e {
      TextEndAt(s, k + 1, e);
    }
  }

  lemma TextParts(s: seq<Byte>, k: nat, a: seq<Byte>, rest: seq<Byte>)
    requires k <= |s| && s[k..] == a + ([0] + rest)
    ensures k + |a| < |s| && s[k..k + |a|] == a && s[k + |a|] == 0 && s[k + |a| + 1..] == rest
  {
    var t := s[k..];
    assert |t| == |a| + 1 + |rest|;
    assert t[..|a|] == a && t[|a|] == 0 && t[|a| + 1..] == rest;
    assert s[k..k + |a|] == t[..|a|] && s[k + |a| + 1..] == t[|a| + 1..];
  }

  lemma TextStops(s: seq<Byte>, k: nat, a: seq<Byte>)
    requires k + |a| < |s| && s[k..k + |a|] == a && s[k + |a|] == 0 && 0 !in a
    ensures TextEnd(s, k) == k + |a|
  {
    forall j | k <= j < k + |a| ensures s[j] != 0 {
      assert s[j] == s[k..k + |a|][j - k] && a[j - k] in a;
    }
    TextEndAt(s, k, k + |a|);
  }

  /** The first string of several. */
  lemma FirstText(s: seq<Byte>, k: nat, a: seq<Byte>, rest: seq<Byte>)
    requires k <= |s| && s[k..] == a + ([0] + rest) && 0 !in a
    ensures k + |a| < |s| && s[k + |a| + 1..] == rest && TextFrom(s, k, 1) == a
    ensures forall n :: 1 < n ==> TextFrom(s, k, n) == TextFrom(s, k + |a| + 1, n - 1)
  {
    TextParts(s, k, a, rest);
    TextStops(s, k, a);
    hide TextEnd;
  }

  /** The header of a structure and its fields, byte by byte. */
  lemma Bytes(c: Config, id: Id)
    requires Valid(c) && Known(c, id)
    ensures var s, f := StructureBytes(c, id), Fields(c, id);
      && |s| == 4 + |f| + |Strings(id)| && s[0] == TypeOf(id) && s[1] == 4 + |f|
      && Read16(s, 2) == Handle(id) % 0x1_0000
      && (forall k :: 4 <= k < 4 + |f| ==> s[k] == f[k - 4])
      && s == s[..4 + |f|] + Strings(id)
  {
    hide Fields, Strings, TypeOf, Handle, Le16, Read16;
    HeaderOf(c, id, []);
    assert StructureBytes(c, id) + [] == StructureBytes(c, id);
  }

  // ---------- type 0 ----------

  /** The characteristics of section 7.1.1: those that always hold, and those that depend on what was built. */
  lemma BiosCharacteristics(c: Config, bit: nat)
    requires Valid(c) && bit < 32
    ensures var s, o := StructureBytes(c, Bios), c.options;
      Flag(s, 10, bit) <==>
      || bit in {4, 11, 12, 27, 28, 29}
      || (bit == 7 && o.pci) || (bit == 10 && o.apm) || (bit in {15, 16} && o.elTorito && o.ata)
      || (bit == 19 && o.ata) || (bit in {22, 23, 24, 25} && o.floppy)
  {
    hide StructureBytes, Strings, BitOf, Characteristics;
    CharacteristicBytes(c);
    FirstBytes(c.options, bit % 8);
    LastBytes(c.options, bit % 8);
  }

  lemma CharacteristicBytes(c: Config)
    requires Valid(c)
    ensures var s, o := StructureBytes(c, Bios), Characteristics(c.options);
      |s| > 24 && s[10] == o[0] && s[11] == o[1] && s[12] == o[2] && s[13] == o[3]
  {
    hide StructureBytes, Strings, Characteristics;
    Bytes(c, Bios);
    var f := Fields(c, Bios);
    assert f[6..14] == Characteristics(c.options);
    assert f[6] == f[6..14][0] && f[7] == f[6..14][1] && f[8] == f[6..14][2] && f[9] == f[6..14][3];
  }

  lemma FirstBytes(o: Options, j: nat)
    requires j < 8
    ensures var r := Characteristics(o);
      && (BitOf(r[0], j) <==> j == 4 || (j == 7 && o.pci))
      && (BitOf(r[1], j) <==> j in {3, 4} || (j == 2 && o.apm) || (j == 7 && o.elTorito && o.ata))
  {
  }

  lemma LastBytes(o: Options, j: nat)
    requires j < 8
    ensures var r := Characteristics(o);
      && (BitOf(r[2], j) <==> (j == 0 && o.elTorito && o.ata) || (j == 3 && o.ata) || (j in {6, 7} && o.floppy))
      && (BitOf(r[3], j) <==> j in {3, 4, 5} || (j in {0, 1} && o.floppy))
  {
  }

  lemma NoLastBytes(o: Options)
    ensures var r := Characteristics(o); r[4] == r[5] == r[6] == r[7] == 0
  {
  }

  lemma BiosFields(c: Config)
    requires Valid(c)
    ensures var f := Fields(c, Bios);
      && |f| == 20 && f[0] == 1 && f[1] == 2 && f[2] == 0 && f[3] == 0xe0 && f[4] == 3 && f[5] == 1
      && f[10] == f[11] == f[12] == f[13] == 0
      && f[14] == 1 && f[15] == 0 && f[16] == 1 && f[17] == 0 && f[18] == 0xff && f[19] == 0xff
  {
    NoLastBytes(c.options);
    hide Characteristics;
    var f := Fields(c, Bios);
    assert f[6..14] == Characteristics(c.options);
    assert f[10] == f[6..14][4] && f[11] == f[6..14][5] && f[12] == f[6..14][6] && f[13] == f[6..14][7];
    assert f[..4] == [1, 2] + Le16(0xe000);
    assert f[4..6] == [3, 1];
    assert f[14..] == [1, 0, 1, 0, 0xff, 0xff];
    forall k | 0 <= k < 6 ensures f[14 + k] == f[14..][k] {
    }
    assert f[4] == f[4..6][0] && f[5] == f[4..6][1] && f[2] == f[..4][2] && f[3] == f[..4][3];
  }

  /** 128KB at 0xe0000, with ACPI, release 1.0, no embedded controller; then its vendor, version and date. */
  lemma BiosAsRead(c: Config)
    requires Valid(c)
    ensures var s := StructureBytes(c, Bios);
      && s[0] == 0 && s[1] == 24 && |s| > 24 && Read16(s, 2) == 0
      && Read16(s, 6) == 0xe000 && 16 * Read16(s, 6) + 0x1_0000 * (s[9] as nat + 1) == 0x10_0000
      && s[14] == s[15] == s[16] == s[17] == 0
      && s[18] == 1 && s[19] == 0 && s[20] == 1 && s[21] == 0 && s[22] == s[23] == 0xff
  {
    hide StructureBytes, Strings, Fields;
    Bytes(c, Bios);
    BiosFields(c);
  }

  lemma BiosTextsAsRead(c: Config)
    requires Valid(c)
    ensures var s := StructureBytes(c, Bios);
      Text(s, 4) == Vendor() && Text(s, 5) == Version() && Text(s, 8) == Date()
  {
    hide StructureBytes, Strings, Fields, TextFrom, Vendor, Version, Date;
    Bytes(c, Bios);
    BiosFields(c);
    BiosStrings();
    var s := StructureBytes(c, Bios);
    assert s[4] == 1 && s[5] == 2 && s[8] == 3 && s[1] == 24;
    TailOf(s, 24, Strings(Bios));
    ThreeTexts(s, 24, Vendor(), Version(), Date());
  }

  lemma TailOf(s: seq<Byte>, k: nat, t: seq<Byte>)
    requires k <= |s| && s == s[..k] + t
    ensures s[k..] == t
  {
  }

  lemma ThreeTexts(s: seq<Byte>, k: nat, a: seq<Byte>, b: seq<Byte>, d: seq<Byte>)
    requires k <= |s| && s[k..] == a + ([0] + (b + ([0] + (d + ([0] + [0]))))) && 0 !in a && 0 !in b && 0 !in d
    ensures TextFrom(s, k, 1) == a && TextFrom(s, k, 2) == b && TextFrom(s, k, 3) == d
  {
    hide TextFrom;
    FirstText(s, k, a, b + ([0] + (d + ([0] + [0]))));
    FirstText(s, k + |a| + 1, b, d + ([0] + [0]));
    FirstText(s, k + |a| + 1 + |b| + 1, d, [0]);
  }

  function Vendor(): seq<Byte> {
    Ascii("The Bochs Project")
  }

  function Version(): seq<Byte> {
    Ascii("Bochs")
  }

  function Date(): seq<Byte> {
    Ascii("01/01/2007")
  }

  lemma BiosStrings()
    ensures 0 !in Vendor() && 0 !in Version() && 0 !in Date()
    ensures Strings(Bios) == Vendor() + ([0] + (Version() + ([0] + (Date() + ([0] + [0])))))
  {
    assert 0 !in Vendor() && 0 !in Version() && 0 !in Date();
    hide Ascii;
    assert [0, 0] == [0] + [0];
  }

  // ---------- the other structures ----------

  /** A word or a double word among the fields. */
  lemma WordAt(s: seq<Byte>, k: nat, a: seq<Byte>, v: nat, rest: seq<Byte>)
    requires 4 + |a| == k && k + 2 <= |s|
    requires s[k] == (a + Le16(v) + rest)[|a|] && s[k + 1] == (a + Le16(v) + rest)[|a| + 1]
    ensures Read16(s, k) == v % 0x1_0000
  {
    ReadLe16(v);
  }

  lemma LongAt(s: seq<Byte>, k: nat, w: seq<Byte>, v: nat)
    requires k + 4 <= |s| && w == Le32(v) && forall j :: 0 <= j < 4 ==> s[k + j] == w[j]
    ensures Read32(s, k) == v % TWO_32
  {
    ReadLe32(v);
  }

  lemma SystemAsRead(c: Config)
    requires Valid(c)
    ensures var s := StructureBytes(c, System);
      && s[0] == 1 && s[1] == 27 && |s| > 27 && Read16(s, 2) == 0x100
      && s[4] == s[5] == s[6] == s[7] == 0 && s[8..24] == c.uuid && s[24] == 6 && s[25] == s[26] == 0
  {
    hide StructureBytes, Strings;
    Bytes(c, System);
    var f := Fields(c, System);
    assert f[4..20] == c.uuid;
    assert forall k :: 0 <= k < 16 ==> f[4..20][k] == f[4 + k];
  }

  lemma EnclosureAsRead(c: Config)
    requires Valid(c)
    ensures var s := StructureBytes(c, Enclosure);
      && s[0] == 3 && s[1] == 20 && |s| > 20 && Read16(s, 2) == 0x300
      && s[4] == s[6] == s[7] == s[8] == 0 && s[5] == 1 && s[9] == s[10] == s[11] == 3 && s[12] == 2
      && forall k :: 13 <= k < 20 ==> s[k] == 0
  {
    hide StructureBytes, Strings, Le32;
    Bytes(c, Enclosure);
    var f := Fields(c, Enclosure);
    assert Le32(0) == [0, 0, 0, 0] by { NoWords(); }
    var g: seq<Byte> := [0, 1, 0, 0, 0, 3, 3, 3, 2, 0, 0, 0, 0, 0, 0, 0];
    assert f == g;
  }

  lemma NoWords()
    ensures Le32(0) == [0, 0, 0, 0] && Le16(0) == [0, 0] && Le16(0xffff) == [0xff, 0xff] && Le16(0xfffe) == [0xfe, 0xff]
    ensures Le16(64) == [64, 0] && Le16(0x1000) == [0, 0x10]
  {
  }

  /** A processor: its socket's name, a central processor that is there and enabled, its CPUID words, no caches. */
  lemma CpuAsRead(c: Config, n: nat)
    requires Valid(c) && 1 <= n <= c.smpCpus
    ensures var s := StructureBytes(c, Cpu(n));
      && s[0] == 4 && s[1] == 32 && |s| > 32 && Read16(s, 2) == (0x400 + n) % 0x1_0000
      && ((n + 48) % 256 != 0 ==> Text(s, 4) == Ascii("CPU ") + [(n + 48) % 256])
      && s[5] == 3 && s[6] == 1 && s[7] == 0
      && Read32(s, 8) == c.signature % TWO_32 && Read32(s, 12) == c.features % TWO_32
      && s[24] == 0x41 && s[25] == 1 && Read16(s, 26) == Read16(s, 28) == Read16(s, 30) == 0xffff
  {
    hide StructureBytes, Strings, Read32;
    CpuWords(c, n);
    Bytes(c, Cpu(n));
    CpuFields(c, n);
    hide Fields, Le32, Le16;
    if (n + 48) % 256 != 0 {
      CpuText(c, n);
    }
  }

  lemma CpuWords(c: Config, n: nat)
    requires Valid(c) && 1 <= n <= c.smpCpus
    ensures var s := StructureBytes(c, Cpu(n));
      && |s| > 32 && Read32(s, 8) == c.signature % TWO_32 && Read32(s, 12) == c.features % TWO_32
      && s[24] == 0x41 && s[25] == 1 && Read16(s, 26) == Read16(s, 28) == Read16(s, 30) == 0xffff
  {
    hide StructureBytes, Strings, Le32, Le16, Read32;
    Bytes(c, Cpu(n));
    var s, f := StructureBytes(c, Cpu(n)), Fields(c, Cpu(n));
    CpuFields(c, n);
    hide Fields;
    assert forall j :: 0 <= j < 4 ==> s[8 + j] == f[4 + j] && f[4 + j] == f[4..8][j];
    assert forall j :: 0 <= j < 4 ==> s[12 + j] == f[8 + j] && f[8 + j] == f[8..12][j];
    LongAt(s, 8, Le32(c.signature), c.signature);
    LongAt(s, 12, Le32(c.features), c.features);
  }

  lemma CpuFields(c: Config, n: nat)
    requires Valid(c) && 1 <= n <= c.smpCpus
    ensures var f := Fields(c, Cpu(n));
      && |f| == 28 && f[0] == 1 && f[1] == 3 && f[2] == 1 && f[3] == 0
      && f[4..8] == Le32(c.signature) && f[8..12] == Le32(c.features)
      && f[20] == 0x41 && f[21] == 1 && forall k :: 22 <= k < 28 ==> f[k] == 0xff
  {
    CpuParts(c, n);
    hide Le32, Fields;
    var a, b := [1, 3, 1, 0], Le32(c.signature);
    var d, e := Le32(c.features), [0, 0, 0, 0, 0, 0, 0, 0, 0x41, 1, 0xff, 0xff, 0xff, 0xff, 0xff, 0xff];
    Middle(a, b, d + e);
    Middle(a + b, d, e);
    assert a + b + d + e == a + b + (d + e);
    assert forall k :: 0 <= k < 16 ==> (a + b + d + e)[12 + k] == e[k];
    assert e[8] == 0x41 && e[9] == 1;
    forall k | 22 <= k < 28 ensures (a + b + d + e)[k] == 0xff {
      assert (a + b + d + e)[12 + (k - 12)] == e[k - 12];
    }
  }

  lemma CpuParts(c: Config, n: nat)
    requires Valid(c) && 1 <= n <= c.smpCpus
    ensures Fields(c, Cpu(n)) == [1, 3, 1, 0] + Le32(c.signature) + Le32(c.features) +
                                 [0, 0, 0, 0, 0, 0, 0, 0, 0x41, 1, 0xff, 0xff, 0xff, 0xff, 0xff, 0xff]
  {
    NoWords();
    hide Le32, Le16;
  }

  lemma CpuText(c: Config, n: nat)
    requires Valid(c) && 1 <= n <= c.smpCpus && (n + 48) % 256 != 0
    ensures var s := StructureBytes(c, Cpu(n)); |s| > 32 && Text(s, 4) == Ascii("CPU ") + [(n + 48) % 256]
  {
    hide StructureBytes, Le32, Le16, Read16, Read32;
    Bytes(c, Cpu(n));
    CpuFields(c, n);
    var s, a := StructureBytes(c, Cpu(n)), Ascii("CPU ") + [(n + 48) % 256];
    assert s[32..] == Strings(Cpu(n)) == a + ([0] + [0]);
    assert 0 !in Ascii("CPU ");
    assert 0 !in a;
    FirstText(s, 32, a, [0]);
  }

  /** The array: system memory on the board, its capacity in KB, and how many devices it has. */
  lemma ArrayAsRead(c: Config)
    requires Valid(c)
    ensures var s := StructureBytes(c, MemoryArray);
      && s[0] == 16 && s[1] == 15 && |s| > 15 && Read16(s, 2) == 0x1000
      && s[4] == 3 && s[5] == 3 && s[6] == 1 && Read32(s, 7) == c.memsize * 1024 % TWO_32
      && Read16(s, 11) == 0xfffe && Read16(s, 13) == Devices(c)
  {
    hide StructureBytes, Strings, Le32, Le16, Read32;
    Bytes(c, MemoryArray);
    NoWords();
    var s, f := StructureBytes(c, MemoryArray), Fields(c, MemoryArray);
    var kb, n := Le32(c.memsize * 1024), Le16(Devices(c));
    assert f == [3, 3, 1] + kb + ([0xfe, 0xff] + n);
    Middle([3, 3, 1], kb, [0xfe, 0xff] + n);
    assert f[7..] == [0xfe, 0xff] + n;
    assert forall j :: 0 <= j < 4 ==> s[7 + j] == f[3..7][j];
    LongAt(s, 7, kb, c.memsize * 1024);
    assert f[7] == f[7..][0] && f[8] == f[7..][1] && f[9] == f[7..][2] && f[10] == f[7..][3];
    ReadLe16(Devices(c));
  }

  /** A memory device: in the array, 64 bits wide, its size in MB, a DIMM with its name, RAM. */
  lemma DeviceAsRead(c: Config, i: nat)
    requires Valid(c) && i < Devices(c)
    ensures var s := StructureBytes(c, MemoryDevice(i));
      && s[0] == 17 && s[1] == 21 && |s| > 21 && Read16(s, 2) == 0x1100 + i
      && Read16(s, 4) == 0x1000 && Read16(s, 6) == 0xfffe && Read16(s, 8) == Read16(s, 10) == 64
      && Read16(s, 12) == DeviceSize(c, i)
      && s[14] == 9 && s[15] == 0 && Text(s, 16) == DimmName(i) && s[17] == 0 && s[18] == 7 && Read16(s, 19) == 0
  {
    hide StructureBytes, Strings, Le32, Le16, DimmName;
    assert i < 256;
    Bytes(c, MemoryDevice(i));
    DeviceFields(c, i);
    SizeIsReadable(c, i);
    var s := StructureBytes(c, MemoryDevice(i));
    assert s[4] == 0 && s[5] == 0x10 && s[6] == 0xfe && s[7] == 0xff && s[8] == 64 && s[9] == 0 && s[10] == 64;
    assert s[11] == 0 && s[19] == s[20] == 0;
    DimmText(c, i);
  }

  lemma DeviceFields(c: Config, i: nat)
    requires Valid(c) && i < Devices(c)
    ensures var f := Fields(c, MemoryDevice(i));
      && |f| == 17 && f[0] == 0 && f[1] == 0x10 && f[2] == 0xfe && f[3] == 0xff && f[4] == 64 && f[5] == 0
      && f[6] == 64 && f[7] == 0 && f[10] == 9 && f[11] == 0 && f[12] == 1 && f[13] == 0 && f[14] == 7
      && f[15] == f[16] == 0
  {
    hide Le16;
    NoWords();
    var a: seq<Byte> := [0, 0x10, 0xfe, 0xff, 64, 0, 64, 0];
    var b: seq<Byte> := [9, 0, 1, 0, 7, 0, 0];
    var f := Fields(c, MemoryDevice(i));
    assert f == a + Le16(DeviceSize(c, i)) + b;
    assert forall k :: 0 <= k < 7 ==> f[10 + k] == b[k];
    assert f[10] == 9 && f[11] == 0 && f[12] == 1 && f[13] == 0 && f[14] == 7 && f[15] == 0 && f[16] == 0;
  }

  lemma DimmText(c: Config, i: nat)
    requires Valid(c) && i < Devices(c)
    ensures var s := StructureBytes(c, MemoryDevice(i)); |s| > 21 && s[1] == 21 && Text(s, 16) == DimmName(i)
  {
    hide StructureBytes, Le16, Read16, DimmName;
    Bytes(c, MemoryDevice(i));
    DeviceFields(c, i);
    var s := StructureBytes(c, MemoryDevice(i));
    assert s[21..] == Strings(MemoryDevice(i)) == DimmName(i) + ([0] + [0]);
    FirstText(s, 21, DimmName(i), [0]);
  }

  /** The name is DIMM and the number; three digits do not fit, and the last is cut. */
  lemma DimmNames(i: nat)
    requires i < 1000
    ensures i < 10 ==> DimmName(i) == Ascii("DIMM ") + [48 + i]
    ensures 10 <= i < 100 ==> DimmName(i) == Ascii("DIMM ") + [48 + i / 10, 48 + i % 10]
    ensures 100 <= i ==> DimmName(i) == DimmName(i / 10)
  {
    assert |Ascii("DIMM ")| == 5;
    hide Ascii;
    if 100 <= i {
      assert Decimal(i) == Decimal(i / 10) + [i % 10 + 48];
      assert Decimal(i / 10) == Decimal(i / 10 / 10) + [i / 10 % 10 + 48];
    }
  }

  /** The ranges: which array, which device, and of which array range; one device a row, no interleaving. */
  lemma MappedAsRead(c: Config, i: nat)
    requires Valid(c) && i < Devices(c)
    ensures var s := StructureBytes(c, ArrayMapped(i));
      && s[0] == 19 && s[1] == 15 && |s| > 15 && Read16(s, 2) == 0x1300 + i
      && Read16(s, 12) == 0x1000 && s[14] == 1
    ensures var s := StructureBytes(c, DeviceMapped(i));
      && s[0] == 20 && s[1] == 19 && |s| > 19 && Read16(s, 2) == 0x1400 + i
      && Read16(s, 12) == 0x1100 + i && Read16(s, 14) == 0x1300 + i
      && s[16] == 1 && s[17] == 0 && s[18] == 0
  {
    hide StructureBytes, Strings, Le32, Le16, Handle;
    assert i < 256;
    MappedHandles(i);
    Bytes(c, ArrayMapped(i));
    Bytes(c, DeviceMapped(i));
    ReferencesResolve(c, i);
    NoWords();
    var f := Fields(c, ArrayMapped(i));
    assert f[8..] == [0, 0x10, 1];
    assert f[8] == f[8..][0] && f[9] == f[8..][1] && f[10] == f[8..][2];
    var g := Fields(c, DeviceMapped(i));
    assert g[12..] == [1, 0, 0];
    assert g[12] == g[12..][0] && g[13] == g[12..][1] && g[14] == g[12..][2];
  }

  lemma MappedHandles(i: nat)
    ensures Handle(MemoryDevice(i)) == 0x1100 + i && Handle(ArrayMapped(i)) == 0x1300 + i
    ensures Handle(DeviceMapped(i)) == 0x1400 + i
  {
  }

  /** No errors at boot, and the end. */
  lemma EndAsRead(c: Config)
    requires Valid(c)
    ensures var s := StructureBytes(c, Boot);
      s[0] == 32 && s[1] == 11 && |s| > 11 && Read16(s, 2) == 0x2000 && forall k :: 4 <= k < 11 ==> s[k] == 0
    ensures var s := StructureBytes(c, End); s == [127, 4, 0, 0x7f, 0, 0]
  {
    hide StructureBytes;
    Bytes(c, Boot);
    Bytes(c, End);
    var s := StructureBytes(c, End);
    assert s[2] as nat + 0x100 * s[3] as nat == 0x7f00;
    assert |s| == 6 && s[4..] == Strings(End) == [0, 0];
    assert s[4] == s[4..][0] && s[5] == s[4..][1];
  }

  /** The entry point as it is found: its anchors, its length, version 2.4. */
  lemma AnchorsAsRead(maxSize: nat, length: nat, address: nat, count: nat)
    ensures var e := WithChecksums(EntryPoint(maxSize, length, address, count));
      && e[..4] == Ascii("_SM_") && e[5] == |e| == 31 && e[6] == 2 && e[7] == 4 && e[10] == 0
      && e[16..21] == Ascii("_DMI_") && e[30] == 0x24
  {
    hide Sum, Ascii, Le16, Le32;
    var a: seq<Byte> := Ascii("_SM_") + [0, 0x1f, 2, 4];
    var b := a + Le16(maxSize) + [0] + [0, 0, 0, 0, 0];
    var d := [0] + Le16(length) + Le32(address) + Le16(count) + [0x24];
    var e := EntryPoint(maxSize, length, address, count);
    assert e == b + Ascii("_DMI_") + d;
    assert e[..8] == a;
    assert a[..4] == Ascii("_SM_") && a[5] == 0x1f && a[6] == 2 && a[7] == 4;
    Middle(b, Ascii("_DMI_"), d);
    var r := WithChecksums(e);
    assert r[..4] == e[..8][..4] && r[5] == e[..8][5] && r[6] == e[..8][6] && r[7] == e[..8][7];
    assert r[16..21] == e[16..21];
  }

  /** The memory size is the number of whole MB. */
  lemma MemSizeIsWhole(ramSize: nat, highUnits: nat)
    ensures var bytes, mb := highUnits * 65536 + ramSize, MemSize(ramSize, highUnits);
      1048576 * mb <= bytes < 1048576 * (mb + 1)
  {
  }
}
