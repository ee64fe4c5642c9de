/** The SMBIOS table of smbios_init in rombios32.c, and a walk over it as section 6.1 of DMTF DSP0134 prescribes. */
module Smbios {
  import opened Common
  import opened Firmware

  const ENTRY_POINT_LENGTH := 31

  /** What the BIOS was built with. */
  datatype Options = Options(pci: bool, apm: bool, elTorito: bool, ata: bool, floppy: bool)

  /** What the table depends on; memsize is in MB. */
  datatype Config = Config(smpCpus: nat, signature: nat, features: nat, uuid: seq<Byte>, memsize: nat, options: Options)

  /** Up to 256 memory devices of 16GB: as far as 32-bit KB addresses go, and more than the BIOS can find. */
  predicate Valid(c: Config) {
    |c.uuid| == 16 && c.memsize <= 0x40_0000
  }

  const MB := 1024 * 1024

  /** The memory size in MB from what ram_probe read: RAM below 4GB in bytes, and 64KB units above. */
  function MemSize(ramSize: nat, highUnits: nat): nat {
    (highUnits * 0x1_0000 + ramSize) / MB
  }

  lemma MemSizeIsCovered(ramSize: nat, highUnits: nat)
    requires ramSize < TWO_32 && highUnits < 0x100_0000
    ensures MemSize(ramSize, highUnits) <= 0x40_0000
  {
    assert highUnits * 0x1_0000 + ramSize < MB * 0x40_0000;
  }

  // ---------- the structures ----------

  datatype Id =
    | Bios | System | Enclosure
    | Cpu(number: nat)
    | MemoryArray
    | MemoryDevice(i: nat) | ArrayMapped(i: nat) | DeviceMapped(i: nat)
    | Boot | End

  function Devices(c: Config): nat {
    (c.memsize + 0x3fff) / 0x4000
  }

  /** The MB behind device i: 16GB each, and what is left for the last one. */
  function DeviceSize(c: Config, i: nat): nat
    requires i < Devices(c)
  {
    if i == Devices(c) - 1 then (c.memsize - 1) % 0x4000 + 1 else 0x4000
  }

  function RangeStart(i: nat): (r: nat)
    ensures r < TWO_32
  {
    U32(i * 0x100_0000)
  }

  function RangeEnd(c: Config, i: nat): (r: nat)
    requires i < Devices(c)
    ensures r < TWO_32
  {
    U32(RangeStart(i) + DeviceSize(c, i) * 1024 - 1)
  }

  function Count(c: Config): nat {
    c.smpCpus + 3 * Devices(c) + 6
  }

  predicate Known(c: Config, id: Id) {
    match id
    case Cpu(number) => 1 <= number <= c.smpCpus
    case MemoryDevice(i) => i < Devices(c)
    case ArrayMapped(i) => i < Devices(c)
    case DeviceMapped(i) => i < Devices(c)
    case _ => true
  }

  /** The k-th structure: three for the system, processors 1..n, the array, three for each device, two at the end. */
  function IdAt(c: Config, k: nat): (id: Id)
    requires k < Count(c)
    ensures Known(c, id)
  {
    var n := c.smpCpus;
    if k == 0 then Bios
    else if k == 1 then System
    else if k == 2 then Enclosure
    else if k < n + 3 then Cpu(k - 2)
    else if k == n + 3 then MemoryArray
    else if k == Count(c) - 2 then Boot
    else if k == Count(c) - 1 then End
    else
      var j := k - n - 4;
      if j % 3 == 0 then MemoryDevice(j / 3) else if j % 3 == 1 then ArrayMapped(j / 3) else DeviceMapped(j / 3)
  }

  function Handle(id: Id): nat {
    match id
    case Bios => 0
    case System => 0x100
    case Enclosure => 0x300
    case Cpu(number) => 0x400 + number
    case MemoryArray => 0x1000
    case MemoryDevice(i) => 0x1100 + i
    case ArrayMapped(i) => 0x1300 + i
    case DeviceMapped(i) => 0x1400 + i
    case Boot => 0x2000
    case End => 0x7f00
  }

  function TypeOf(id: Id): Byte {
    match id
    case Bios => 0
    case System => 1
    case Enclosure => 3
    case Cpu(_) => 4
    case MemoryArray => 16
    case MemoryDevice(_) => 17
    case ArrayMapped(_) => 19
    case DeviceMapped(_) => 20
    case Boot => 32
    case End => 127
  }

  function Bit(on: bool, n: Byte): Byte {
    if on then n else 0
  }

  /** bios_characteristics: what is always supported, and what the build adds. */
  function Characteristics(o: Options): (r: seq<Byte>)
    ensures |r| == 8
  {
    [0x10 + Bit(o.pci, 0x80), 0x18 + Bit(o.apm, 0x04) + Bit(o.elTorito && o.ata, 0x80),
     Bit(o.elTorito && o.ata, 0x01) + Bit(o.ata, 0x08) + Bit(o.floppy, 0xc0), 0x38 + Bit(o.floppy, 0x03), 0, 0, 0, 0]
  }

  /** The fields behind the header. */
  function Fields(c: Config, id: Id): (r: seq<Byte>)
    requires Valid(c) && Known(c, id)
    ensures |r| <= 40
  {
    match id
    case Bios => [1, 2] + Le16(0xe000) + [3, 1] + Characteristics(c.options) + [1, 0] + [1, 0, 0xff, 0xff]
    case System => [0, 0, 0, 0] + c.uuid + [6, 0, 0]
    case Enclosure => [0, 1, 0, 0, 0, 3, 3, 3, 2] + Le32(0) + [0, 0, 0]
    case Cpu(_) =>
      [1, 3, 1, 0] + Le32(c.signature) + Le32(c.features) + [0, 0] + Le16(0) + Le16(0) + Le16(0) + [0x41, 1]
      + Le16(0xffff) + Le16(0xffff) + Le16(0xffff)
    case MemoryArray => [3, 3, 1] + Le32(c.memsize * 1024) + Le16(0xfffe) + Le16(Devices(c))
    case MemoryDevice(i) =>
      Le16(0x1000) + Le16(0xfffe) + Le16(64) + Le16(64) + Le16(DeviceSize(c, i)) + [9, 0, 1, 0, 7] + Le16(0)
    case ArrayMapped(i) => Le32(RangeStart(i)) + Le32(RangeEnd(c, i)) + Le16(0x1000) + [1]
    case DeviceMapped(i) => Le32(RangeStart(i)) + Le32(RangeEnd(c, i)) + Le16(0x1100 + i) + Le16(0x1300 + i) + [1, 0, 0]
    case Boot => [0, 0, 0, 0, 0, 0, 0]
    case End => []
  }

  /** %d */
  function Decimal(n: nat): (s: seq<Byte>)
    ensures 1 <= |s| && forall k :: 0 <= k < |s| ==> '0' as nat <= s[k] <= '9' as nat
  {
    if n < 10 then [n + '0' as nat] else Decimal(n / 10) + [n % 10 + '0' as nat]
  }

  /** snprintf into 8 bytes. */
  function Truncated(s: seq<Byte>): (r: seq<Byte>) {
    if |s| <= 7 then s else s[..7]
  }

  /** The character that numbers the processor: a byte, so '0' + number wraps. */
  function CpuDigit(number: nat): Byte {
    (number + '0' as nat) % 256
  }

  function DimmName(i: nat): (r: seq<Byte>)
    ensures |r| <= 7 && forall k :: 0 <= k < |r| ==> r[k] != 0
  {
    Truncated(Ascii("DIMM ") + Decimal(i))
  }

  /** The string area with its terminators. */
  function Strings(id: Id): (r: seq<Byte>)
    ensures 2 <= |r| <= 60
  {
    match id
    case Bios => Ascii("The Bochs Project") + [0] + Ascii("Bochs") + [0] + Ascii("01/01/2007") + [0, 0]
    case Cpu(number) => Ascii("CPU ") + [CpuDigit(number), 0, 0]
    case MemoryDevice(i) => DimmName(i) + [0, 0]
    case _ => [0, 0]
  }

  function Formatted(c: Config, id: Id): (r: seq<Byte>)
    requires Valid(c) && Known(c, id)
    ensures |r| == 4 + |Fields(c, id)|
    ensures r[0] == TypeOf(id) && r[1] == |r| && r[2..4] == Le16(Handle(id))
  {
    [TypeOf(id), 4 + |Fields(c, id)|] + Le16(Handle(id)) + Fields(c, id)
  }

  function StructureBytes(c: Config, id: Id): (r: seq<Byte>)
    requires Valid(c) && Known(c, id)
    ensures 6 <= |r| <= 104
  {
    Formatted(c, id) + Strings(id)
  }

  /** The structures from the k-th on. */
  function TableFrom(c: Config, k: nat): (r: seq<Byte>)
    requires Valid(c) && k <= Count(c)
    decreases Count(c) - k
  {
    if k == Count(c) then []
    else StructureBytes(c, IdAt(c, k)) + TableFrom(c, k + 1)
  }

  // ---------- the walk ----------

  /** What a walk learns of a structure: its header and its size with the strings. */
  datatype Structure = Structure(typ: nat, length: nat, handle: nat, size: nat)

  /** Just behind the first pair of NULs at or after k. */
  function StringsEnd(s: seq<Byte>, k: nat): Option<nat>
    decreases |s| - k
  {
    if |s| < k + 2 then None
    else if s[k] == 0 && s[k + 1] == 0 then Some(k + 2)
    else StringsEnd(s, k + 1)
  }

  function Walk(s: seq<Byte>): Option<seq<Structure>>
    decreases |s|
  {
    if s == [] then Some([])
    else if |s| < 4 || s[1] < 4 then None
    else
      match StringsEnd(s, s[1])
      case None => None
      case Some(end) =>
        StringsEndBounds(s, s[1]);
        match Walk(s[end..])
        case None => None
        case Some(rest) => Some([Structure(s[0], s[1], Read16(s, 2), end)] + rest)
  }

  lemma {:induction false} StringsEndBounds(s: seq<Byte>, k: nat)
    ensures var e := StringsEnd(s, k); e.Some? ==> k + 2 <= e.value <= |s| && s[e.value - 2] == s[e.value - 1] == 0
    decreases |s| - k
  {
    if k + 2 <= |s| && !(s[k] == 0 && s[k + 1] == 0) {
      StringsEndBounds(s, k + 1);
    }
  }

  /** The terminators come last: no pair of NULs before them. */
  ghost predicate Clean(s: seq<Byte>) {
    && 2 <= |s| && s[|s| - 2] == s[|s| - 1] == 0
    && forall k :: 0 <= k < |s| - 2 ==> !(s[k] == 0 && s[k + 1] == 0)
  }

  /** The strings are terminated where they should be, unless the processor's digit is the NUL character. */
  lemma StringsClean(c: Config, id: Id)
    requires Known(c, id)
    ensures Clean(Strings(id)) <==> !(id.Cpu? && CpuDigit(id.number) == 0)
  {
    match id
    case Cpu(number) =>
      assert Strings(id)[3] == 0x20 && Strings(id)[4] == CpuDigit(number);
    case MemoryDevice(i) =>
    case Bios =>
      var a, b, d := Ascii("The Bochs Project"), Ascii("Bochs"), Ascii("01/01/2007");
      assert forall k :: 0 <= k < |a| ==> a[k] != 0;
      assert forall k :: 0 <= k < |b| ==> b[k] != 0;
      assert forall k :: 0 <= k < |d| ==> d[k] != 0;
    case _ =>
  }

  lemma {:induction false} StringsEndAt(s: seq<Byte>, k: nat, e: nat)
    requires k <= e && e + 2 <= |s| && s[e] == s[e + 1] == 0
    requires forall j :: k <= j < e ==> !(s[j] == 0 && s[j + 1] == 0)
    ensures StringsEnd(s, k) == Some(e + 2)
    decreases e - k
  {
    if k < e {
      StringsEndAt(s, k + 1, e);
    }
  }

  function StructureOf(c: Config, id: Id): Structure
    requires Valid(c) && Known(c, id)
  {
    Structure(TypeOf(id), |Formatted(c, id)|, Handle(id), |StructureBytes(c, id)|)
  }

  /** Size of the structure as a walk sees it: one less when the string area holds three NULs in a row. */
  function WalkedSize(c: Config, id: Id): (n: nat)
    requires Valid(c) && Known(c, id)
    ensures 6 <= n <= |StructureBytes(c, id)|
  {
    if id.Cpu? && CpuDigit(id.number) == 0 then |StructureBytes(c, id)| - 1 else |StructureBytes(c, id)|
  }

  lemma EndOf(f: seq<Byte>, t: seq<Byte>, rest: seq<Byte>)
    requires Clean(t)
    ensures StringsEnd(f + t + rest, |f|) == Some(|f| + |t|)
  {
    var s := f + t + rest;
    assert forall k :: 0 <= k < |t| ==> s[|f| + k] == t[k];
    forall j | |f| <= j < |f| + |t| - 2 ensures !(s[j] == 0 && s[j + 1] == 0) {
      assert s[j] == t[j - |f|] && s[j + 1] == t[j - |f| + 1];
    }
    StringsEndAt(s, |f|, |f| + |t| - 2);
  }

  /** With the NUL digit the first pair of NULs is already the digit and the terminator of the string. */
  lemma NulDigit(number: nat)
    requires CpuDigit(number) == 0
    ensures var t := Strings(Cpu(number)); |t| == 7 && t[6] == 0 && Clean(t[..6])
  {
    assert Strings(Cpu(number)) == [67, 80, 85, 32, 0, 0, 0];
  }

  lemma EndOfStructure(c: Config, id: Id, rest: seq<Byte>)
    requires Valid(c) && Known(c, id)
    ensures StringsEnd(StructureBytes(c, id) + rest, |Formatted(c, id)|) == Some(WalkedSize(c, id))
  {
    hide Formatted, Strings, Clean;
    var f, t := Formatted(c, id), Strings(id);
    StringsClean(c, id);
    if id.Cpu? && CpuDigit(id.number) == 0 {
      NulDigit(id.number);
      assert StructureBytes(c, id) + rest == f + t[..6] + (t[6..] + rest);
      EndOf(f, t[..6], t[6..] + rest);
    } else {
      EndOf(f, t, rest);
    }
  }

  lemma HeaderOf(c: Config, id: Id, rest: seq<Byte>)
    requires Valid(c) && Known(c, id)
    ensures var s := StructureBytes(c, id) + rest;
      s[0] == TypeOf(id) && s[1] == |Formatted(c, id)| && Read16(s, 2) == Handle(id) % 0x1_0000
  {
    hide Formatted, Strings, TypeOf, Handle, Fields;
    var f := Formatted(c, id);
    var s := StructureBytes(c, id) + rest;
    assert s[2] == f[2..4][0] && s[3] == f[2..4][1];
    ReadLe16(Handle(id));
  }

  /** One step of the walk over a structure and what follows it. */
  lemma WalkStep(c: Config, id: Id, rest: seq<Byte>)
    requires Valid(c) && Known(c, id)
    ensures var s := StructureBytes(c, id) + rest; var n := WalkedSize(c, id);
      var tail := Walk(s[n..]);
      Walk(s) == if tail.None? then None
                 else Some([Structure(TypeOf(id), |Formatted(c, id)|, Handle(id) % 0x1_0000, n)] + tail.value)
  {
    hide Formatted, StructureBytes, Strings, TypeOf, Handle, WalkedSize;
    var s := StructureBytes(c, id) + rest;
    HeaderOf(c, id, rest);
    EndOfStructure(c, id, rest);
    StringsEndBounds(s, s[1]);
  }

  /** The structures from the k-th on, as they were written. */
  function StructuresFrom(c: Config, k: nat): (r: seq<Structure>)
    requires Valid(c) && k <= Count(c)
    ensures |r| == Count(c) - k
    decreases Count(c) - k
  {
    if k == Count(c) then []
    else [StructureOf(c, IdAt(c, k))] + StructuresFrom(c, k + 1)
  }

  /**
   * A walk over the table meets exactly the structures that were written and ends where the table ends, if and
   * only if there are fewer than 208 processors: '0' + 208 is the NUL character.
   */
  lemma TableIsWalked(c: Config)
    requires Valid(c)
    ensures Walk(TableFrom(c, 0)) == Some(StructuresFrom(c, 0)) <==> c.smpCpus < 208
  {
    if c.smpCpus < 208 {
      WalkFrom(c, 0);
    } else {
      WalkMisses(c, 0);
    }
  }

  /** A structure whose strings end where they should leaves the walk at the next structure. */
  lemma TableStep(c: Config, k: nat)
    requires Valid(c) && k < Count(c)
    requires var id := IdAt(c, k); Known(c, id) && WalkedSize(c, id) == |StructureBytes(c, id)|
    ensures var id := IdAt(c, k); var tail := Walk(TableFrom(c, k + 1));
      Walk(TableFrom(c, k)) ==
      if tail.None? then None else Some([StructureOf(c, id).(handle := Handle(id) % 0x1_0000)] + tail.value)
  {
    hide Walk, Formatted, StructureBytes, TypeOf, Handle, IdAt, WalkedSize;
    var id := IdAt(c, k);
    WalkStep(c, id, TableFrom(c, k + 1));
    assert (StructureBytes(c, id) + TableFrom(c, k + 1))[|StructureBytes(c, id)|..] == TableFrom(c, k + 1);
  }

  lemma WalkDone(c: Config)
    requires Valid(c)
    ensures Walk(TableFrom(c, Count(c))) == Some([])
  {
  }

  lemma {:induction false} WalkFrom(c: Config, k: nat)
    requires Valid(c) && k <= Count(c) && c.smpCpus < 208
    ensures Walk(TableFrom(c, k)) == Some(StructuresFrom(c, k))
    decreases Count(c) - k
  {
    hide IdAt, WalkedSize, StructureBytes, Known, StructureOf, Handle, Walk, TableFrom;
    if k == Count(c) {
      WalkDone(c);
    } else {
      WholeSize(c, IdAt(c, k));
      TableStep(c, k);
      WalkFrom(c, k + 1);
      HandleBound(c, IdAt(c, k));
    }
  }

  lemma WholeSize(c: Config, id: Id)
    requires Valid(c) && Known(c, id) && c.smpCpus < 208
    ensures WalkedSize(c, id) == |StructureBytes(c, id)|
  {
  }

  lemma HandleBound(c: Config, id: Id)
    requires Valid(c) && Known(c, id) && c.smpCpus < 208
    ensures StructureOf(c, id).(handle := Handle(id) % 0x1_0000) == StructureOf(c, id)
  {
    hide Formatted, StructureBytes, TypeOf, Handle;
    assert Handle(id) < 0x1_0000 by { SmallHandle(c, id); }
  }

  lemma SmallHandle(c: Config, id: Id)
    requires Valid(c) && Known(c, id) && c.smpCpus < 208
    ensures Handle(id) < 0x1_0000
  {
  }

  lemma {:induction false} WalkMisses(c: Config, k: nat)
    requires Valid(c) && k <= 210 && 208 <= c.smpCpus
    ensures Walk(TableFrom(c, k)) != Some(StructuresFrom(c, k))
    decreases 210 - k
  {
    hide WalkedSize, StructureBytes, Known, StructureOf, Handle, Walk, TableFrom, IdAt;
    if k == 210 {
      WalkMissesNul(c);
    } else {
      EarlySize(c, k);
      TableStep(c, k);
      WalkMisses(c, k + 1);
      var tail := Walk(TableFrom(c, k + 1));
      if tail.Some? {
        assert Walk(TableFrom(c, k)).value[1..] == tail.value;
        assert StructuresFrom(c, k)[1..] == StructuresFrom(c, k + 1);
      }
    }
  }

  lemma WalkMissesNul(c: Config)
    requires Valid(c) && 208 <= c.smpCpus
    ensures Walk(TableFrom(c, 210)) != Some(StructuresFrom(c, 210))
  {
    hide Walk, Formatted, StructureBytes, TypeOf, Handle, WalkedSize, IdAt;
    NulSize(c);
    WalkStep(c, Cpu(208), TableFrom(c, 211));
    assert StructuresFrom(c, 210)[0].size == |StructureBytes(c, Cpu(208))|;
  }

  lemma NulSize(c: Config)
    requires Valid(c) && 208 <= c.smpCpus
    ensures IdAt(c, 210) == Cpu(208) && WalkedSize(c, Cpu(208)) == |StructureBytes(c, Cpu(208))| - 1
  {
  }

  lemma EarlySize(c: Config, k: nat)
    requires Valid(c) && k < 210 && k < Count(c) && Known(c, IdAt(c, k)) && 208 <= c.smpCpus
    ensures WalkedSize(c, IdAt(c, k)) == |StructureBytes(c, IdAt(c, k))|
  {
  }

  /** No two structures have the same handle. */
  lemma HandlesDiffer(c: Config, i: nat, j: nat)
    requires Valid(c) && c.smpCpus < 208 && i < j < Count(c)
    ensures Handle(IdAt(c, i)) != Handle(IdAt(c, j))
  {
  }

  // ---------- the memory ranges ----------

  /** MB behind the first n devices. */
  function TotalSize(c: Config, n: nat): nat
    requires n <= Devices(c)
  {
    if n == 0 then 0 else TotalSize(c, n - 1) + DeviceSize(c, n - 1)
  }

  /** The device sizes add up to the memory. */
  lemma SizesAddUp(c: Config)
    ensures TotalSize(c, Devices(c)) == c.memsize
  {
    if Devices(c) > 0 {
      FullDevices(c, Devices(c) - 1);
    }
  }

  lemma {:induction false} FullDevices(c: Config, n: nat)
    requires n < Devices(c)
    ensures TotalSize(c, n) == 0x4000 * n
  {
    if n > 0 {
      FullDevices(c, n - 1);
    }
  }

  /**
   * The ranges of types 19 and 20 tile the memory: each is as long as its device and at most 16GB, and a KB address
   * lies in the range of device i exactly if it is below the memory size and i is the one device it belongs to.
   */
  lemma RangesTile(c: Config, i: nat, kb: nat)
    requires Valid(c) && i < Devices(c)
    ensures RangeStart(i) <= RangeEnd(c, i) && RangeEnd(c, i) - RangeStart(i) + 1 == DeviceSize(c, i) * 1024
    ensures 1 <= DeviceSize(c, i) <= 0x4000
    ensures RangeStart(i) <= kb <= RangeEnd(c, i) <==> kb < c.memsize * 1024 && kb / 0x100_0000 == i
  {
    assert i < 256;
    var size := DeviceSize(c, i);
    assert RangeStart(i) == i * 0x100_0000;
    LastRange(c, i);
    assert RangeEnd(c, i) == RangeStart(i) + size * 1024 - 1;
  }

  lemma LastRange(c: Config, i: nat)
    requires Valid(c) && i < Devices(c)
    ensures i == Devices(c) - 1 ==> 0x4000 * i + DeviceSize(c, i) == c.memsize
    ensures i < Devices(c) - 1 ==> 0x4000 * (i + 1) < c.memsize
    ensures 1 <= DeviceSize(c, i) <= 0x4000
  {
  }

  /** Field offsets of the structure, from behind the header. */
  lemma ReadField(c: Config, id: Id, j: nat)
    requires Valid(c) && Known(c, id)
    ensures j + 2 <= |Fields(c, id)| ==> Read16(StructureBytes(c, id), 4 + j) == Read16(Fields(c, id), j)
    ensures j + 4 <= |Fields(c, id)| ==> Read32(StructureBytes(c, id), 4 + j) == Read32(Fields(c, id), j)
  {
    hide Fields, Strings, TypeOf, Handle, Le16;
    var f := Fields(c, id);
    assert forall k :: 0 <= k < |f| ==> StructureBytes(c, id)[4 + k] == f[k];
  }

  lemma Read32At(a: seq<Byte>, v: nat, rest: seq<Byte>)
    requires v < TWO_32
    ensures Read32(a + Le32(v) + rest, |a|) == v
  {
    ReadLe32(v);
    var s, b := a + Le32(v) + rest, Le32(v);
    hide Le32;
    assert forall k :: 0 <= k < 4 ==> s[|a| + k] == b[k];
  }

  lemma Read16At(a: seq<Byte>, v: nat, rest: seq<Byte>)
    requires v < 0x1_0000
    ensures Read16(a + Le16(v) + rest, |a|) == v
  {
    ReadLe16(v);
    var s, b := a + Le16(v) + rest, Le16(v);
    hide Le16;
    assert forall k :: 0 <= k < 2 ==> s[|a| + k] == b[k];
  }

  /** A reader finds the ranges in the structures of type 19 and 20. */
  lemma RangesAreReadable(c: Config, i: nat)
    requires Valid(c) && i < Devices(c)
    ensures var s := StructureBytes(c, ArrayMapped(i)); Read32(s, 4) == RangeStart(i) && Read32(s, 8) == RangeEnd(c, i)
    ensures var s := StructureBytes(c, DeviceMapped(i)); Read32(s, 4) == RangeStart(i) && Read32(s, 8) == RangeEnd(c, i)
  {
    RangeFields(c, ArrayMapped(i), i);
    RangeFields(c, DeviceMapped(i), i);
  }

  lemma RangeFields(c: Config, id: Id, i: nat)
    requires Valid(c) && i < Devices(c) && (id == ArrayMapped(i) || id == DeviceMapped(i))
    ensures 12 <= |StructureBytes(c, id)|
    ensures Read32(StructureBytes(c, id), 4) == RangeStart(i) && Read32(StructureBytes(c, id), 8) == RangeEnd(c, i)
  {
    hide Le32, Le16, Read32, RangeStart, RangeEnd;
    var a, b := RangeStart(i), RangeEnd(c, i);
    ReadField(c, id, 0);
    ReadField(c, id, 4);
    var f := Fields(c, id);
    assert f == [] + Le32(a) + f[4..] && f == Le32(a) + Le32(b) + f[8..];
    Read32At([], a, f[4..]);
    Read32At(Le32(a), b, f[8..]);
  }

  /** The structure of type 20 refers to the handles of its device and of its array range. */
  lemma ReferencesResolve(c: Config, i: nat)
    requires Valid(c) && i < Devices(c)
    ensures var s := StructureBytes(c, DeviceMapped(i));
      Read16(s, 12) == Handle(MemoryDevice(i)) && Read16(s, 14) == Handle(ArrayMapped(i))
  {
    hide Le16, Le32, Read16, StructureBytes, RangeStart, RangeEnd;
    assert i < 256;
    var id := DeviceMapped(i);
    var f := Fields(c, id);
    ReadField(c, id, 8);
    ReadField(c, id, 10);
    assert f == f[..8] + Le16(0x1100 + i) + f[10..] && f == f[..10] + Le16(0x1300 + i) + f[12..];
    Read16At(f[..8], 0x1100 + i, f[10..]);
    Read16At(f[..10], 0x1300 + i, f[12..]);
  }

  /** The size field of a memory device, in MB. */
  lemma SizeIsReadable(c: Config, i: nat)
    requires Valid(c) && i < Devices(c)
    ensures Read16(StructureBytes(c, MemoryDevice(i)), 12) == DeviceSize(c, i)
  {
    hide Le16, Read16, StructureBytes;
    var f := Fields(c, MemoryDevice(i));
    ReadField(c, MemoryDevice(i), 8);
    assert f == f[..8] + Le16(DeviceSize(c, i)) + f[10..];
    Read16At(f[..8], DeviceSize(c, i), f[10..]);
  }

  // ---------- the entry point ----------

  /** The entry point before its checksums are stored. */
  function EntryPoint(maxSize: nat, length: nat, address: nat, count: nat): (r: seq<Byte>)
    ensures |r| == ENTRY_POINT_LENGTH && r[4] == 0 && r[21] == 0
  {
    Ascii("_SM_") + [0, 0x1f, 2, 4] + Le16(maxSize) + [0] + [0, 0, 0, 0, 0] + Ascii("_DMI_") + [0]
    + Le16(length) + Le32(address) + Le16(count) + [0x24]
  }

  lemma EntryPointFields(maxSize: nat, length: nat, address: nat, count: nat)
    ensures var r := EntryPoint(maxSize, length, address, count);
      r[8..10] == Le16(maxSize) && r[22..24] == Le16(length) && r[24..28] == Le32(address) && r[28..30] == Le16(count)
  {
    hide Le16, Le32, Ascii;
    var r := EntryPoint(maxSize, length, address, count);
    var a := Ascii("_SM_") + [0, 0x1f, 2, 4];
    var b := [0] + [0, 0, 0, 0, 0] + Ascii("_DMI_") + [0];
    var l, d, n := Le16(length), Le32(address), Le16(count);
    assert r == a + Le16(maxSize) + (b + l + d + n + [0x24]);
    assert r == (a + Le16(maxSize) + b) + l + (d + n + [0x24]);
    assert r == (a + Le16(maxSize) + b + l) + d + (n + [0x24]);
    assert r == (a + Le16(maxSize) + b + l + d) + n + [0x24];
    Middle(a, Le16(maxSize), b + l + d + n + [0x24]);
    Middle(a + Le16(maxSize) + b, l, d + n + [0x24]);
    Middle(a + Le16(maxSize) + b + l, d, n + [0x24]);
    Middle(a + Le16(maxSize) + b + l + d, n, [0x24]);
  }

  lemma Middle(a: seq<Byte>, b: seq<Byte>, c: seq<Byte>)
    ensures (a + b + c)[|a|..|a| + |b|] == b
  {
  }

  function WithChecksums(e: seq<Byte>): (r: seq<Byte>)
    requires |e| == ENTRY_POINT_LENGTH
    ensures |r| == |e|
  {
    e[4 := Negated(Sum(e[..16]))][21 := Negated(Sum(e[16..]))]
  }

  /** Both areas of the entry point sum to zero, and it holds what it was given, as far as that fits the fields. */
  lemma EntryPointIsReadable(maxSize: nat, length: nat, address: nat, count: nat)
    ensures var e := WithChecksums(EntryPoint(maxSize, length, address, count));
      && SumsToZero(e[..16]) && SumsToZero(e[16..])
      && Read16(e, 8) == maxSize % 0x1_0000 && Read16(e, 22) == length % 0x1_0000
      && Read32(e, 24) == address % TWO_32 && Read16(e, 28) == count % 0x1_0000
  {
    hide EntryPoint, Le16, Le32, SumsToZero, Sum;
    var e := EntryPoint(maxSize, length, address, count);
    var r := WithChecksums(e);
    EntryPointFields(maxSize, length, address, count);
    assert forall k :: 8 <= k < 10 || 22 <= k < 30 ==> r[k] == e[k];
    ChecksumStored(e[..16], 4);
    ChecksumStored(e[16..], 5);
    assert r[..16] == e[..16][4 := Negated(Sum(e[..16]))];
    assert r[16..] == e[16..][5 := Negated(Sum(e[16..]))];
    ReadField16(r, 8, maxSize);
    ReadField16(r, 22, length);
    ReadField16(r, 28, count);
    ReadLe32(address);
    assert forall k :: 0 <= k < 4 ==> r[24 + k] == e[24..28][k];
  }

  lemma ReadField16(s: seq<Byte>, i: nat, v: nat)
    requires i + 2 <= |s| && s[i..i + 2] == Le16(v)
    ensures Read16(s, i) == v % 0x1_0000
  {
    assert s[i] == s[i..i + 2][0] && s[i + 1] == s[i..i + 2][1];
    ReadLe16(v);
  }

  /** The size of the largest of the first k structures. */
  function Largest(c: Config, k: nat): (r: nat)
    requires Valid(c) && k <= Count(c)
  {
    if k == 0 then 0
    else Max(Largest(c, k - 1), |StructureBytes(c, IdAt(c, k - 1))|)
  }

  lemma {:induction false} LargestBounds(c: Config, k: nat, n: nat)
    requires Valid(c) && k < n <= Count(c)
    ensures |StructureBytes(c, IdAt(c, k))| <= Largest(c, n)
    decreases n
  {
    hide StructureBytes, IdAt, Known;
    if k < n - 1 {
      LargestBounds(c, k, n - 1);
    }
  }

  lemma {:induction false} LargestIsOneOfThem(c: Config, n: nat) returns (k: nat)
    requires Valid(c) && 0 < n <= Count(c)
    ensures k < n && |StructureBytes(c, IdAt(c, k))| == Largest(c, n)
  {
    hide StructureBytes, IdAt, Known;
    k := n - 1;
    if 1 < n && Largest(c, n) == Largest(c, n - 1) {
      k := LargestIsOneOfThem(c, n - 1);
    }
  }

  /** The recorded maximum is the size of some structure, and none is larger. */
  lemma LargestIsMaximum(c: Config)
    requires Valid(c)
    ensures forall k :: 0 <= k < Count(c) ==> |StructureBytes(c, IdAt(c, k))| <= Largest(c, Count(c))
    ensures exists k :: 0 <= k < Count(c) && |StructureBytes(c, IdAt(c, k))| == Largest(c, Count(c))
  {
    hide StructureBytes, IdAt, Known, Largest;
    forall k | 0 <= k < Count(c) ensures |StructureBytes(c, IdAt(c, k))| <= Largest(c, Count(c)) {
      LargestBounds(c, k, Count(c));
    }
    var k := LargestIsOneOfThem(c, Count(c));
  }

  lemma SizeBound(c: Config, id: Id)
    requires Valid(c) && Known(c, id)
    ensures |StructureBytes(c, id)| <= if id == Bios then 104 else 40
  {
  }

  /** Below 208 processors the length of the table fits its 16-bit field. */
  lemma TableFits(c: Config)
    requires Valid(c) && c.smpCpus < 208
    ensures |TableFrom(c, 0)| < 0x1_0000
  {
    TableBound(c, 0);
  }

  lemma {:induction false} TableBound(c: Config, k: nat)
    requires Valid(c) && k <= Count(c)
    ensures |TableFrom(c, k)| <= 40 * (Count(c) - k) + if k == 0 then 64 else 0
    decreases Count(c) - k
  {
    hide StructureBytes;
    if k < Count(c) {
      SizeBound(c, IdAt(c, k));
      TableBound(c, k + 1);
    }
  }

  // ---------- smbios_init ----------

  /** p has moved over the first k structures: nothing else of the buffer has changed, and the counters fit. */
  ghost predicate Written(now: seq<Byte>, base: seq<Byte>, start: nat, p: nat, c: Config, k: nat, largest: nat)
    requires Valid(c) && k <= Count(c)
  {
    && |now| == |base| && largest == Largest(c, k)
    && start <= p && p + |TableFrom(c, k)| == start + |TableFrom(c, 0)| <= |base|
    && now[..start] == base[..start]
    && now[start..p] + TableFrom(c, k) == TableFrom(c, 0)
    && now[start + |TableFrom(c, 0)|..] == base[start + |TableFrom(c, 0)|..]
  }

  lemma WriteStep(now: seq<Byte>, base: seq<Byte>, start: nat, p: nat, c: Config, k: nat, largest: nat)
    requires Valid(c) && k < Count(c) && Written(now, base, start, p, c, k, largest)
    ensures var b := StructureBytes(c, IdAt(c, k));
      && p + |b| <= |now|
      && Written(Splice(now, p, b), base, start, p + |b|, c, k + 1, Max(largest, |b|))
  {
    hide StructureBytes, IdAt;
    var b := StructureBytes(c, IdAt(c, k));
    assert TableFrom(c, k) == b + TableFrom(c, k + 1);
    var next := Splice(now, p, b);
    assert next[start..p + |b|] == now[start..p] + b;
    assert next[start..p + |b|] + TableFrom(c, k + 1) == now[start..p] + TableFrom(c, k);
    assert next[..start] == now[..start];
    var e := start + |TableFrom(c, 0)|;
    assert next[e..] == now[e..];
  }

  /** The processor structure: the string is copied with a blank, which the digit then replaces. */
  method Type4Init(buf: array<Byte>, start: nat, c: Config, number: nat) returns (next: nat)
    requires Valid(c) && Known(c, Cpu(number))
    requires start + |StructureBytes(c, Cpu(number))| <= buf.Length
    modifies buf
    ensures next == start + |StructureBytes(c, Cpu(number))|
    ensures buf[..] == Splice(old(buf[..]), start, StructureBytes(c, Cpu(number)))
  {
    hide Formatted, Splice, StructureBytes, Strings;
    CpuStructure(c, number);
    ghost var base := buf[..];
    ghost var f := Formatted(c, Cpu(number));
    var s := PutBytes(buf, start, Formatted(c, Cpu(number)));
    next := PutBytes(buf, s, Ascii("CPU  ") + [0, 0]);
    ghost var t: seq<Byte> := Ascii("CPU  ") + [0, 0];
    SpliceChain(base, start, f, t);
    SpliceUpdate(base, start, f + t, |f| + 4, CpuDigit(number));
    buf[s + 4] := CpuDigit(number);
    assert buf[..] == Splice(base, start, f + t)[start + |f| + 4 := CpuDigit(number)];
  }

  lemma CpuStructure(c: Config, number: nat)
    requires Valid(c) && Known(c, Cpu(number))
    ensures var f: seq<Byte> := Formatted(c, Cpu(number)) + (Ascii("CPU  ") + [0, 0]);
      f[|Formatted(c, Cpu(number))| + 4 := CpuDigit(number)] == StructureBytes(c, Cpu(number))
  {
    hide Formatted;
  }

  lemma DimmStructure(c: Config, i: nat)
    requires Valid(c) && Known(c, MemoryDevice(i))
    ensures StructureBytes(c, MemoryDevice(i)) == Formatted(c, MemoryDevice(i)) + (DimmName(i) + [0]) + [0]
  {
    hide Formatted, DimmName;
  }

  method Type17Init(buf: array<Byte>, start: nat, c: Config, i: nat) returns (next: nat)
    requires Valid(c) && Known(c, MemoryDevice(i))
    requires start + |StructureBytes(c, MemoryDevice(i))| <= buf.Length
    modifies buf
    ensures next == start + |StructureBytes(c, MemoryDevice(i))|
    ensures buf[..] == Splice(old(buf[..]), start, StructureBytes(c, MemoryDevice(i)))
  {
    hide Formatted, Splice, DimmName, StructureBytes;
    DimmStructure(c, i);
    next := PutNamed(buf, start, Formatted(c, MemoryDevice(i)), DimmName(i));
  }

  /** snprintf(start, 8, "DIMM %d", instance) behind the formatted part; the second terminator where strlen says. */
  method PutNamed(buf: array<Byte>, start: nat, f: seq<Byte>, name: seq<Byte>) returns (next: nat)
    requires start + |f| + |name| + 2 <= buf.Length && forall k :: 0 <= k < |name| ==> name[k] != 0
    modifies buf
    ensures next == start + |f| + |name| + 2
    ensures buf[..] == Splice(old(buf[..]), start, f + (name + [0]) + [0])
  {
    hide Splice;
    ghost var base := buf[..];
    var s := PutBytes(buf, start, f);
    var n := SnPrintf(buf, s, name);
    SpliceChain(base, start, f, name + [0]);
    next := PutBytes(buf, s + n + 1, [0]);
    SpliceChain(base, start, f + (name + [0]), [0]);
  }

  /** The string with its terminator, and its strlen. */
  method SnPrintf(buf: array<Byte>, s: nat, t: seq<Byte>) returns (n: nat)
    requires s + |t| < buf.Length && forall k :: 0 <= k < |t| ==> t[k] != 0
    modifies buf
    ensures n == |t| && buf[..] == Splice(old(buf[..]), s, t + [0])
  {
    hide Splice;
    var e := PutBytes(buf, s, t + [0]);
    assert buf[s..e] == buf[..][s..e] == t + [0];
    n := StrLen(buf, s, t);
  }

  method StrLen(buf: array<Byte>, s: nat, ghost t: seq<Byte>) returns (n: nat)
    requires s + |t| < buf.Length && buf[s..s + |t| + 1] == t + [0]
    requires forall k :: 0 <= k < |t| ==> t[k] != 0
    ensures n == |t|
  {
    assert forall k :: 0 <= k <= |t| ==> buf[s + k] == (t + [0])[k];
    n := 0;
    while buf[s + n] != 0
      invariant 0 <= n <= |t|
      decreases |t| - n
    {
      n := n + 1;
    }
  }

  /** add_struct: the next structure, counted and measured. */
  method AddStruct(buf: array<Byte>, ghost base: seq<Byte>, ghost start: nat, p: nat,
        c: Config, id: Id, nr: nat, max: nat)
    returns (p': nat, nr': nat, max': nat)
    requires Valid(c) && nr < Count(c) && id == IdAt(c, nr)
    requires Written(buf[..], base, start, p, c, nr, max)
    modifies buf
    ensures nr' == nr + 1 && Written(buf[..], base, start, p', c, nr', max')
  {
    hide StructureBytes, Written, Splice, IdAt;
    WriteStep(buf[..], base, start, p, c, nr, max);
    var q: nat;
    match id {
      case Cpu(number) => q := Type4Init(buf, p, c, number);
      case MemoryDevice(i) => q := Type17Init(buf, p, c, i);
      case _ => q := PutBytes(buf, p, StructureBytes(c, id));
    }
    nr' := nr + 1;
    max' := if q - p > max then q - p else max;
    p' := q;
  }

  /** Which structure the loops have come to. */
  lemma LoopIds(c: Config, i: nat)
    ensures 1 <= i <= c.smpCpus ==> IdAt(c, i + 2) == Cpu(i)
    ensures i < Devices(c) ==>
      var k := c.smpCpus + 4 + 3 * i;
      IdAt(c, k) == MemoryDevice(i) && IdAt(c, k + 1) == ArrayMapped(i) && IdAt(c, k + 2) == DeviceMapped(i)
  {
    DivModUnique(3 * i + 1, 3, i, 1);
    DivModUnique(3 * i + 2, 3, i, 2);
  }

  /**
   * The entry point at start with the table behind it: the entry point records the length, the place and the number
   * of structures and the size of the largest, and no byte outside the two is touched.
   */
  method SmbiosInit(buf: array<Byte>, start: nat, c: Config) returns (next: nat)
    requires Valid(c) && start + ENTRY_POINT_LENGTH + |TableFrom(c, 0)| <= buf.Length
    modifies buf
    ensures next == start + ENTRY_POINT_LENGTH + |TableFrom(c, 0)|
    ensures var t := TableFrom(c, 0); var table := start + ENTRY_POINT_LENGTH;
      buf[..] == old(buf[..start]) + WithChecksums(EntryPoint(Largest(c, Count(c)), |t|, U32(table), Count(c))) + t +
                 old(buf[next..])
  {
    hide Written, Splice, EntryPoint, Largest, IdAt, TableFrom;
    ghost var base := buf[..];
    var table := start + ENTRY_POINT_LENGTH;
    var p: nat, nr: nat, max: nat := table, 0, 0;
    WriteStart(base, table, c);
    FixedIds(c);
    p, nr, max := AddStruct(buf, base, table, p, c, Bios, nr, max);
    p, nr, max := AddStruct(buf, base, table, p, c, System, nr, max);
    p, nr, max := AddStruct(buf, base, table, p, c, Enclosure, nr, max);
    var cpu := 1;
    while cpu <= c.smpCpus
      invariant 1 <= cpu <= c.smpCpus + 1 && nr == cpu + 2
      invariant Written(buf[..], base, table, p, c, nr, max)
    {
      LoopIds(c, cpu);
      p, nr, max := AddStruct(buf, base, table, p, c, Cpu(cpu), nr, max);
      cpu := cpu + 1;
    }
    p, nr, max := AddStruct(buf, base, table, p, c, MemoryArray, nr, max);
    var i := 0;
    while i < Devices(c)
      invariant 0 <= i <= Devices(c) && nr == c.smpCpus + 4 + 3 * i
      invariant Written(buf[..], base, table, p, c, nr, max)
    {
      LoopIds(c, i);
      p, nr, max := AddStruct(buf, base, table, p, c, MemoryDevice(i), nr, max);
      p, nr, max := AddStruct(buf, base, table, p, c, ArrayMapped(i), nr, max);
      p, nr, max := AddStruct(buf, base, table, p, c, DeviceMapped(i), nr, max);
      i := i + 1;
    }
    p, nr, max := AddStruct(buf, base, table, p, c, Boot, nr, max);
    p, nr, max := AddStruct(buf, base, table, p, c, End, nr, max);
    WriteEnd(buf[..], base, table, p, c, max);
    ghost var written := buf[..];
    EntryPointInit(buf, start, max, p - table, U32(table), nr);
    next := p;
    Assemble(base, written, buf[..], start, WithChecksums(EntryPoint(max, p - table, U32(table), nr)), TableFrom(c, 0));
  }

  lemma FixedIds(c: Config)
    ensures IdAt(c, 0) == Bios && IdAt(c, 1) == System && IdAt(c, 2) == Enclosure
    ensures IdAt(c, c.smpCpus + 3) == MemoryArray
    ensures IdAt(c, Count(c) - 2) == Boot && IdAt(c, Count(c) - 1) == End
  {
  }

  lemma WriteStart(base: seq<Byte>, table: nat, c: Config)
    requires Valid(c) && table + |TableFrom(c, 0)| <= |base|
    ensures Written(base, base, table, table, c, 0, 0)
  {
  }

  lemma TableEnd(c: Config)
    requires Valid(c)
    ensures TableFrom(c, Count(c)) == []
  {
  }

  lemma WriteEnd(now: seq<Byte>, base: seq<Byte>, table: nat, p: nat, c: Config, max: nat)
    requires Valid(c) && Written(now, base, table, p, c, Count(c), max)
    ensures max == Largest(c, Count(c)) && |now| == |base|
    ensures p == table + |TableFrom(c, 0)| <= |now|
    ensures now == base[..table] + TableFrom(c, 0) + base[p..]
  {
    hide TableFrom, Largest, Count;
    TableEnd(c);
    Parts(now, base, table, p, TableFrom(c, 0));
  }

  lemma Parts(now: seq<Byte>, base: seq<Byte>, table: nat, p: nat, t: seq<Byte>)
    requires table + |t| == p <= |now| == |base|
    requires now[..table] == base[..table] && now[table..p] + [] == t && now[p..] == base[p..]
    ensures now == base[..table] + t + base[p..]
  {
    assert now[table..p] == t;
    assert now == now[..table] + now[table..p] + now[p..];
  }

  lemma Assemble(base: seq<Byte>, written: seq<Byte>, now: seq<Byte>, start: nat, entry: seq<Byte>, t: seq<Byte>)
    requires start + |entry| + |t| <= |base|
    requires written == base[..start + |entry|] + t + base[start + |entry| + |t|..]
    requires now == Splice(written, start, entry)
    ensures now == base[..start] + entry + t + base[start + |entry| + |t|..]
  {
  }

  method EntryPointInit(buf: array<Byte>, start: nat, maxSize: nat, length: nat, address: nat, count: nat)
    requires start + ENTRY_POINT_LENGTH <= buf.Length
    modifies buf
    ensures buf[..] == Splice(old(buf[..]), start, WithChecksums(EntryPoint(maxSize, length, address, count)))
  {
    hide EntryPoint, Sum, Splice;
    ghost var base := buf[..];
    var e := EntryPoint(maxSize, length, address, count);
    var next := PutBytes(buf, start, e);
    assert buf[start..start + 16] == buf[..][start..next][..16] == e[..16];
    var sum := SumBytes(buf, start, start + 16);
    SpliceUpdate(base, start, e, 4, Negated(sum));
    buf[start + 4] := Negated(sum);
    var e1 := e[4 := Negated(sum)];
    assert buf[..] == Splice(base, start, e)[start + 4 := Negated(sum)];
    assert buf[start + 16..next] == buf[..][start..next][16..] == e1[16..] == e[16..];
    sum := SumBytes(buf, start + 16, next);
    SpliceUpdate(base, start, e1, 21, Negated(sum));
    buf[start + 21] := Negated(sum);
    assert buf[..] == Splice(base, start, e1)[start + 21 := Negated(sum)];
  }

  /**
   * Below 208 processors, the entry point as it is read describes the table as it is walked: number of structures,
   * length and size of the largest.
   */
  lemma EntryPointDescribesTable(c: Config, address: nat)
    requires Valid(c) && c.smpCpus < 208 && address < TWO_32
    ensures var t := TableFrom(c, 0);
      var e := WithChecksums(EntryPoint(Largest(c, Count(c)), |t|, address, Count(c)));
      var w := Walk(t);
      && w.Some? && Read16(e, 28) == |w.value| && Read16(e, 22) == |t| && Read32(e, 24) == address
      && (forall s :: s in w.value ==> s.size <= Read16(e, 8)) && (exists s :: s in w.value && s.size == Read16(e, 8))
  {
    hide StructureBytes, IdAt, TableFrom, Walk, EntryPoint, WithChecksums, Largest, StructuresFrom;
    var max := Largest(c, Count(c));
    TableIsWalked(c);
    TableFits(c);
    EntryPointIsReadable(max, |TableFrom(c, 0)|, address, Count(c));
    LargestOfWalk(c);
  }

  lemma LargestOfWalk(c: Config)
    requires Valid(c)
    ensures var w := StructuresFrom(c, 0); var max := Largest(c, Count(c));
      max <= 104 && (forall s :: s in w ==> s.size <= max) && (exists s :: s in w && s.size == max)
  {
    hide StructureBytes, IdAt, Largest, StructuresFrom, StructureOf, Known;
    LargestIsMaximum(c);
    forall k | 0 <= k < Count(c)
      ensures StructuresFrom(c, 0)[k].size == |StructureBytes(c, IdAt(c, k))|
    {
      StructuresAt(c, 0, k);
    }
    var k :| 0 <= k < Count(c) && |StructureBytes(c, IdAt(c, k))| == Largest(c, Count(c));
    assert StructuresFrom(c, 0)[k] in StructuresFrom(c, 0);
  }

  lemma {:induction false} StructuresAt(c: Config, k: nat, j: nat)
    requires Valid(c) && k <= j < Count(c)
    ensures StructuresFrom(c, k)[j - k] == StructureOf(c, IdAt(c, j))
    ensures StructuresFrom(c, k)[j - k].size == |StructureBytes(c, IdAt(c, j))|
    decreases j - k
  {
    hide StructureBytes, Formatted, IdAt, TypeOf, Handle, Known;
    if k < j {
      StructuresAt(c, k + 1, j);
    }
  }
}
