/** The multiprocessor configuration table of mptable_init in rombios32.c, and a walk over it. */
module MpTable {
  import opened Common
  import opened Firmware

  const HEADER_LENGTH := 44

  /** What the table depends on: the processors found and their CPUID data. */
  datatype Machine = Machine(smpCpus: nat, signature: nat, features: nat)

  /** The header, with length and checksum still 0. */
  function HeaderBytes(m: Machine): (r: seq<Byte>)
    ensures |r| == HEADER_LENGTH && r[7] == 0
    ensures r[34..36] == Le16(m.smpCpus + 18)
  {
    Ascii("PCMP") + Le16(0) + [4, 0] + Ascii("BOCHSCPU") + Ascii("0.1         ") + Le32(0) + Le16(0)
    + Le16(m.smpCpus + 18) + Le32(0xfee0_0000) + Le16(0) + [0, 0]
  }

  function ProcessorEntry(m: Machine, i: nat): (r: seq<Byte>)
    ensures |r| == 20 && r[0] == 0
  {
    [0, i % 256, 0x11, if i == 0 then 3 else 1]
    + (if m.signature != 0 then Le32(m.signature) + Le32(m.features) else [0, 6, 0, 0] + Le16(0x201) + Le16(0))
    + Le16(0) + Le16(0) + Le16(0) + Le16(0)
  }

  function ProcessorEntries(m: Machine, i: nat): (r: seq<Byte>)
    requires i <= m.smpCpus
    ensures |r| == 20 * (m.smpCpus - i)
    decreases m.smpCpus - i
  {
    if i == m.smpCpus then [] else ProcessorEntry(m, i) + ProcessorEntries(m, i + 1)
  }

  function BusEntry(): (r: seq<Byte>)
    ensures |r| == 8 && r[0] == 1
  {
    [1, 0] + Ascii("ISA   ")
  }

  function IoApicEntry(m: Machine): (r: seq<Byte>)
    ensures |r| == 8 && r[0] == 2
  {
    [2, m.smpCpus % 256, 0x11, 1] + Le32(0xfec0_0000)
  }

  function IrqEntry(m: Machine, i: nat): (r: seq<Byte>)
    requires i < 16
    ensures |r| == 8 && r[0] == 3
  {
    [3, 0, 0, 0, 0, i, m.smpCpus % 256, if i == 0 then 2 else i]
  }

  /** One entry per interrupt, but none for interrupt 2. */
  function IrqEntries(m: Machine, i: nat): (r: seq<Byte>)
    requires i <= 16
    ensures |r| == 8 * (16 - i - if i <= 2 then 1 else 0)
    decreases 16 - i
  {
    if i == 16 then [] else (if i == 2 then [] else IrqEntry(m, i)) + IrqEntries(m, i + 1)
  }

  function Entries(m: Machine): (r: seq<Byte>)
    ensures |r| == 20 * m.smpCpus + 136
  {
    ProcessorEntries(m, 0) + BusEntry() + IoApicEntry(m) + IrqEntries(m, 0)
  }

  function TableLength(m: Machine): nat {
    20 * m.smpCpus + 180
  }

  /** The table with its length patched in, and then the checksum over all of it. */
  function Table(m: Machine): (t: seq<Byte>)
    ensures |t| == TableLength(m)
  {
    var t := WithLength(HeaderBytes(m) + Entries(m));
    t[7 := Negated(Sum(t))]
  }

  function WithLength(t: seq<Byte>): (r: seq<Byte>)
    requires HEADER_LENGTH <= |t|
    ensures |r| == |t| && r[4..6] == Le16(|t|)
    ensures forall k :: 0 <= k < |t| && k != 4 && k != 5 ==> r[k] == t[k]
  {
    t[4 := |t| % 256][5 := (|t| / 256) % 256]
  }

  // ---------- a walk over the entries, chapter 4 of the MultiProcessor Specification ----------

  datatype Entry =
    | Processor(apicId: nat, version: nat, enabled: bool, bootstrap: bool, signature: nat, features: nat)
    | Bus(id: nat, name: seq<Byte>)
    | IoApic(id: nat, version: nat, enabled: bool, address: nat)
    | IoInterrupt(kind: nat, flags: nat, bus: nat, irq: nat, apicId: nat, input: nat)
    | LocalInterrupt(kind: nat, flags: nat, bus: nat, irq: nat, apicId: nat, input: nat)

  /** The base table entries: 20 bytes for a processor, 8 for a bus, I/O APIC, I/O or local interrupt. */
  function EntryLength(kind: Byte): nat {
    if kind == 0 then 20 else 8
  }

  /** An entry by its fields. */
  function EntryOf(e: seq<Byte>): Entry
    requires e != [] && e[0] <= 4 && |e| == EntryLength(e[0])
  {
    if e[0] == 0 then Processor(e[1], e[2], e[3] % 2 == 1, e[3] / 2 % 2 == 1, Read32(e, 4), Read32(e, 8))
    else if e[0] == 1 then Bus(e[1], e[2..8])
    else if e[0] == 2 then IoApic(e[1], e[2], e[3] % 2 == 1, Read32(e, 4))
    else if e[0] == 3 then IoInterrupt(e[1], Read16(e, 2), e[4], e[5], e[6], e[7])
    else LocalInterrupt(e[1], Read16(e, 2), e[4], e[5], e[6], e[7])
  }

  /** All entries, if there is nothing else. */
  function Decode(s: seq<Byte>): Option<seq<Entry>>
    decreases |s|
  {
    if s == [] then Some([])
    else if 4 < s[0] || |s| < EntryLength(s[0]) then None
    else
      var length := EntryLength(s[0]);
      match Decode(s[length..])
      case None => None
      case Some(entries) => Some([EntryOf(s[..length])] + entries)
  }

  lemma DecodeStep(e: seq<Byte>, rest: seq<Byte>)
    requires e != [] && e[0] <= 4 && |e| == EntryLength(e[0]) && Decode(rest).Some?
    ensures Decode(e + rest) == Some([EntryOf(e)] + Decode(rest).value)
  {
    hide EntryOf;
    assert (e + rest)[|e|..] == rest && (e + rest)[..|e|] == e;
  }

  lemma NoEntries()
    ensures Decode([]) == Some([])
  {
  }

  /** The next interrupt adds its entry, interrupt 2 nothing. */
  lemma IrqStep(m: Machine, i: nat, done: seq<Byte>)
    requires i < 16
    ensures done + IrqEntries(m, i) == (done + if i == 2 then [] else IrqEntry(m, i)) + IrqEntries(m, i + 1)
    ensures i == 2 ==> IrqEntries(m, i) == IrqEntries(m, i + 1)
  {
    hide IrqEntry;
  }

  /** The place of an interrupt's entry: there is none for interrupt 2. */
  function Rank(irq: nat): nat {
    if irq <= 2 then irq else irq - 1
  }

  /** The entry of an ISA interrupt: edge and polarity as the bus has them, to its own input, but 0 to input 2. */
  lemma IrqAsRead(m: Machine, irq: nat)
    requires irq < 16
    ensures EntryOf(IrqEntry(m, irq)) == IoInterrupt(0, 0, 0, irq, m.smpCpus % 256, if irq == 0 then 2 else irq)
  {
  }

  lemma {:induction false} IrqsAsRead(m: Machine, i: nat)
    requires i <= 16
    ensures var d := Decode(IrqEntries(m, i));
      && d.Some? && |d.value| == 15 - Rank(i)
      && forall irq :: i <= irq < 16 && irq != 2 ==>
           d.value[Rank(irq) - Rank(i)] ==
           IoInterrupt(0, 0, 0, irq, m.smpCpus % 256, if irq == 0 then 2 else irq)
    decreases 16 - i
  {
    hide IrqEntry, EntryOf, Decode;
    if i == 16 {
      NoEntries();
    } else {
      IrqsAsRead(m, i + 1);
      IrqStep(m, i, []);
      IrqAsRead(m, i);
      if i != 2 {
        DecodeStep(IrqEntry(m, i), IrqEntries(m, i + 1));
      }
    }
  }

  /** A processor as it is found, or a Pentium Pro with an FPU, machine check and APIC when that is not known. */
  function ProcessorAsRead(m: Machine, i: nat): Entry {
    Processor(i % 256, 0x11, true, i == 0,
      if m.signature == 0 then 0x600 else m.signature % TWO_32,
      if m.signature == 0 then 0x201 else m.features % TWO_32)
  }

  lemma ProcessorIsRead(m: Machine, i: nat)
    ensures EntryOf(ProcessorEntry(m, i)) == ProcessorAsRead(m, i)
    ensures forall k :: 12 <= k < 20 ==> ProcessorEntry(m, i)[k] == 0
  {
    ReservedBytes(m, i);
    hide Le32, Read32, TWO_32;
    var e := ProcessorEntry(m, i);
    if m.signature == 0 {
      assert e[4..8] == [0, 6, 0, 0] && e[8..12] == [1, 2, 0, 0];
      FourBytes([0, 6, 0, 0], [1, 2, 0, 0]);
    } else {
      assert e[4..8] == Le32(m.signature) && e[8..12] == Le32(m.features);
      ReadLe32(m.signature);
      ReadLe32(m.features);
    }
    SameDoubleWord(e, 4, e[4..8]);
    SameDoubleWord(e, 8, e[8..12]);
  }

  lemma ReservedBytes(m: Machine, i: nat)
    ensures forall k :: 12 <= k < 20 ==> ProcessorEntry(m, i)[k] == 0
  {
    hide Le32;
    var e := ProcessorEntry(m, i);
    assert e[12..] == [0, 0, 0, 0, 0, 0, 0, 0];
    forall k | 12 <= k < 20 ensures e[k] == 0 {
      assert e[k] == e[12..][k - 12];
    }
  }

  lemma FourBytes(a: seq<Byte>, b: seq<Byte>)
    requires a == [0, 6, 0, 0] && b == [1, 2, 0, 0]
    ensures Read32(a, 0) == 0x600 && Read32(b, 0) == 0x201
  {
  }

  lemma SameDoubleWord(t: seq<Byte>, i: nat, w: seq<Byte>)
    requires i + 4 <= |t| && w == t[i..i + 4]
    ensures Read32(t, i) == Read32(w, 0)
  {
  }

  lemma {:induction false} ProcessorsAreRead(m: Machine, i: nat, rest: seq<Byte>)
    requires i <= m.smpCpus && Decode(rest).Some?
    ensures var d := Decode(ProcessorEntries(m, i) + rest);
      && d.Some? && |d.value| == m.smpCpus - i + |Decode(rest).value|
      && (forall k :: i <= k < m.smpCpus ==> d.value[k - i] == ProcessorAsRead(m, k))
      && d.value[m.smpCpus - i..] == Decode(rest).value
    decreases m.smpCpus - i
  {
    hide ProcessorEntry, Decode, EntryOf, ProcessorAsRead;
    if i < m.smpCpus {
      ProcessorsAreRead(m, i + 1, rest);
      DecodeStep(ProcessorEntry(m, i), ProcessorEntries(m, i + 1) + rest);
      ProcessorIsRead(m, i);
      assert ProcessorEntries(m, i) + rest == ProcessorEntry(m, i) + (ProcessorEntries(m, i + 1) + rest);
    } else {
      assert [] + rest == rest;
    }
  }

  lemma IoApicIsRead(m: Machine)
    ensures EntryOf(IoApicEntry(m)) == IoApic(m.smpCpus % 256, 0x11, true, 0xfec0_0000)
    ensures EntryOf(BusEntry()) == Bus(0, Ascii("ISA   "))
  {
    hide Le32, Read32;
    ReadLe32(0xfec0_0000);
    assert IoApicEntry(m)[4..8] == Le32(0xfec0_0000);
    SameDoubleWord(IoApicEntry(m), 4, Le32(0xfec0_0000));
    assert BusEntry()[2..8] == Ascii("ISA   ");
  }

  /** The table holds smp_cpus + 17 entries: what it says of processors, bus, I/O APIC and interrupts. */
  ghost predicate Describes(entries: seq<Entry>, m: Machine) {
    var n := m.smpCpus;
    && |entries| == n + 17
    && (forall i :: 0 <= i < n ==> entries[i] == ProcessorAsRead(m, i))
    && entries[n] == Bus(0, Ascii("ISA   "))
    && entries[n + 1] == IoApic(n % 256, 0x11, true, 0xfec0_0000)
    && forall irq :: 0 <= irq < 16 && irq != 2 ==>
         entries[n + 2 + Rank(irq)] == IoInterrupt(0, 0, 0, irq, n % 256, if irq == 0 then 2 else irq)
  }

  lemma EntriesAreRead(m: Machine)
    ensures Decode(Entries(m)).Some? && Describes(Decode(Entries(m)).value, m)
  {
    hide ProcessorEntries, BusEntry, IoApicEntry, IrqEntries, Decode, EntryOf, ProcessorAsRead;
    IrqsAsRead(m, 0);
    IoApicIsRead(m);
    var irqs := IrqEntries(m, 0);
    DecodeStep(IoApicEntry(m), irqs);
    DecodeStep(BusEntry(), IoApicEntry(m) + irqs);
    var rest := BusEntry() + (IoApicEntry(m) + irqs);
    ProcessorsAreRead(m, 0, rest);
    assert Entries(m) == ProcessorEntries(m, 0) + rest;
    var entries := Decode(Entries(m)).value;
    forall k | 0 <= k < 17 ensures entries[m.smpCpus + k] == Decode(rest).value[k] {
      assert entries[m.smpCpus..][k] == Decode(rest).value[k];
    }
  }

  /**
   Read as the specification says: one processor is the bootstrap processor, all are enabled; every ISA interrupt but 2
   goes to the one I/O APIC, each to an input of its own among 1 to 15; and no two APICs have the same id exactly if
   there are at most 255 processors.
   */
  lemma DescriptionIsConsistent(entries: seq<Entry>, m: Machine)
    requires Describes(entries, m)
    ensures var n := m.smpCpus;
      && (forall i :: 0 <= i < n ==> entries[i].Processor? && entries[i].enabled)
      && (forall i :: 0 <= i < n ==> (entries[i].bootstrap <==> i == 0))
      && (forall j :: n + 2 <= j < n + 17 ==>
            entries[j].IoInterrupt? && entries[j].apicId == entries[n + 1].id && entries[j].bus == entries[n].id
            && 1 <= entries[j].input <= 15)
      && (forall j, k :: n + 2 <= j < k < n + 17 ==>
            entries[j].input != entries[k].input && entries[j].irq != entries[k].irq)
    ensures ApicIdsDiffer(entries, m.smpCpus) <==> m.smpCpus <= 255
  {
    var n := m.smpCpus;
    forall j | n + 2 <= j < n + 17
      ensures var irq := if j < n + 4 then j - n - 2 else j - n - 1;
        entries[j] == IoInterrupt(0, 0, 0, irq, n % 256, if irq == 0 then 2 else irq)
    {
      var irq := if j < n + 4 then j - n - 2 else j - n - 1;
      assert j == n + 2 + Rank(irq);
    }
    if 255 < n {
      assert entries[0].apicId == 0 && (n == 256 ==> entries[n + 1].id == 0) && (256 < n ==> entries[256].apicId == 0);
    }
  }

  ghost predicate ApicIdsDiffer(entries: seq<Entry>, n: nat)
    requires n + 2 <= |entries| && entries[n + 1].IoApic? && forall i :: 0 <= i < n ==> entries[i].Processor?
  {
    && (forall i, j :: 0 <= i < j < n ==> entries[i].apicId != entries[j].apicId)
    && (forall i :: 0 <= i < n ==> entries[i].apicId != entries[n + 1].id)
  }

  /** The fields the walk needs, as they are read back. */
  lemma FieldsAsRead(m: Machine)
    ensures var t := Table(m);
      && Read16(t, 4) == |t| % 0x1_0000
      && Read16(t, 34) == (m.smpCpus + 18) % 0x1_0000
      && t[HEADER_LENGTH..] == Entries(m)
      && t[..4] == Ascii("PCMP") && t[6] == 4 && Read32(t, 36) == 0xfee0_0000 && t[40] == t[41] == t[42] == 0
  {
    HeaderAsRead(m);
    hide HeaderBytes, Entries, Le16, Sum, Read32, Ascii;
    var raw := HeaderBytes(m) + Entries(m);
    var patched, t := WithLength(raw), Table(m);
    hide WithLength;
    ReadLe16(|t|);
    ReadLe16(m.smpCpus + 18);
    assert patched[4..6] == Le16(|t|) && raw[34..36] == Le16(m.smpCpus + 18);
    SameWord(t, 4, Le16(|t|));
    SameWord(t, 34, Le16(m.smpCpus + 18));
    assert t[HEADER_LENGTH..] == raw[HEADER_LENGTH..] == Entries(m);
    assert t[..4] == raw[..4] == HeaderBytes(m)[..4];
    assert t[36..40] == HeaderBytes(m)[36..40];
    SameDoubleWord(t, 36, t[36..40]);
    SameDoubleWord(HeaderBytes(m), 36, t[36..40]);
  }

  /** Signature, revision 1.4, and the place of the local APICs. */
  lemma HeaderAsRead(m: Machine)
    ensures var h := HeaderBytes(m);
      && h[8..16] == Ascii("BOCHSCPU") && h[16..28] == Ascii("0.1         ")
      && (forall k :: 28 <= k < 34 || 40 <= k < 44 ==> h[k] == 0)
    ensures var h := HeaderBytes(m);
      h[..4] == Ascii("PCMP") && h[6] == 4 && Read32(h, 36) == 0xfee0_0000 && h[40] == h[41] == h[42] == 0
  {
    hide Le32, Read32, Le16, Ascii;
    var h := HeaderBytes(m);
    ReadLe32(0xfee0_0000);
    assert h[36..40] == Le32(0xfee0_0000);
    SameDoubleWord(h, 36, Le32(0xfee0_0000));
    ZeroWords();
    var a := Ascii("PCMP") + Le16(0) + [4, 0];
    var b := Ascii("BOCHSCPU") + Ascii("0.1         ") + Le32(0) + Le16(0);
    var c := Le16(m.smpCpus + 18) + Le32(0xfee0_0000);
    var d := Le16(0) + [0, 0];
    assert h == a + b + c + d;
    assert |a| == 8 && |b| == 26 && |c| == 6 && |d| == 4;
    assert h[8..16] == b[..8] && h[16..28] == b[8..20] && b[20..] == [0, 0, 0, 0, 0, 0] && d == [0, 0, 0, 0];
    forall k | 28 <= k < 34 ensures h[k] == 0 {
      assert h[k] == b[20..][k - 28];
    }
    forall k | 40 <= k < 44 ensures h[k] == 0 {
      assert h[k] == d[k - 40];
    }
  }

  lemma ZeroWords()
    ensures Le16(0) == [0, 0] && Le32(0) == [0, 0, 0, 0]
  {
  }

  lemma SameWord(t: seq<Byte>, i: nat, w: seq<Byte>)
    requires i + 2 <= |t| && |w| == 2 && t[i] == w[0] && t[i + 1] == w[1]
    ensures Read16(t, i) == Read16(w, 0)
  {
  }

  /** The table sums to zero and records its own length if that fits 16 bits, but the number of entries never right. */
  lemma TableAsRead(m: Machine)
    requires m.smpCpus < 0x1_0000
    ensures var t := Table(m);
      && SumsToZero(t)
      && (Read16(t, 4) == |t| <==> |t| < 0x1_0000)
      && Decode(t[HEADER_LENGTH..]).Some? && Describes(Decode(t[HEADER_LENGTH..]).value, m)
      && Read16(t, 34) != |Decode(t[HEADER_LENGTH..]).value|
  {
    hide HeaderBytes, Entries, WithLength, Sum, SumsToZero, Read16, Decode, Table;
    TableSumsToZero(m);
    EntriesAreRead(m);
    FieldsAsRead(m);
    NeverTheCount(m.smpCpus);
  }

  lemma TableSumsToZero(m: Machine)
    ensures SumsToZero(Table(m))
  {
    hide HeaderBytes, Entries, WithLength, Sum, SumsToZero;
    ChecksumStored(WithLength(HeaderBytes(m) + Entries(m)), 7);
  }

  lemma NeverTheCount(n: nat)
    requires n < 0x1_0000
    ensures (n + 18) % 0x1_0000 != n + 17
  {
  }

  // ---------- mptable_init ----------

  method MptableInit(buf: array<Byte>, start: nat, m: Machine) returns (next: nat)
    requires start + TableLength(m) <= buf.Length
    modifies buf
    ensures next == start + TableLength(m)
    ensures buf[..] == Splice(old(buf[..]), start, Table(m))
  {
    hide Splice, HeaderBytes, Sum, Le16, WithLength;
    ghost var base := buf[..];
    next := EmitTable(buf, start, m);
    ghost var raw := HeaderBytes(m) + Entries(m);
    var len := next - start;
    PatchLength(base, start, raw);
    buf[start + 4] := len % 256;
    buf[start + 5] := (len / 256) % 256;
    assert buf[..] == Splice(base, start, raw)[start + 4 := len % 256][start + 5 := (len / 256) % 256];
    assert buf[start..next] == buf[..][start..next] == WithLength(raw);
    var sum := SumBytes(buf, start, next);
    SpliceUpdate(base, start, WithLength(raw), 7, Negated(sum));
    buf[start + 7] := Negated(sum);
    assert buf[..] == Splice(base, start, WithLength(raw))[start + 7 := Negated(sum)];
  }

  lemma PatchLength(base: seq<Byte>, start: nat, raw: seq<Byte>)
    requires start + |raw| <= |base| && HEADER_LENGTH <= |raw|
    ensures Splice(base, start, raw)[start + 4 := |raw| % 256][start + 5 := (|raw| / 256) % 256] ==
            Splice(base, start, WithLength(raw))
  {
    SpliceUpdate(base, start, raw, 4, |raw| % 256);
    SpliceUpdate(base, start, raw[4 := |raw| % 256], 5, (|raw| / 256) % 256);
  }

  /** The stores through q, up to the patches of length and checksum. */
  method EmitTable(buf: array<Byte>, start: nat, m: Machine) returns (q: nat)
    requires start + TableLength(m) <= buf.Length
    modifies buf
    ensures q == start + TableLength(m)
    ensures buf[..] == Splice(old(buf[..]), start, HeaderBytes(m) + Entries(m))
  {
    hide Splice, HeaderBytes, ProcessorEntry, BusEntry, IoApicEntry, IrqEntry;
    ghost var base := buf[..];
    SpliceNothing(base, start);
    ghost var done := [];
    q := start;
    q, done := Emit(buf, base, start, q, done, HeaderBytes(m));
    assert done == HeaderBytes(m);
    q, done := EmitProcessors(buf, base, start, q, done, m);
    hide ProcessorEntries, IrqEntries;
    q, done := Emit(buf, base, start, q, done, BusEntry());
    q, done := Emit(buf, base, start, q, done, IoApicEntry(m));
    q, done := EmitIrqs(buf, base, start, q, done, m);
    Regroup(HeaderBytes(m), ProcessorEntries(m, 0), BusEntry(), IoApicEntry(m), IrqEntries(m, 0));
    assert done == HeaderBytes(m) + Entries(m);
  }

  lemma Regroup(a: seq<Byte>, b: seq<Byte>, c: seq<Byte>, d: seq<Byte>, e: seq<Byte>)
    ensures (((a + b) + c) + d) + e == a + (((b + c) + d) + e)
  {
  }

  method EmitProcessors(buf: array<Byte>, ghost base: seq<Byte>, start: nat,
        from: nat, ghost before: seq<Byte>, m: Machine)
    returns (q: nat, ghost done: seq<Byte>)
    requires from == start + |before| && from + 20 * m.smpCpus <= buf.Length == |base|
    requires buf[..] == Splice(base, start, before)
    modifies buf
    ensures done == before + ProcessorEntries(m, 0) && q == start + |done|
    ensures buf[..] == Splice(base, start, done)
  {
    hide Splice, ProcessorEntry;
    q, done := from, before;
    var i := 0;
    while i < m.smpCpus
      invariant 0 <= i <= m.smpCpus && q == start + |done| == from + 20 * i
      invariant done + ProcessorEntries(m, i) == before + ProcessorEntries(m, 0)
      invariant buf[..] == Splice(base, start, done)
    {
      assert done + ProcessorEntries(m, i) == (done + ProcessorEntry(m, i)) + ProcessorEntries(m, i + 1);
      q, done := Emit(buf, base, start, q, done, ProcessorEntry(m, i));
      i := i + 1;
    }
  }

  method EmitIrqs(buf: array<Byte>, ghost base: seq<Byte>, start: nat, from: nat, ghost before: seq<Byte>, m: Machine)
    returns (q: nat, ghost done: seq<Byte>)
    requires from == start + |before| && from + 120 <= buf.Length == |base|
    requires buf[..] == Splice(base, start, before)
    modifies buf
    ensures done == before + IrqEntries(m, 0) && q == start + |done|
    ensures buf[..] == Splice(base, start, done)
  {
    NoIrqs(m);
    hide Splice, IrqEntry, IrqEntries;
    q, done := from, before;
    var i := 0;
    while i < 16
      invariant 0 <= i <= 16 && q == start + |done|
      invariant done + IrqEntries(m, i) == before + IrqEntries(m, 0)
      invariant buf[..] == Splice(base, start, done)
    {
      IrqStep(m, i, done);
      if i == 2 {
        i := i + 1;
        continue;
      }
      q, done := Emit(buf, base, start, q, done, IrqEntry(m, i));
      i := i + 1;
    }
  }

  lemma NoIrqs(m: Machine)
    ensures IrqEntries(m, 16) == []
  {
  }

  /** The floating pointer structure, before its checksum is stored. */
  function FloatingPointer(table: nat): (r: seq<Byte>)
    ensures |r| == 16 && r[10] == 0
  {
    Ascii("_MP_") + Le32(table) + [1, 4, 0, 0, 0, 0, 0, 0]
  }

  function FinishedPointer(table: nat): (r: seq<Byte>)
    ensures SumsToZero(r)
  {
    ChecksumStored(FloatingPointer(table), 10);
    FloatingPointer(table)[10 := Negated(Sum(FloatingPointer(table)))]
  }

  /** As it is read: its signature, where the table is, 16 bytes long, revision 1.4, and no feature bits. */
  lemma PointerAsRead(table: nat)
    requires table < TWO_32
    ensures var p := FinishedPointer(table);
      && p[..4] == Ascii("_MP_") && Read32(p, 4) == table && 16 * p[8] == |p| == 16 && p[9] == 4
      && (forall k :: 11 <= k < 16 ==> p[k] == 0)
      && SumsToZero(p)
  {
    hide Le32, Read32, Ascii, SumsToZero, Sum;
    var p := FinishedPointer(table);
    assert p[..4] == FloatingPointer(table)[..4] == Ascii("_MP_");
    assert p[4..8] == FloatingPointer(table)[4..8] == Le32(table);
    ReadLe32(table);
    SameDoubleWord(p, 4, Le32(table));
  }

  method FloatingPointerInit(buf: array<Byte>, start: nat, table: nat) returns (next: nat)
    requires start + 16 <= buf.Length && table < TWO_32
    modifies buf
    ensures next == start + 16
    ensures buf[..] == Splice(old(buf[..]), start, FinishedPointer(table))
  {
    hide Splice, Sum, FloatingPointer;
    ghost var before := buf[..];
    next := PutBytes(buf, start, FloatingPointer(table));
    assert buf[start..next] == buf[..][start..next] == FloatingPointer(table);
    var sum := SumBytes(buf, start, next);
    buf[start + 10] := Negated(sum);
    SpliceUpdate(before, start, FloatingPointer(table), 10, Negated(sum));
    assert buf[..] == Splice(before, start, FloatingPointer(table))[start + 10 := Negated(sum)];
  }
}
