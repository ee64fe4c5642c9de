/** The ACPI table header and the processor SSDT that rombios32.c builds, and a decoder written from the AML grammar. */
module Acpi {
  import opened Common
  import opened Firmware

  const HEADER_LENGTH := 36

  // ---------- acpi_build_table_header ----------

  /** The header fields in front of the checksum byte, and those behind it. */
  function HeaderFront(sig: seq<Byte>, len: nat, rev: Byte): (r: seq<Byte>)
    ensures |r| == |sig| + 5
  {
    sig + Le32(len) + [rev]
  }

  function HeaderBack(sig: seq<Byte>): (r: seq<Byte>)
    ensures |r| == |sig| + 22
  {
    Ascii("BOCHS ") + Ascii("BXPC") + sig + Le32(1) + Ascii("BXPC") + Le32(1)
  }

  /** The table with its header filled in; the checksum is computed with the old checksum byte still in place. */
  function WithHeader(t: seq<Byte>, sig: seq<Byte>, rev: Byte): (r: seq<Byte>)
    requires HEADER_LENGTH <= |t| && |sig| == 4
    ensures |r| == |t| && r[..9] == HeaderFront(sig, |t|, rev) && r[10..HEADER_LENGTH] == HeaderBack(sig)
    ensures r[HEADER_LENGTH..] == t[HEADER_LENGTH..]
  {
    var filled := HeaderFront(sig, |t|, rev) + [t[9]] + HeaderBack(sig) + t[HEADER_LENGTH..];
    filled[9 := Negated(Sum(filled))]
  }

  /** The whole table sums to 0 mod 256 exactly when its checksum byte was 0 before the header was built. */
  lemma HeaderMakesSumZero(t: seq<Byte>, sig: seq<Byte>, rev: Byte)
    requires HEADER_LENGTH <= |t| && |sig| == 4
    ensures SumsToZero(WithHeader(t, sig, rev)) <==> t[9] == 0
  {
    var filled := HeaderFront(sig, |t|, rev) + [t[9]] + HeaderBack(sig) + t[HEADER_LENGTH..];
    assert filled[9] == t[9];
    ChecksumStored(filled, 9);
  }

  lemma HeaderSplices(before: seq<Byte>, h: nat, t: seq<Byte>, front: seq<Byte>, back: seq<Byte>)
    requires h + |t| <= |before| && t == before[h..h + |t|] && HEADER_LENGTH <= |t| && |front| == 9 && |back| == 26
    ensures Splice(Splice(before, h, front), h + 10, back) ==
            Splice(before, h, front + [t[9]] + back + t[HEADER_LENGTH..])
  {
    var r := Splice(Splice(before, h, front), h + 10, back);
    var filled := front + [t[9]] + back + t[HEADER_LENGTH..];
    forall k | 0 <= k < |t| ensures r[h + k] == filled[k] {
    }
    assert r[h..h + |t|] == filled;
    assert r[..h] == before[..h] && r[h + |t|..] == before[h + |t|..];
    assert r == r[..h] + r[h..h + |t|] + r[h + |t|..];
  }

  method BuildTableHeader(buf: array<Byte>, h: nat, sig: seq<Byte>, len: nat, rev: Byte)
    requires HEADER_LENGTH <= len && h + len <= buf.Length && |sig| == 4
    modifies buf
    ensures buf[..] == Splice(old(buf[..]), h, WithHeader(old(buf[h..h + len]), sig, rev))
  {
    hide Splice, Sum, Ascii, Le32;
    ghost var t := buf[h..h + len];
    ghost var before := buf[..];
    ghost var front, back := HeaderFront(sig, len, rev), HeaderBack(sig);
    ghost var filled := front + [t[9]] + back + t[HEADER_LENGTH..];
    HeaderSplices(before, h, t, front, back);
    var q := PutBytes(buf, h, HeaderFront(sig, len, rev));
    q := PutBytes(buf, h + 10, HeaderBack(sig));
    assert buf[h..h + len] == buf[..][h..h + len] == filled;
    var sum := SumBytes(buf, h, h + len);
    hide HeaderFront, HeaderBack;
    buf[h + 9] := Negated(sum);
    SpliceUpdate(before, h, filled, 9, Negated(sum));
    assert buf[..] == Splice(before, h, filled)[h + 9 := Negated(sum)];
  }

  // ---------- acpi_build_processor_ssdt ----------

  function HexDigit(d: nat): (r: Byte)
    requires d < 16
  {
    if d < 10 then d + '0' as nat else d + 'A' as nat - 10
  }

  /** CPU0..CPUF, then CP10..CPFE. */
  function CpuName(i: nat): seq<Byte>
    requires i < 256
  {
    ['C' as nat, 'P' as nat, if i / 16 != 0 then HexDigit(i / 16) else 'U' as nat, HexDigit(i % 16)]
  }

  function ProcessorBytes(i: nat): (r: seq<Byte>)
    requires i < 256
    ensures |r| == 13
  {
    [0x5b, 0x83, 0x0b] + CpuName(i) + [i, 0x10, 0xb0, 0, 0, 6]
  }

  function ProcessorsFrom(i: nat, n: nat): (r: seq<Byte>)
    requires i <= n <= 255
    ensures |r| == 13 * (n - i)
    decreases n - i
  {
    if i == n then [] else ProcessorBytes(i) + ProcessorsFrom(i + 1, n)
  }

  /** The length of the scope's name and processors. */
  function ContentLength(n: nat): nat {
    13 * n + 4
  }

  /** One length byte for up to 4 processors, two for more. */
  function ScopeLengthBytes(n: nat): (r: seq<Byte>)
    requires n <= 255
  {
    var length := ContentLength(n);
    if length <= 0x3e then [length + 1] else [0x40 + (length + 2) % 16, (length + 2) / 16]
  }

  function ScopeBytes(n: nat): seq<Byte>
    requires n <= 255
  {
    [0x10] + ScopeLengthBytes(n) + Ascii("_PR_") + ProcessorsFrom(0, n)
  }

  function AcpiCpus(smpCpus: nat): (n: nat)
    ensures n <= 255
  {
    if smpCpus > 0xff then 0xff else smpCpus
  }

  /** The SSDT over what the buffer held before; of the old header only the checksum byte matters, and it is cleared. */
  function Ssdt(header: seq<Byte>, smpCpus: nat): seq<Byte>
    requires |header| == HEADER_LENGTH
  {
    WithHeader(header[9 := 0] + ScopeBytes(AcpiCpus(smpCpus)), Ascii("SSDT"), 1)
  }

  method BuildProcessorSsdt(buf: array<Byte>, smpCpus: nat) returns (length: nat)
    requires HEADER_LENGTH + |ScopeBytes(AcpiCpus(smpCpus))| <= buf.Length
    modifies buf
    ensures length == HEADER_LENGTH + |ScopeBytes(AcpiCpus(smpCpus))|
    ensures buf[..] == Splice(old(buf[..]), 0, Ssdt(old(buf[..HEADER_LENGTH]), smpCpus))
  {
    hide Splice, ProcessorBytes, WithHeader, Ascii;
    var cpus := AcpiCpus(smpCpus);
    ghost var before := buf[..];
    ghost var header := before[..HEADER_LENGTH];
    buf[9] := 0;
    ghost var base := before[9 := 0];
    assert buf[..] == base;
    var p;
    ghost var done := ScopeBytes(cpus);
    p := EmitScope(buf, cpus);
    PrefixOfSplice(base, header[9 := 0], done);
    assert buf[..p] == buf[..][..p];
    assert buf[0..p] == buf[..p];
    BuildTableHeader(buf, 0, Ascii("SSDT"), p, 1);
    SpliceOver(before, done, Ssdt(header, smpCpus));
    length := p;
  }

  /** The scope header and the processor objects, behind the table header. */
  method EmitScope(buf: array<Byte>, cpus: nat) returns (p: nat)
    requires cpus <= 255 && HEADER_LENGTH + |ScopeBytes(cpus)| <= buf.Length
    modifies buf
    ensures p == HEADER_LENGTH + |ScopeBytes(cpus)|
    ensures buf[..] == Splice(old(buf[..]), HEADER_LENGTH, ScopeBytes(cpus))
  {
    hide Splice, ProcessorsFrom, Ascii;
    ghost var base := buf[..];
    SpliceNothing(base, HEADER_LENGTH);
    ghost var done := [];
    p := HEADER_LENGTH;
    p, done := Emit(buf, base, HEADER_LENGTH, p, done, [0x10]);
    var length := 13 * cpus + 4;
    if length <= 0x3e {
      p, done := Emit(buf, base, HEADER_LENGTH, p, done, [length + 1]);
    } else {
      p, done := Emit(buf, base, HEADER_LENGTH, p, done, [0x40 + (length + 2) % 16, (length + 2) / 16]);
    }
    assert done == [0x10] + ScopeLengthBytes(cpus);
    hide ScopeLengthBytes;
    p, done := Emit(buf, base, HEADER_LENGTH, p, done, Ascii("_PR_"));
    p, done := EmitProcessors(buf, base, p, done, cpus);
  }

  method EmitProcessors(buf: array<Byte>, ghost base: seq<Byte>, start: nat, ghost before: seq<Byte>, cpus: nat)
    returns (p: nat, ghost done: seq<Byte>)
    requires cpus <= 255 && start == HEADER_LENGTH + |before| && start + 13 * cpus <= buf.Length == |base|
    requires buf[..] == Splice(base, HEADER_LENGTH, before)
    modifies buf
    ensures done == before + ProcessorsFrom(0, cpus) && p == HEADER_LENGTH + |done|
    ensures buf[..] == Splice(base, HEADER_LENGTH, done)
  {
    hide Splice, ProcessorBytes;
    p, done := start, before;
    var i := 0;
    while i < cpus
      invariant 0 <= i <= cpus && p == HEADER_LENGTH + |done| == start + 13 * i
      invariant done + ProcessorsFrom(i, cpus) == before + ProcessorsFrom(0, cpus)
      invariant buf[..] == Splice(base, HEADER_LENGTH, done)
    {
      assert done + ProcessorsFrom(i, cpus) == (done + ProcessorBytes(i)) + ProcessorsFrom(i + 1, cpus);
      p, done := Emit(buf, base, HEADER_LENGTH, p, done, ProcessorBytes(i));
      i := i + 1;
    }
  }

  /** The finished table replaces the header and the bytes already done. */
  lemma SpliceOver(before: seq<Byte>, done: seq<Byte>, table: seq<Byte>)
    requires HEADER_LENGTH + |done| == |table| <= |before|
    ensures Splice(Splice(before[9 := 0], HEADER_LENGTH, done), 0, table) == Splice(before, 0, table)
  {
  }

  lemma PrefixOfSplice(base: seq<Byte>, header: seq<Byte>, done: seq<Byte>)
    requires HEADER_LENGTH + |done| <= |base| && header == base[..HEADER_LENGTH]
    ensures Splice(base, HEADER_LENGTH, done)[..HEADER_LENGTH + |done|] == header + done
  {
  }

  // ---------- a decoder for the definition block, section 20.2 of the ACPI Specification ----------

  datatype PkgLength = PkgLength(length: nat, bytes: nat)

  /** Section 20.2.4: bits 7-6 of the lead byte count the bytes that follow; the length includes its own bytes. */
  function DecodePkgLength(s: seq<Byte>): Option<PkgLength> {
    if s == [] then None
    else
      var lead: nat, follow: nat := s[0], s[0] / 64;
      if |s| < 1 + follow then None
      else if follow == 0 then Some(PkgLength(lead % 64, 1))
      else if (lead / 16) % 4 != 0 then None
      else
        var b1: nat := s[1];
        var b2: nat := if 2 <= follow then s[2] else 0;
        var b3: nat := if 3 <= follow then s[3] else 0;
        Some(PkgLength(lead % 16 + 0x10 * b1 + 0x1000 * b2 + 0x10_0000 * b3, 1 + follow))
  }

  datatype Processor = Processor(name: seq<Byte>, id: nat, blockAddress: nat, blockLength: nat)

  /** Processor objects with nothing nested in them, to the end of the bytes. */
  function DecodeProcessors(s: seq<Byte>): Option<seq<Processor>>
    decreases |s|
  {
    if s == [] then Some([])
    else if |s| < 2 || s[0] != 0x5b || s[1] != 0x83 then None
    else
      match DecodePkgLength(s[2..])
      case None => None
      case Some(p) =>
        if p.length != p.bytes + 10 || |s| < 2 + p.length then None
        else
          var body := s[2 + p.bytes..2 + p.length];
          match DecodeProcessors(s[2 + p.length..])
          case None => None
          case Some(rest) => Some([Processor(body[..4], body[4], Read32(body, 5), body[9])] + rest)
  }

  datatype Scope = Scope(name: seq<Byte>, processors: seq<Processor>)

  /** One scope that is the whole of the block. */
  function DecodeScope(s: seq<Byte>): Option<Scope> {
    if s == [] || s[0] != 0x10 then None
    else
      match DecodePkgLength(s[1..])
      case None => None
      case Some(p) =>
        if 1 + p.length != |s| || p.length < p.bytes then None else DecodeContents(s[1 + p.bytes..])
  }

  /** A name segment, then the objects. */
  function DecodeContents(body: seq<Byte>): Option<Scope> {
    if |body| < 4 then None
    else
      match DecodeProcessors(body[4..])
      case None => None
      case Some(processors) => Some(Scope(body[..4], processors))
  }

  // ---------- what the SSDT says ----------

  function Processors(i: nat, n: nat): (r: seq<Processor>)
    requires i <= n <= 255
    ensures |r| == n - i
    ensures forall k :: 0 <= k < |r| ==> r[k] == Processor(CpuName(i + k), i + k, 0xb010, 6)
    decreases n - i
  {
    if i == n then [] else [Processor(CpuName(i), i, 0xb010, 6)] + Processors(i + 1, n)
  }

  lemma OneProcessor(i: nat, rest: seq<Byte>, more: seq<Processor>)
    requires i < 255 && DecodeProcessors(rest) == Some(more)
    ensures DecodeProcessors(ProcessorBytes(i) + rest) == Some([Processor(CpuName(i), i, 0xb010, 6)] + more)
  {
    var s := ProcessorBytes(i) + rest;
    assert |CpuName(i)| == 4;
    assert s[2..][0] == 0x0b;
    assert DecodePkgLength(s[2..]) == Some(PkgLength(11, 1));
    var body := s[3..13];
    assert body[..4] == CpuName(i) && body[4] == i && body[9] == 6 && Read32(body, 5) == 0xb010;
    assert s[13..] == rest;
  }

  lemma {:induction false} ProcessorsDecode(i: nat, n: nat)
    requires i <= n <= 255
    ensures DecodeProcessors(ProcessorsFrom(i, n)) == Some(Processors(i, n))
    decreases n - i
  {
    hide ProcessorBytes, CpuName;
    if i < n {
      ProcessorsDecode(i + 1, n);
      OneProcessor(i, ProcessorsFrom(i + 1, n), Processors(i + 1, n));
    }
  }

  lemma ScopeLengthDecodes(n: nat, rest: seq<Byte>)
    requires n <= 255
    ensures DecodePkgLength(ScopeLengthBytes(n) + rest) ==
            Some(PkgLength(|ScopeLengthBytes(n)| + ContentLength(n), |ScopeLengthBytes(n)|))
  {
    var s := ScopeLengthBytes(n) + rest;
    var total := ContentLength(n) + 2;
    if n > 4 {
      assert s[0] == 0x40 + total % 16 && s[1] == total / 16;
      assert s[0] / 64 == 1 && (s[0] / 16) % 4 == 0 && s[0] % 16 == total % 16;
    }
  }

  lemma ContentsDecode(n: nat)
    requires n <= 255
    ensures DecodeContents(Ascii("_PR_") + ProcessorsFrom(0, n)) == Some(Scope(Ascii("_PR_"), Processors(0, n)))
  {
    hide ProcessorsFrom, Processors, DecodeProcessors, Ascii;
    ProcessorsDecode(0, n);
    var body := Ascii("_PR_") + ProcessorsFrom(0, n);
    assert body[..4] == Ascii("_PR_") && body[4..] == ProcessorsFrom(0, n);
  }

  /** The definition block holds exactly the processors 0..n-1, in order, in the scope _PR_. */
  lemma ScopeDecodes(n: nat)
    requires n <= 255
    ensures DecodeScope(ScopeBytes(n)) == Some(Scope(Ascii("_PR_"), Processors(0, n)))
  {
    hide ScopeLengthBytes, ProcessorsFrom, Processors, DecodeContents, DecodePkgLength, Ascii;
    var contents := Ascii("_PR_") + ProcessorsFrom(0, n);
    var s := [0x10] + (ScopeLengthBytes(n) + contents);
    assert ScopeBytes(n) == s;
    hide ScopeBytes;
    ScopeLengthDecodes(n, contents);
    ContentsDecode(n);
    assert s[1..] == ScopeLengthBytes(n) + contents;
    assert s[1 + |ScopeLengthBytes(n)|..] == contents;
  }

  /** Names are valid name segments and differ from processor to processor. */
  lemma CpuNamesDiffer(i: nat, j: nat)
    requires i < 255 && j < 255 && CpuName(i) == CpuName(j)
    ensures i == j
  {
    var a, b := CpuName(i), CpuName(j);
    assert a[2] == b[2] && a[3] == b[3];
    assert i / 16 == j / 16 && i % 16 == j % 16;
  }

  predicate NameChar(b: Byte) {
    'A' as nat <= b <= 'Z' as nat || b == '_' as nat || '0' as nat <= b <= '9' as nat
  }

  lemma CpuNamesAreSegments(i: nat)
    requires i < 255
    ensures |CpuName(i)| == 4 && CpuName(i)[0] == 'C' as nat && forall k :: 0 <= k < 4 ==> NameChar(CpuName(i)[k])
  {
  }

  lemma SsdtParts(header: seq<Byte>, smpCpus: nat)
    requires |header| == HEADER_LENGTH
    ensures var t, scope := Ssdt(header, smpCpus), ScopeBytes(AcpiCpus(smpCpus));
      && |t| == HEADER_LENGTH + |scope| && t[HEADER_LENGTH..] == scope && |t| < 0x1_0000
      && t[..9] == HeaderFront(Ascii("SSDT"), |t|, 1)
  {
    var n := AcpiCpus(smpCpus);
    assert |ScopeBytes(n)| <= 0x1000;
    hide ScopeBytes, Ascii, WithHeader;
    assert (header[9 := 0] + ScopeBytes(n))[HEADER_LENGTH..] == ScopeBytes(n);
  }

  /** The SSDT as a whole: signature, recorded length, zero sum, and the processors it declares. */
  lemma SsdtIsWellFormed(header: seq<Byte>, smpCpus: nat)
    requires |header| == HEADER_LENGTH
    ensures var t := Ssdt(header, smpCpus);
      && HEADER_LENGTH <= |t| && t[..4] == Ascii("SSDT") && Read32(t, 4) == |t|
      && SumsToZero(t)
      && DecodeScope(t[HEADER_LENGTH..]) == Some(Scope(Ascii("_PR_"), Processors(0, AcpiCpus(smpCpus))))
  {
    hide ScopeBytes, WithHeader, DecodeScope, Processors, Ascii, Read32, HeaderFront, SumsToZero;
    SsdtParts(header, smpCpus);
    HeaderReads(Ssdt(header, smpCpus), Ascii("SSDT"), 1);
    ScopeDecodes(AcpiCpus(smpCpus));
    HeaderMakesSumZero(header[9 := 0] + ScopeBytes(AcpiCpus(smpCpus)), Ascii("SSDT"), 1);
  }

  lemma HeaderReads(t: seq<Byte>, sig: seq<Byte>, rev: Byte)
    requires HEADER_LENGTH <= |t| < TWO_32 && |sig| == 4 && t[..9] == HeaderFront(sig, |t|, rev)
    ensures t[..4] == sig && Read32(t, 4) == |t|
  {
    hide Le32;
    ReadLe32(|t|);
    var front := sig + Le32(|t|) + [rev];
    assert front[..4] == sig && front[4..8] == Le32(|t|);
    assert t[..4] == t[..9][..4] && t[4..8] == t[..9][4..8];
    assert Read32(t, 4) == Read32(t[4..8], 0);
  }

  /** The header as it is read, section 5.2.6 of the ACPI Specification, whatever the table. */
  lemma HeaderAsRead(t: seq<Byte>, sig: seq<Byte>, rev: Byte)
    requires HEADER_LENGTH <= |t| < TWO_32 && |sig| == 4
    ensures var r := WithHeader(t, sig, rev);
      && |r| == |t| && r[..4] == sig && Read32(r, 4) == |r| && r[8] == rev
      && r[10..16] == Ascii("BOCHS ") && r[16..20] == Ascii("BXPC") && r[20..24] == sig && Read32(r, 24) == 1
      && r[28..32] == Ascii("BXPC") && Read32(r, 32) == 1
  {
    var r := WithHeader(t, sig, rev);
    hide WithHeader, Le32, Ascii, Read32, HeaderFront;
    HeaderReads(r, sig, rev);
    assert r[8] == r[..9][8] == rev by { FrontEnd(sig, |t|, rev); }
    var back := HeaderBack(sig);
    BackParts(sig);
    hide HeaderBack;
    assert r[10..36] == back;
    forall i, j | 0 <= i <= j <= 26 ensures r[10 + i..10 + j] == back[i..j] {
      assert r[10..36][i..j] == r[10 + i..10 + j];
    }
    assert r[10 + 0..10 + 6] == back[0..6] && r[10 + 6..10 + 10] == back[6..10] && r[10 + 10..10 + 14] == back[10..14];
    assert r[10 + 14..10 + 18] == back[14..18] && r[10 + 18..10 + 22] == back[18..22];
    assert r[10 + 22..10 + 26] == back[22..26];
    ReadLe32(1);
    SliceRead(r, 24);
    SliceRead(r, 32);
  }

  lemma FrontEnd(sig: seq<Byte>, len: nat, rev: Byte)
    requires |sig| == 4
    ensures |HeaderFront(sig, len, rev)| == 9 && HeaderFront(sig, len, rev)[8] == rev
  {
    hide Le32;
  }

  lemma BackParts(sig: seq<Byte>)
    requires |sig| == 4
    ensures var b := HeaderBack(sig);
      && |b| == 26 && b[0..6] == Ascii("BOCHS ") && b[6..10] == Ascii("BXPC") && b[10..14] == sig
      && b[14..18] == Le32(1) && b[18..22] == Ascii("BXPC") && b[22..26] == Le32(1)
  {
    hide Ascii, Le32;
  }

  lemma SliceRead(r: seq<Byte>, k: nat)
    requires k + 4 <= |r|
    ensures Read32(r, k) == Read32(r[k..k + 4], 0)
  {
  }

  /** The number that a processor's name ends in, in hexadecimal; U stands for no digit. */
  function NumberOf(name: seq<Byte>): nat
    requires |name| == 4
  {
    16 * HexValue(name[2]) + HexValue(name[3])
  }

  function HexValue(b: Byte): nat {
    if '0' as nat <= b <= '9' as nat then b - '0' as nat
    else if 'A' as nat <= b <= 'F' as nat then b - 'A' as nat + 10
    else 0
  }

  /** Processor i is called CPU and its digit, or CP and its two digits. */
  lemma CpuNameIsItsNumber(i: nat)
    requires i < 255
    ensures var name := CpuName(i);
      name[..2] == Ascii("CP") && NumberOf(name) == i && (name[2] == 'U' as nat <==> i < 16)
  {
    assert CpuName(i)[0] == 'C' as nat && CpuName(i)[1] == 'P' as nat;
  }
}
