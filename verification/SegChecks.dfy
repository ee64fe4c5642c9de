/** Segment limit and permission checks of access.cc, and the permission bits they cache. */
module SegChecks {
  import opened Common

  const VALID_CACHE: bv8 := 1
  const ACCESS_ROK: bv8 := 2
  const ACCESS_WOK: bv8 := 4

  datatype Kind = Read | Write | Execute

  /** A segment register's descriptor cache: validity and permission bits, present, type, big, scaled limit. */
  datatype Segment = Segment(valid: bv8, present: bool, typ: nat, big: bool, limit: nat)

  predicate WellFormed(s: Segment) {
    s.typ < 16 && s.limit < TWO_32
  }

  // ---------- what a segment permits ----------

  predicate ExpandDown(typ: nat) {
    4 <= typ <= 7
  }

  /** Rights by descriptor type, as the checks take them. */
  predicate Right(kind: Kind, typ: nat) {
    match kind
    case Write => typ in {2, 3, 6, 7}
    case Read => typ < 8 || typ in {10, 11, 14, 15}
    case Execute => typ < 16
  }

  /** The offsets that belong to the segment. */
  predicate Inside(s: Segment, b: nat) {
    if ExpandDown(s.typ) then s.limit < b <= (if s.big then 0xffff_ffff else 0xffff) else b <= s.limit
  }

  /** Bit n of the type field. */
  predicate TypeBit(typ: nat, n: nat)
    requires n < 4
  {
    match n
    case 0 => typ % 2 == 1
    case 1 => typ / 2 % 2 == 1
    case 2 => typ / 4 % 2 == 1
    case 3 => typ / 8 % 2 == 1
  }

  /**
   By section 3.4.5.1 of the Intel 64 and IA-32 Architectures Software Developer's Manual, volume 3A: bit 3 is set for
   code, bit 2 for data that expand down, bit 1 for data that can be written and code that can be read.  The check of
   execution leaves it to the load of CS to refuse data.
   */
  lemma RightsByType(typ: nat)
    requires typ < 16
    ensures Right(Write, typ) <==> !TypeBit(typ, 3) && TypeBit(typ, 1)
    ensures Right(Read, typ) <==> !TypeBit(typ, 3) || TypeBit(typ, 1)
    ensures Right(Execute, typ)
    ensures ExpandDown(typ) <==> !TypeBit(typ, 3) && TypeBit(typ, 2)
  {
  }

  /** A segment that expands down has exactly those offsets below 64KB, or 4GB, that one that expands up does not. */
  lemma DownIsTheRest(up: Segment, down: Segment, b: nat)
    requires !ExpandDown(up.typ) && ExpandDown(down.typ) && up.limit == down.limit
    requires b < (if down.big then 0x1_0000_0000 else 0x1_0000)
    ensures Inside(down, b) <==> !Inside(up, b)
    ensures Inside(up, b) <==> b < up.limit + 1
  {
  }

  /** The bytes an access is about; a length of 0 is decremented to 32 bits of ones. */
  function Bytes(length: nat): nat {
    if length == 0 then TWO_32 else length
  }

  /** The access is allowed: a usable segment, the right, and every byte inside. */
  ghost predicate Permits(kind: Kind, s: Segment, offset: nat, length: nat) {
    && s.valid != 0 && s.present && Right(kind, s.typ)
    && forall b: nat :: offset <= b < offset + Bytes(length) ==> Inside(s, b)
  }

  /** The bytes are inside exactly if the first and the last one are. */
  lemma EndsDecide(s: Segment, offset: nat, length: nat)
    ensures (forall b: nat :: offset <= b < offset + Bytes(length) ==> Inside(s, b)) <==>
            Inside(s, offset) && Inside(s, offset + Bytes(length) - 1)
  {
    var last := offset + Bytes(length) - 1;
    assert offset <= last;
    if forall b: nat :: offset <= b < offset + Bytes(length) ==> Inside(s, b) {
      assert Inside(s, offset) && Inside(s, last);
    }
  }

  // ---------- the wrapping tests ----------

  /** The test of a normal segment, in 32-bit arithmetic, on the decremented length. */
  predicate BeyondLimit(limit: nat, offset: nat, length: nat) {
    offset > U32(limit - length) || length > limit
  }

  predicate BeyondDown(limit: nat, upper: nat, offset: nat, length: nat) {
    offset <= limit || offset > upper || U32(upper - offset) < length
  }

  /** The wrapping tests mean what they should for every offset, limit and length. */
  lemma TestsAreExact(s: Segment, offset: nat, length: nat)
    requires WellFormed(s) && offset < TWO_32 && length < TWO_32
    ensures var l := U32(length - 1); var upper := if s.big then 0xffff_ffff else 0xffff;
      (forall b: nat :: offset <= b < offset + Bytes(length) ==> Inside(s, b)) <==>
      if ExpandDown(s.typ) then !BeyondDown(s.limit, upper, offset, l) else !BeyondLimit(s.limit, offset, l)
  {
    EndsDecide(s, offset, length);
    assert U32(length - 1) == Bytes(length) - 1;
  }

  // ---------- the cached bits ----------

  function Mask(kind: Kind): bv8 {
    if kind == Write then ACCESS_WOK else ACCESS_ROK
  }

  predicate Has(s: Segment, kind: Kind) {
    s.valid & Mask(kind) != 0
  }

  /** A successful check of a normal segment with room for 32 bytes marks the permission. */
  predicate Marks(kind: Kind, s: Segment) {
    s.limit >= 31 && match kind
                     case Write => s.typ in {2, 3}
                     case Read => s.typ in {0, 1, 2, 3, 10, 11, 14, 15}
                     case Execute => s.typ in {0, 1, 2, 3, 10, 11, 14, 15}
  }

  /** As wide as can be: a bit is set by every check that passes, where offsets start at 0 and there are 32 of them. */
  lemma MarksAreWide(kind: Kind, s: Segment)
    requires s.typ < 16
    ensures Marks(kind, s) <==>
            32 <= s.limit + 1 && !ExpandDown(s.typ) && Right(if kind == Write then Write else Read, s.typ)
  {
  }

  function Marked(kind: Kind, s: Segment): Segment {
    s.(valid := s.valid | (if kind == Write then ACCESS_ROK | ACCESS_WOK else ACCESS_ROK))
  }

  /** The segment after a check. */
  ghost function Checked(kind: Kind, s: Segment, offset: nat, length: nat): Segment {
    if Permits(kind, s, offset, length) && Marks(kind, s) then Marked(kind, s) else s
  }

  /** The bits are only set where a normal, present segment of at least 32 bytes gives the right. */
  predicate CacheSound(s: Segment) {
    && WellFormed(s)
    && (Has(s, Read) ==> s.present && Marks(Read, s))
    && (Has(s, Write) ==> s.present && Marks(Write, s))
  }

  lemma LoadedIsSound(s: Segment)
    requires WellFormed(s) && (s.valid == 0 || s.valid == VALID_CACHE)
    ensures CacheSound(s)
  {
  }

  /** Checks keep the bits sound and change nothing that later checks go by. */
  lemma CheckKeeps(kind: Kind, s: Segment, offset: nat, length: nat)
    requires CacheSound(s)
    ensures var t := Checked(kind, s, offset, length);
      CacheSound(t) && (forall k, o: nat, l: nat :: Permits(k, t, o, l) <==> Permits(k, s, o, l))
  {
    var t := Checked(kind, s, offset, length);
    assert t == s.(valid := t.valid) && (t.valid == 0 <==> s.valid == 0);
    MarkedBits(kind, s);
    forall b: nat ensures Inside(t, b) == Inside(s, b) {
    }
  }

  lemma MarkedBits(kind: Kind, s: Segment)
    ensures Has(Marked(kind, s), Read)
    ensures Has(Marked(kind, s), Write) <==> kind == Write || Has(s, Write)
  {
  }

  // ---------- the simple test behind a cached bit ----------

  /** offset <= limit_scaled - (len - 1), in 32-bit arithmetic. */
  predicate SimpleTest(s: Segment, offset: nat, length: nat) {
    offset <= U32(s.limit - (length - 1))
  }

  /** On a normal segment the simple test is the limit check for all offsets exactly if it does not wrap. */
  lemma SimpleTestNeedsRoom(s: Segment, length: nat)
    requires WellFormed(s) && !ExpandDown(s.typ) && 1 <= length < TWO_32
    ensures s.limit >= length - 1 <==>
            forall offset: nat :: offset < TWO_32 ==>
              (SimpleTest(s, offset, length) <==> forall b: nat ::
                 offset <= b < offset + Bytes(length) ==> Inside(s, b))
  {
    forall offset: nat | offset < TWO_32 && s.limit >= length - 1
      ensures SimpleTest(s, offset, length) <==> forall b: nat :: offset <= b < offset + Bytes(length) ==> Inside(s, b)
    {
      EndsDecide(s, offset, length);
    }
    if s.limit < length - 1 {
      EndsDecide(s, 0, length);
      assert SimpleTest(s, 0, length) && !Inside(s, 0 + Bytes(length) - 1);
    }
  }

  /** Behind a cached bit the simple test cannot wrap for up to 32 bytes, and it agrees with the full check. */
  lemma CachedBitSuffices(kind: Kind, s: Segment, offset: nat, length: nat)
    requires CacheSound(s) && Has(s, kind) && offset < TWO_32 && 1 <= length <= 32
    ensures 0 <= s.limit - (length - 1)
    ensures SimpleTest(s, offset, length) <==> Permits(kind, s, offset, length)
  {
    SimpleTestNeedsRoom(s, length);
    assert s.valid != 0;
  }

  /** What a bit has to stand for: also a bit that was preset together with the descriptor. */
  predicate Deserved(kind: Kind, s: Segment) {
    s.present && s.limit >= 31 && !ExpandDown(s.typ) && Right(kind, s.typ)
  }

  /** The simple test agrees with the full check for all offsets and up to 32 bytes exactly if the bit is deserved. */
  lemma BitIsDeserved(kind: Kind, s: Segment)
    requires WellFormed(s) && Has(s, kind)
    ensures Deserved(kind, s) <==>
            forall offset: nat, length: nat :: offset < TWO_32 && 1 <= length <= 32 ==>
              (SimpleTest(s, offset, length) <==> Permits(kind, s, offset, length))
  {
    assert s.valid != 0;
    forall offset: nat, length: nat | Deserved(kind, s) && offset < TWO_32 && 1 <= length <= 32
      ensures SimpleTest(s, offset, length) <==> Permits(kind, s, offset, length)
    {
      SimpleTestNeedsRoom(s, length);
    }
    if !Deserved(kind, s) {
      Undeserved(kind, s);
    }
  }

  /** An access that the simple test lets pass and the full check does not: the first byte, or 32 bytes from it. */
  lemma Undeserved(kind: Kind, s: Segment)
    requires WellFormed(s) && !Deserved(kind, s)
    ensures (SimpleTest(s, 0, 1) && !Permits(kind, s, 0, 1)) || (SimpleTest(s, 0, 32) && !Permits(kind, s, 0, 32))
  {
    if s.present && Right(kind, s.typ) {
      if ExpandDown(s.typ) {
        assert !Inside(s, 0);
      } else {
        assert !Inside(s, 31);
      }
    }
  }

  // ---------- runs ----------

  datatype Access = Access(kind: Kind, offset: nat, length: nat)

  predicate Usual(a: Access) {
    a.offset < TWO_32 && 1 <= a.length <= 32
  }

  /** An access: the simple test behind a cached bit, and the full check without one. */
  ghost function Attempt(s: Segment, a: Access): (bool, Segment) {
    if Has(s, a.kind) then (SimpleTest(s, a.offset, a.length), s)
    else (Permits(a.kind, s, a.offset, a.length), Checked(a.kind, s, a.offset, a.length))
  }

  ghost function Outcomes(s: Segment, accesses: seq<Access>): seq<bool>
    decreases accesses
  {
    if accesses == [] then []
    else
      var (ok, next) := Attempt(s, accesses[0]);
      [ok] + Outcomes(next, accesses[1..])
  }

  /** Caching cannot be seen: every access of a run succeeds exactly if the segment, as it was loaded, permits it. */
  lemma {:induction false} CachingIsTransparent(s: Segment, accesses: seq<Access>)
    requires CacheSound(s)
    requires forall i :: 0 <= i < |accesses| ==> Usual(accesses[i])
    ensures var r := Outcomes(s, accesses);
      && |r| == |accesses|
      && forall i :: 0 <= i < |accesses| ==>
           (r[i] <==> Permits(accesses[i].kind, s, accesses[i].offset, accesses[i].length))
    decreases accesses
  {
    hide CacheSound, Permits, Has, SimpleTest;
    if accesses != [] {
      var a := accesses[0];
      assert Usual(a);
      var (ok, next) := Attempt(s, a);
      if Has(s, a.kind) {
        CachedBitSuffices(a.kind, s, a.offset, a.length);
      } else {
        CheckKeeps(a.kind, s, a.offset, a.length);
      }
      var rest := accesses[1..];
      assert forall i :: 0 <= i < |rest| ==> rest[i] == accesses[i + 1];
      CachingIsTransparent(next, rest);
      assert forall i :: 0 < i < |accesses| ==> accesses[i] == rest[i - 1];
    }
  }

  // ---------- bx_segment_reg_t ----------

  class SegmentReg {
    var valid: bv8
    var present: bool
    var typ: nat
    var big: bool
    var limit: nat

    function View(): Segment
      reads this
    {
      Segment(valid, present, typ, big, limit)
    }

    constructor (typ: nat, present: bool, big: bool, limit: nat)
      requires typ < 16 && limit < TWO_32
      ensures View() == Segment(VALID_CACHE, present, typ, big, limit) && CacheSound(View())
    {
      this.valid, this.typ, this.present, this.big, this.limit := VALID_CACHE, typ, present, big, limit;
    }

    /** write_virtual_checks */
    method WriteVirtualChecks(offset: nat, length: nat) returns (ok: bool)
      requires WellFormed(View()) && offset < TWO_32 && length < TWO_32
      modifies this`valid
      ensures ok <==> Permits(Write, old(View()), offset, length)
      ensures View() == Checked(Write, old(View()), offset, length)
    {
      hide Permits, Inside, U32, CacheSound;
      PermitsMeaning(Write, View(), offset, length);
      if valid == 0 || !present {
        return false;
      }
      var len := U32(length - 1);
      if typ in {2, 3} {
        if offset > U32(limit - len) || len > limit {
          return false;
        }
        if limit >= 31 {
          valid := valid | (ACCESS_ROK | ACCESS_WOK);
        }
      } else if typ in {6, 7} {
        var upper := if big then 0xffff_ffff else 0xffff;
        if offset <= limit || offset > upper || upper - offset < len {
          return false;
        }
      } else {
        return false;
      }
      return true;
    }

    /** read_virtual_checks */
    method ReadVirtualChecks(offset: nat, length: nat) returns (ok: bool)
      requires WellFormed(View()) && offset < TWO_32 && length < TWO_32
      modifies this`valid
      ensures ok <==> Permits(Read, old(View()), offset, length)
      ensures View() == Checked(Read, old(View()), offset, length)
    {
      hide Permits, Inside, U32, CacheSound;
      PermitsMeaning(Read, View(), offset, length);
      if valid == 0 || !present {
        return false;
      }
      var len := U32(length - 1);
      if typ in {0, 1, 2, 3, 10, 11, 14, 15} {
        if offset > U32(limit - len) || len > limit {
          return false;
        }
        if limit >= 31 {
          valid := valid | ACCESS_ROK;
        }
      } else if typ in {4, 5, 6, 7} {
        var upper := if big then 0xffff_ffff else 0xffff;
        if offset <= limit || offset > upper || upper - offset < len {
          return false;
        }
      } else {
        return false;
      }
      return true;
    }

    /** execute_virtual_checks */
    method ExecuteVirtualChecks(offset: nat, length: nat) returns (ok: bool)
      requires WellFormed(View()) && offset < TWO_32 && length < TWO_32
      modifies this`valid
      ensures ok <==> Permits(Execute, old(View()), offset, length)
      ensures View() == Checked(Execute, old(View()), offset, length)
    {
      hide Permits, Inside, U32, CacheSound;
      PermitsMeaning(Execute, View(), offset, length);
      if valid == 0 || !present {
        return false;
      }
      var len := U32(length - 1);
      if typ in {0, 1, 2, 3, 10, 11, 14, 15} {
        if offset > U32(limit - len) || len > limit {
          return false;
        }
        if limit >= 31 {
          valid := valid | ACCESS_ROK;
        }
      } else if typ in {8, 9, 12, 13} {
        if offset > U32(limit - len) || len > limit {
          return false;
        }
      } else {
        var upper := if big then 0xffff_ffff else 0xffff;
        if offset <= limit || offset > upper || upper - offset < len {
          return false;
        }
      }
      return true;
    }

    /** An access as the callers of the checks make it. */
    method AttemptAccess(a: Access) returns (ok: bool)
      requires WellFormed(View()) && Usual(a)
      modifies this`valid
      ensures (ok, View()) == Attempt(old(View()), a)
    {
      hide Permits;
      if valid & Mask(a.kind) != 0 {
        return a.offset <= U32(limit - (a.length - 1));
      }
      match a.kind {
        case Read => ok := ReadVirtualChecks(a.offset, a.length);
        case Write => ok := WriteVirtualChecks(a.offset, a.length);
        case Execute => ok := ExecuteVirtualChecks(a.offset, a.length);
      }
    }
  }

  lemma PermitsMeaning(kind: Kind, s: Segment, offset: nat, length: nat)
    requires WellFormed(s) && offset < TWO_32 && length < TWO_32
    ensures var l := U32(length - 1); var upper := if s.big then 0xffff_ffff else 0xffff;
      Permits(kind, s, offset, length) <==>
      && s.valid != 0 && s.present && Right(kind, s.typ)
      && if ExpandDown(s.typ) then !BeyondDown(s.limit, upper, offset, l) else !BeyondLimit(s.limit, offset, l)
  {
    TestsAreExact(s, offset, length);
  }
}
