/** The checksum patcher of biossums.c: five kinds of structures in a 64KB image, then the image itself. */
module BiosSums {
  import opened Common
  import opened Firmware

  const SIZE := 0x1_0000
  const MAX_OFFSET := 0xffff

  type Image = d: seq<Byte> | |d| == SIZE witness seq(SIZE, _ => 0)

  datatype Kind = Pci32 | Mp | Pcmp | Pir | Pnp

  function Signature(kind: Kind): (r: seq<Byte>)
    ensures |r| == 4
  {
    match kind
    case Pci32 => Ascii("_32_")
    case Mp => Ascii("_MP_")
    case Pcmp => Ascii("PCMP")
    case Pir => Ascii("$PIR")
    case Pnp => Ascii("$PnP")
  }

  /** Offset of the checksum byte. */
  function ChecksumAt(kind: Kind): (r: nat)
    ensures 4 <= r % 16
  {
    match kind
    case Pci32 => 10
    case Mp => 10
    case Pcmp => 7
    case Pir => 31
    case Pnp => 8
  }

  function MinHeader(kind: Kind): nat {
    match kind
    case Pci32 => 16
    case Mp => 16
    case Pcmp => 42
    case Pir => 32
    case Pnp => 32
  }

  /** The length the structure states: in units of 16 bytes, as a word or as a byte. */
  function Length(kind: Kind, d: Image, h: nat): nat
    requires h + MinHeader(kind) <= MAX_OFFSET
  {
    match kind
    case Pci32 => d[h + 9] as nat * 16
    case Mp => d[h + 8] as nat * 16
    case Pcmp => d[h + 4] as nat + d[h + 5] as nat * 256
    case Pir => d[h + 6] as nat + d[h + 7] as nat * 256
    case Pnp => d[h + 5]
  }

  /** What the tool demands of a structure; it exits without writing when something is missing. */
  predicate Checks(kind: Kind, d: Image, h: nat) {
    && h + MinHeader(kind) <= MAX_OFFSET
    && h + Length(kind, d, h) <= MAX_OFFSET
    && (kind == Pcmp ==> d[h + 40] == d[h + 41] == d[h + 42] == 0)
  }

  predicate SignedAt(kind: Kind, d: Image, h: nat)
    requires h + 4 <= SIZE
  {
    d[h..h + 4] == Signature(kind)
  }

  predicate Found(kind: Kind, d: Image, h: nat) {
    0x10 <= h <= 0xfff0 && h % 16 == 0 && SignedAt(kind, d, h)
  }

  /** The offsets a scan meets from 16 * k on, in the order it meets them. */
  function Hits(kind: Kind, d: Image, k: nat): seq<nat>
    decreases 0x1000 - k
  {
    if 0x1000 <= k then []
    else (if SignedAt(kind, d, 16 * k) then [16 * k] else []) + Hits(kind, d, k + 1)
  }

  /** The scan meets every signature on a 16-byte boundary except one at 0, once and in ascending order. */
  lemma ScanMeets(kind: Kind, d: Image, h: nat)
    ensures h in Hits(kind, d, 1) <==> Found(kind, d, h)
    ensures forall i, j :: 0 <= i < j < |Hits(kind, d, 1)| ==> Hits(kind, d, 1)[i] < Hits(kind, d, 1)[j]
  {
    hide SignedAt;
    HitsAscend(kind, d, 1);
    HitsFrom(kind, d, 1, h);
  }

  lemma {:induction false} HitsAscend(kind: Kind, d: Image, k: nat)
    ensures forall h :: h in Hits(kind, d, k) ==> 16 * k <= h
    ensures forall i, j :: 0 <= i < j < |Hits(kind, d, k)| ==> Hits(kind, d, k)[i] < Hits(kind, d, k)[j]
    decreases 0x1000 - k
  {
    hide SignedAt;
    if k < 0x1000 {
      HitsAscend(kind, d, k + 1);
      var rest := Hits(kind, d, k + 1);
      assert forall j :: 0 <= j < |rest| ==> rest[j] in rest;
    }
  }

  lemma {:induction false} HitsFrom(kind: Kind, d: Image, k: nat, h: nat)
    ensures h in Hits(kind, d, k) <==> 16 * k <= h <= 0xfff0 && h % 16 == 0 && SignedAt(kind, d, h)
    decreases 0x1000 - k
  {
    hide SignedAt;
    if k < 0x1000 {
      HitsFrom(kind, d, k + 1, h);
    }
  }

  /** The bytes of a structure. */
  function Body(kind: Kind, d: Image, h: nat): seq<Byte>
    requires Checks(kind, d, h)
  {
    d[h..h + Length(kind, d, h)]
  }

  /** The value of the checksum byte at offset ck: minus the sum of all bytes but itself. */
  function Needed(body: seq<Byte>, ck: nat): Byte {
    Negated(Sum(if ck < |body| then body[ck := 0] else body))
  }

  function Patched(kind: Kind, d: Image, h: nat): Image
    requires Checks(kind, d, h)
  {
    d[h + ChecksumAt(kind) := Needed(Body(kind, d, h), ChecksumAt(kind))]
  }

  predicate AllCheck(kind: Kind, d: Image) {
    forall h :: h in Hits(kind, d, 1) ==> Checks(kind, d, h)
  }

  /** A pass over one kind: patched when there is exactly one such structure. */
  function Pass(kind: Kind, d: Image): Option<Image> {
    if !AllCheck(kind, d) then None
    else if |Hits(kind, d, 1)| != 1 then Some(d)
    else Some(Patched(kind, d, Hits(kind, d, 1)[0]))
  }

  /** The last byte makes up for the rest of the image. */
  function Final(d: Image): Image {
    d[MAX_OFFSET := Negated(Sum(d[..MAX_OFFSET]))]
  }

  /** The order of the passes. */
  function Turn(kind: Kind): nat {
    match kind
    case Pci32 => 0
    case Mp => 1
    case Pcmp => 2
    case Pir => 3
    case Pnp => 4
  }

  function KindAt(n: nat): (kind: Kind)
    requires n < 5
    ensures Turn(kind) == n
  {
    if n == 0 then Pci32 else if n == 1 then Mp else if n == 2 then Pcmp else if n == 3 then Pir else Pnp
  }

  function Passes(d: Image, n: nat): Option<Image>
    requires n <= 5
  {
    if n == 0 then Some(d)
    else
      var before := Passes(d, n - 1);
      if before.None? then None else Pass(KindAt(n - 1), before.value)
  }

  /** The image the tool writes back, unless it exits. */
  function Run(d: Image): Option<Image> {
    var p := Passes(d, 5);
    if p.None? then None else Some(Final(p.value))
  }

  // ---------- separate structures ----------

  /** One past the last byte the tool looks at: the fields of the header and all that is summed. */
  function Extent(kind: Kind, d: Image, h: nat): (r: nat)
    requires Checks(kind, d, h)
    ensures ChecksumAt(kind) < r
  {
    var fields := match kind case Pci32 => 11 case Mp => 11 case Pcmp => 43 case Pir => 32 case Pnp => 9;
    if Length(kind, d, h) < fields then fields else Length(kind, d, h)
  }

  predicate Apart(k1: Kind, h1: nat, k2: Kind, h2: nat, d: Image)
    requires Checks(k1, d, h1) && Checks(k2, d, h2)
  {
    h1 + Extent(k1, d, h1) <= h2 || h2 + Extent(k2, d, h2) <= h1
  }

  /** Every structure passes the checks, and no two of them overlap. */
  ghost predicate Separate(d: Image) {
    && (forall k: Kind, h: nat :: Found(k, d, h) ==> Checks(k, d, h))
    && (forall k1: Kind, h1: nat, k2: Kind, h2: nat ::
          Found(k1, d, h1) && Found(k2, d, h2) && (k1, h1) != (k2, h2) ==> Apart(k1, h1, k2, h2, d))
  }

  // ---------- what a store keeps ----------

  /** No checksum byte, nor the last byte of the image, lies where a signature could be. */
  lemma {:induction false} HitsKept(kind: Kind, d: Image, p: nat, b: Byte, k: nat)
    requires p < SIZE && 4 <= p % 16
    ensures Hits(kind, d[p := b], k) == Hits(kind, d, k)
    decreases 0x1000 - k
  {
    hide SignedAt;
    if k < 0x1000 {
      SignatureKept(kind, d, p, b, k);
      HitsKept(kind, d, p, b, k + 1);
    }
  }

  lemma SignatureKept(kind: Kind, d: Image, p: nat, b: Byte, k: nat)
    requires p < SIZE && 4 <= p % 16 && k < 0x1000
    ensures SignedAt(kind, d[p := b], 16 * k) == SignedAt(kind, d, 16 * k)
  {
    assert d[p := b][16 * k..16 * k + 4] == d[16 * k..16 * k + 4];
  }

  lemma FoundKept(kind: Kind, d: Image, p: nat, b: Byte, h: nat)
    requires p < SIZE && 4 <= p % 16
    ensures Found(kind, d[p := b], h) == Found(kind, d, h)
  {
    hide SignedAt;
    if h % 16 == 0 && h <= 0xfff0 {
      SignatureKept(kind, d, p, b, h / 16);
    }
  }

  /** A store outside of what the tool looks at. */
  lemma OutsideKept(kind: Kind, d: Image, h: nat, p: nat, b: Byte)
    requires Found(kind, d, h) && Checks(kind, d, h) && p < SIZE
    requires p < h || h + Extent(kind, d, h) <= p
    ensures var e := d[p := b];
      && Checks(kind, e, h) && Extent(kind, e, h) == Extent(kind, d, h) && Length(kind, e, h) == Length(kind, d, h)
      && Body(kind, e, h) == Body(kind, d, h) && e[h + ChecksumAt(kind)] == d[h + ChecksumAt(kind)]
  {
  }

  /** A store to the structure's own checksum byte. */
  lemma OwnKept(kind: Kind, d: Image, h: nat, b: Byte)
    requires Found(kind, d, h) && Checks(kind, d, h)
    ensures var ck := ChecksumAt(kind); var e := d[h + ck := b];
      && Checks(kind, e, h) && Extent(kind, e, h) == Extent(kind, d, h) && Length(kind, e, h) == Length(kind, d, h)
      && Body(kind, e, h) == if ck < Length(kind, d, h) then Body(kind, d, h)[ck := b] else Body(kind, d, h)
  {
  }

  /** The checksum byte of a structure holds the value it needs. */
  predicate Settled(kind: Kind, d: Image, h: nat) {
    Checks(kind, d, h) && d[h + ChecksumAt(kind)] == Needed(Body(kind, d, h), ChecksumAt(kind))
  }

  /** The value a structure needs does not depend on the value it has. */
  lemma NeededSettles(kind: Kind, d: Image, h: nat)
    requires Found(kind, d, h) && Checks(kind, d, h)
    ensures Settled(kind, Patched(kind, d, h), h)
  {
    hide Sum, Extent, SignedAt;
    var ck := ChecksumAt(kind);
    var body := Body(kind, d, h);
    OwnKept(kind, d, h, Needed(body, ck));
    if ck < |body| {
      assert body[ck := Needed(body, ck)][ck := 0] == body[ck := 0];
    }
  }

  /** A settled structure sums to zero if its length covers the checksum byte. */
  lemma SettledSums(kind: Kind, d: Image, h: nat)
    requires Settled(kind, d, h) && ChecksumAt(kind) < Length(kind, d, h)
    ensures SumsToZero(Body(kind, d, h))
  {
    hide Sum, Negated;
    var ck := ChecksumAt(kind);
    var body := Body(kind, d, h);
    ChecksumStored(body[ck := 0], ck);
    assert body[ck := 0][ck := body[ck]] == body;
  }

  // ---------- the run ----------

  /** e differs from d by passes over the first n kinds. */
  ghost predicate After(d: Image, e: Image, n: nat) {
    && (forall k: Kind :: Hits(k, e, 1) == Hits(k, d, 1))
    && (forall k: Kind, h: nat :: Found(k, d, h) ==> Kept(k, d, e, h))
    && (forall k: Kind, h: nat :: Turn(k) < n && Unique(k, d, h) ==> Settled(k, e, h))
  }

  predicate Unique(k: Kind, d: Image, h: nat) {
    Hits(k, d, 1) == [h]
  }

  ghost predicate Kept(k: Kind, d: Image, e: Image, h: nat) {
    && Found(k, e, h) && Checks(k, d, h) && Checks(k, e, h)
    && Length(k, e, h) == Length(k, d, h) && Extent(k, e, h) == Extent(k, d, h)
    && (Length(k, d, h) <= ChecksumAt(k) ==> Body(k, e, h) == Body(k, d, h))
  }

  /** A store that is outside of, or the checksum byte of, each structure keeps what the tool goes by. */
  lemma KeptByStore(k: Kind, d: Image, e: Image, h: nat, p: nat, b: Byte)
    requires Kept(k, d, e, h) && p < SIZE && 4 <= p % 16
    requires p == h + ChecksumAt(k) || p < h || h + Extent(k, e, h) <= p
    ensures Kept(k, d, e[p := b], h)
    ensures p != h + ChecksumAt(k) && Settled(k, e, h) ==> Settled(k, e[p := b], h)
  {
    hide SignedAt, Needed, Extent, Length;
    FoundKept(k, e, p, b, h);
    if p == h + ChecksumAt(k) {
      OwnKept(k, e, h, b);
    } else {
      OutsideKept(k, e, h, p, b);
    }
  }

  /** A checksum byte is outside of every other structure. */
  lemma ChecksumApart(d: Image, e: Image, k1: Kind, h1: nat, k2: Kind, h2: nat)
    requires Separate(d) && Found(k1, d, h1) && Found(k2, d, h2) && (k1, h1) != (k2, h2)
    requires Kept(k1, d, e, h1) && Kept(k2, d, e, h2)
    ensures var p := h1 + ChecksumAt(k1); p < h2 || h2 + Extent(k2, e, h2) <= p
  {
    hide SignedAt, Length;
    assert Apart(k1, h1, k2, h2, d);
  }

  lemma AfterStore(d: Image, e: Image, n: nat, k1: Kind, h1: nat, b: Byte)
    requires Separate(d) && After(d, e, n) && Found(k1, d, h1) && n <= Turn(k1)
    ensures After(d, e[h1 + ChecksumAt(k1) := b], n)
  {
    hide SignedAt, Settled, Kept, Hits, Separate, Turn, ChecksumAt;
    assert Kept(k1, d, e, h1);
    var p := h1 + ChecksumAt(k1);
    ChecksumPlace(k1, d, e, h1);
    var e' := e[p := b];
    forall k: Kind ensures Hits(k, e', 1) == Hits(k, d, 1) {
      HitsKept(k, e, p, b, 1);
    }
    forall k: Kind, h: nat | Found(k, d, h)
      ensures Kept(k, d, e', h) && (k != k1 && Settled(k, e, h) ==> Settled(k, e', h)) {
      StoreStep(d, e, k1, h1, b, k, h);
    }
    forall k: Kind, h: nat | Turn(k) < n && Unique(k, d, h) ensures Settled(k, e', h) {
      UniqueIsFound(k, d, h);
    }
  }

  lemma UniqueIsFound(k: Kind, d: Image, h: nat)
    requires Unique(k, d, h)
    ensures Found(k, d, h)
  {
    ScanMeets(k, d, h);
  }

  lemma ChecksumPlace(k: Kind, d: Image, e: Image, h: nat)
    requires Found(k, d, h) && Kept(k, d, e, h)
    ensures h + ChecksumAt(k) < MAX_OFFSET && 4 <= (h + ChecksumAt(k)) % 16
  {
  }

  lemma StoreStep(d: Image, e: Image, k1: Kind, h1: nat, b: Byte, k: Kind, h: nat)
    requires Separate(d) && Found(k1, d, h1) && Found(k, d, h) && Kept(k1, d, e, h1) && Kept(k, d, e, h)
    ensures h1 + ChecksumAt(k1) < SIZE
    ensures var e' := e[h1 + ChecksumAt(k1) := b];
      Kept(k, d, e', h) && (k != k1 && Settled(k, e, h) ==> Settled(k, e', h))
  {
    hide SignedAt, Settled, Separate, ChecksumAt, Extent, Length;
    ChecksumPlace(k1, d, e, h1);
    if (k, h) == (k1, h1) {
      KeptByStore(k, d, e, h, h + ChecksumAt(k), b);
    } else {
      ChecksumApart(d, e, k1, h1, k, h);
      KeptByStore(k, d, e, h, h1 + ChecksumAt(k1), b);
    }
  }

  lemma AfterCheck(d: Image, e: Image, n: nat, k: Kind)
    requires After(d, e, n)
    ensures AllCheck(k, e)
  {
    hide SignedAt, Settled, Hits, Checks;
    forall h | h in Hits(k, e, 1) ensures Checks(k, e, h) {
      ScanMeets(k, d, h);
      assert Kept(k, d, e, h);
    }
  }

  lemma PassStep(d: Image, e: Image, n: nat)
    requires Separate(d) && n < 5 && After(d, e, n)
    ensures var p := Pass(KindAt(n), e); p.Some? && After(d, p.value, n + 1)
  {
    hide SignedAt, Settled, Hits, Separate, Checks, Kept;
    var k := KindAt(n);
    AfterCheck(d, e, n, k);
    if |Hits(k, e, 1)| == 1 {
      var h := Hits(k, e, 1)[0];
      UniqueIsFound(k, d, h);
      PassSettles(d, e, n, k, h);
    } else {
      assert Hits(k, d, 1) == Hits(k, e, 1);
      NextTurn(d, e, n, k);
    }
  }

  lemma PassSettles(d: Image, e: Image, n: nat, k: Kind, h: nat)
    requires Separate(d) && After(d, e, n) && Turn(k) == n && Unique(k, d, h) && Found(k, d, h)
    ensures Checks(k, e, h) && After(d, Patched(k, e, h), n + 1)
  {
    hide SignedAt, Settled, Hits, Separate, Needed, Length;
    assert Kept(k, d, e, h);
    AfterStore(d, e, n, k, h, Needed(Body(k, e, h), ChecksumAt(k)));
    var e' := Patched(k, e, h);
    NeededSettles(k, e, h);
    forall k2: Kind, h2: nat | Turn(k2) < n + 1 && Unique(k2, d, h2) ensures Settled(k2, e', h2) {
      assert Turn(k2) == n ==> k2 == k && h2 == h;
    }
  }

  lemma NextTurn(d: Image, e: Image, n: nat, k: Kind)
    requires After(d, e, n) && Turn(k) == n && |Hits(k, d, 1)| != 1
    ensures After(d, e, n + 1)
  {
    hide Hits, Kept, Settled, Found;
    forall k2: Kind, h: nat | Turn(k2) < n + 1 && Unique(k2, d, h) ensures Settled(k2, e, h) {
      assert Turn(k2) == n ==> k2 == k;
    }
  }

  lemma {:induction false} PassesKeep(d: Image, n: nat)
    requires Separate(d) && n <= 5
    ensures Passes(d, n).Some? && After(d, Passes(d, n).value, n)
  {
    hide Pass, Hits, Kept, Settled, SignedAt, KindAt, Checks;
    if n == 0 {
      assert forall k: Kind, h: nat :: Found(k, d, h) ==> Kept(k, d, d, h) by {
        forall k: Kind, h: nat | Found(k, d, h) ensures Kept(k, d, d, h) {
          KeptAtFirst(k, d, h);
        }
      }
    } else {
      PassesKeep(d, n - 1);
      PassStep(d, Passes(d, n - 1).value, n - 1);
    }
  }

  lemma KeptAtFirst(k: Kind, d: Image, h: nat)
    requires Separate(d) && Found(k, d, h)
    ensures Kept(k, d, d, h)
  {
  }

  lemma FinalKeeps(d: Image, e: Image)
    requires After(d, e, 5)
    ensures After(d, Final(e), 5)
  {
    hide SignedAt, Settled, Hits, Kept, Turn, Sum, Negated;
    var f := Final(e);
    var b := Negated(Sum(e[..MAX_OFFSET]));
    forall k: Kind ensures Hits(k, f, 1) == Hits(k, d, 1) {
      HitsKept(k, e, MAX_OFFSET, b, 1);
    }
    forall k: Kind, h: nat | Found(k, d, h) ensures Kept(k, d, f, h) && (Settled(k, e, h) ==> Settled(k, f, h)) {
      WithinImage(k, d, e, h);
      KeptByStore(k, d, e, h, MAX_OFFSET, b);
    }
    forall k: Kind, h: nat | Turn(k) < 5 && Unique(k, d, h) ensures Settled(k, f, h) {
      UniqueIsFound(k, d, h);
    }
  }

  lemma WithinImage(k: Kind, d: Image, e: Image, h: nat)
    requires Kept(k, d, e, h)
    ensures h + Extent(k, e, h) <= MAX_OFFSET && ChecksumAt(k) < Extent(k, e, h)
  {
  }

  lemma FinalSums(e: Image)
    ensures SumsToZero(Final(e))
  {
    hide Sum, Negated;
    var z := e[MAX_OFFSET := 0];
    assert z == e[..MAX_OFFSET] + [0];
    SumConcat(e[..MAX_OFFSET], [0]);
    assert Sum([0]) == 0 by { SumOfZero(); }
    ChecksumStored(z, MAX_OFFSET);
    assert z[MAX_OFFSET := Negated(Sum(z))] == Final(e);
  }

  lemma SumOfZero()
    ensures Sum([0]) == 0
  {
  }

  lemma FinalTwice(e: Image)
    ensures Final(Final(e)) == Final(e)
  {
    hide Sum, Negated;
    assert Final(e)[..MAX_OFFSET] == e[..MAX_OFFSET];
  }

  /** Passes over an image they have been over change nothing. */
  lemma {:induction false} PassesAgain(d: Image, e: Image, n: nat)
    requires After(d, e, 5) && n <= 5
    ensures Passes(e, n) == Some(e)
  {
    hide Hits, Kept, Settled, SignedAt, After, Checks, Found;
    if n > 0 {
      PassesAgain(d, e, n - 1);
      PassAgain(d, e, KindAt(n - 1));
    }
  }

  lemma PassAgain(d: Image, e: Image, k: Kind)
    requires After(d, e, 5)
    ensures Pass(k, e) == Some(e)
  {
    hide Hits, Kept, SignedAt, Checks, Found, Needed;
    AfterCheck(d, e, 5, k);
    if |Hits(k, e, 1)| == 1 {
      var h := Hits(k, e, 1)[0];
      assert Unique(k, d, h);
      assert Settled(k, e, h);
      assert Patched(k, e, h) == e;
    }
  }

  /** r has a structure that sums to zero exactly if its length covers its checksum byte or it did so in d. */
  predicate Corrected(k: Kind, d: Image, r: Image, h: nat) {
    && Checks(k, d, h) && Checks(k, r, h)
    && (SumsToZero(Body(k, r, h)) <==> ChecksumAt(k) < Length(k, d, h) || SumsToZero(Body(k, d, h)))
  }

  /**
   * For an image whose structures pass the checks and do not overlap: the tool succeeds; the image it writes sums to
   * zero and has its signatures where they were; running the tool again changes nothing; and a structure that is the
   * only one of its kind sums to zero if and only if its length covers its checksum byte or it did so before.
   */
  lemma RunSettles(d: Image)
    requires Separate(d)
    ensures var r := Run(d);
      && r.Some? && SumsToZero(r.value) && Run(r.value) == r
      && (forall k: Kind :: Hits(k, r.value, 1) == Hits(k, d, 1))
      && (forall k: Kind, h: nat :: Unique(k, d, h) ==> Corrected(k, d, r.value, h))
  {
    hide Hits, Kept, Settled, SignedAt, Checks, Found, Passes, Final, SumsToZero,
      Body, Length, ChecksumAt, Turn, Unique, Corrected;
    PassesKeep(d, 5);
    var e := Passes(d, 5).value;
    FinalKeeps(d, e);
    FinalSums(e);
    FinalTwice(e);
    PassesAgain(d, Final(e), 5);
    forall k: Kind, h: nat | Unique(k, d, h) ensures Corrected(k, d, Final(e), h) {
      StructureSums(d, Final(e), k, h);
    }
  }

  lemma StructureSums(d: Image, r: Image, k: Kind, h: nat)
    requires After(d, r, 5) && Unique(k, d, h)
    ensures Corrected(k, d, r, h)
  {
    hide Hits, SignedAt, Found, Settled, SumsToZero;
    UniqueIsFound(k, d, h);
    assert Kept(k, d, r, h) && Settled(k, r, h);
    if ChecksumAt(k) < Length(k, d, h) {
      SettledSums(k, r, h);
    }
  }

  /** A $PnP structure of 4 bytes at 16, and nothing else. */
  function ShortPnp(): Image {
    seq(SIZE, (i: nat) => match i case 16 => 36 case 17 => 80 case 18 => 110 case 19 => 80 case 21 => 4 case _ => 0)
  }

  /** Its length is short of its checksum byte: the tool succeeds, and leaves it with the sum it had, not zero. */
  lemma ShortStructureKeepsItsSum()
    ensures var d := ShortPnp();
      && Separate(d) && Unique(Pnp, d, 16)
      && Run(d).Some? && Checks(Pnp, Run(d).value, 16) && !SumsToZero(Body(Pnp, Run(d).value, 16))
  {
    hide Run, Hits, SumsToZero;
    var d := ShortPnp();
    assert Separate(d) by {
      forall k: Kind, h: nat | Found(k, d, h) ensures k == Pnp && h == 16 && Checks(k, d, h) {
        OnlyPnp(k, h);
      }
    }
    assert Unique(Pnp, d, 16) by {
      OnlyPnp(Pnp, 16);
      forall h: nat | Found(Pnp, d, h) ensures h == 16 {
        OnlyPnp(Pnp, h);
      }
      OnlyFoundIsUnique(Pnp, d, 16);
    }
    RunSettles(d);
    assert Corrected(Pnp, d, Run(d).value, 16);
    assert !SumsToZero(Body(Pnp, d, 16)) by { PnpSum(); }
  }

  lemma OnlyPnp(k: Kind, h: nat)
    ensures Found(k, ShortPnp(), h) <==> k == Pnp && h == 16
    ensures Checks(Pnp, ShortPnp(), 16)
  {
    var d := ShortPnp();
    if 0x10 <= h <= 0xfff0 && h % 16 == 0 {
      var s := d[h..h + 4];
      assert s[0] == d[h] && s[1] == d[h + 1] && s[2] == d[h + 2] && s[3] == d[h + 3];
    }
  }

  lemma OnlyFoundIsUnique(k: Kind, d: Image, h: nat)
    requires Found(k, d, h) && forall h': nat :: Found(k, d, h') ==> h' == h
    ensures Unique(k, d, h)
  {
    hide Hits, Found, Signature;
    var hits := Hits(k, d, 1);
    ScanMeets(k, d, h);
    if |hits| == 1 {
      assert h == hits[0];
    } else {
      var a, b := hits[0], hits[1];
      assert a in hits && b in hits && a < b;
      ScanMeets(k, d, a);
      ScanMeets(k, d, b);
      assert false;
    }
  }

  lemma PnpSum()
    ensures Checks(Pnp, ShortPnp(), 16) && !SumsToZero(Body(Pnp, ShortPnp(), 16))
  {
    assert Body(Pnp, ShortPnp(), 16) == [36, 80, 110, 80];
    assert Sum([36, 80, 110, 80]) == 306;
  }

  /** Whatever the image: what the tool writes sums to zero, and only checksum bytes have changed. */
  lemma OnlyChecksumsChange(d: Image, p: nat)
    requires Run(d).Some? && p < SIZE
    ensures SumsToZero(Run(d).value)
    ensures Run(d).value[p] != d[p] ==>
      p == MAX_OFFSET || exists k: Kind, h: nat :: Unique(k, d, h) && p == h + ChecksumAt(k)
  {
    hide Passes, SumsToZero, Unique;
    FinalSums(Passes(d, 5).value);
    PassesChange(d, 5, p);
  }

  lemma {:induction false} PassesChange(d: Image, n: nat, p: nat)
    requires n <= 5 && Passes(d, n).Some? && p < SIZE
    ensures forall k: Kind :: Hits(k, Passes(d, n).value, 1) == Hits(k, d, 1)
    ensures Passes(d, n).value[p] != d[p] ==> exists k: Kind, h: nat :: Unique(k, d, h) && p == h + ChecksumAt(k)
  {
    hide Hits, SignedAt, Checks, Needed, ChecksumAt;
    if n > 0 {
      PassesChange(d, n - 1, p);
      var e := Passes(d, n - 1).value;
      var k := KindAt(n - 1);
      if |Hits(k, e, 1)| == 1 {
        var h := Hits(k, e, 1)[0];
        assert Unique(k, d, h) && Unique(k, e, h);
        UniqueIsFound(k, e, h);
        PatchKeepsHits(k, e, h);
      }
    }
  }

  lemma PatchKeepsHits(k: Kind, e: Image, h: nat)
    requires Found(k, e, h) && Checks(k, e, h)
    ensures forall k2: Kind :: Hits(k2, Patched(k, e, h), 1) == Hits(k2, e, 1)
  {
    hide Hits, Needed;
    forall k2: Kind ensures Hits(k2, Patched(k, e, h), 1) == Hits(k2, e, 1) {
      HitsKept(k2, e, h + ChecksumAt(k), Needed(Body(k, e, h), ChecksumAt(k)), 1);
    }
  }

  // ---------- the tool ----------

  /** The next signature behind the offset, or -1. */
  method GetOffset(kind: Kind, data: array<Byte>, from: nat) returns (result: int)
    requires data.Length == SIZE
    ensures var hits := Hits(kind, data[..], (from + 15) / 16 + 1);
      if result == -1 then hits == []
      else 0 < result && result % 16 == 0 && hits == [result as nat] + Hits(kind, data[..], result / 16 + 1)
  {
    hide SignedAt;
    var offset := (from + 15) / 16 * 16;
    while offset + 16 < MAX_OFFSET
      invariant 0 <= offset && offset % 16 == 0
      invariant Hits(kind, data[..], (from + 15) / 16 + 1) == Hits(kind, data[..], offset / 16 + 1)
      decreases SIZE - offset
    {
      offset := offset + 16;
      if data[offset..offset + 4] == Signature(kind) {
        assert SignedAt(kind, data[..], offset) by { SameSlice(kind, data[..], offset, data[offset..offset + 4]); }
        return offset;
      }
      assert !SignedAt(kind, data[..], offset) by { SameSlice(kind, data[..], offset, data[offset..offset + 4]); }
    }
    return -1;
  }

  lemma SameSlice(kind: Kind, d: Image, h: nat, bytes: seq<Byte>)
    requires h + 4 <= SIZE && bytes == d[h..h + 4]
    ensures SignedAt(kind, d, h) <==> bytes == Signature(kind)
  {
  }

  /** The checksum a structure needs, or no value when the tool exits. */
  method CalcValue(kind: Kind, data: array<Byte>, h: nat) returns (r: Option<Byte>)
    requires data.Length == SIZE
    ensures r.Some? <==> Checks(kind, data[..], h)
    ensures r.Some? <==> match kind
      case Pci32 => h + 16 <= 0xffff && h + data[h + 9] as nat * 16 <= 0xffff
      case Mp => h + 16 <= 0xffff && h + data[h + 8] as nat * 16 <= 0xffff
      case Pcmp =>
        && h + 42 <= 0xffff && h + data[h + 4] as nat + data[h + 5] as nat * 256 <= 0xffff
        && data[h + 40] == data[h + 41] == data[h + 42] == 0
      case Pir => h + 32 <= 0xffff && h + data[h + 6] as nat + data[h + 7] as nat * 256 <= 0xffff
      case Pnp => h + 32 <= 0xffff && h + data[h + 5] as nat <= 0xffff
    ensures r.Some? ==> r.value == Needed(Body(kind, data[..], h), ChecksumAt(kind))
  {
    hide Sum;
    if h + MinHeader(kind) > MAX_OFFSET {
      return None;
    }
    var len := Length(kind, data[..], h);
    if h + len > MAX_OFFSET {
      return None;
    }
    if kind == Pcmp && (data[h + 40] != 0 || data[h + 41] != 0 || data[h + 42] != 0) {
      return None;
    }
    var ck := ChecksumAt(kind);
    ghost var body := data[h..h + len];
    var sum := SumExcept(data[h..h + len], ck);
    assert body == Body(kind, data[..], h);
    r := Some(Negated(sum));
  }

  method SumExcept(body: seq<Byte>, ck: nat) returns (sum: nat)
    ensures sum == Sum(if ck < |body| then body[ck := 0] else body)
  {
    sum := 0;
    ghost var rest := if ck < |body| then body[ck := 0] else body;
    var i := 0;
    while i < |body|
      invariant 0 <= i <= |body| && sum + Sum(rest[i..]) == Sum(rest)
    {
      assert rest[i..][1..] == rest[i + 1..];
      if i != ck {
        sum := sum + body[i];
      }
      i := i + 1;
    }
  }

  /** The structures of a kind: how many, and place, present and needed checksum of the last one met. */
  method Scan(kind: Kind, data: array<Byte>) returns (ok: bool, hits: nat, offset: nat, curVal: Byte, newVal: Byte)
    requires data.Length == SIZE
    ensures ok <==> AllCheck(kind, data[..])
    ensures ok ==> hits == |Hits(kind, data[..], 1)|
    ensures ok && hits == 1 ==>
      && offset == Hits(kind, data[..], 1)[0] && offset + ChecksumAt(kind) < SIZE
      && curVal == data[offset + ChecksumAt(kind)]
      && newVal == Needed(Body(kind, data[..], offset), ChecksumAt(kind))
  {
    hide Hits, SignedAt, Needed, ChecksumAt, Checks, Body;
    ghost var d := data[..];
    ghost var met := [];
    ok, hits, offset, curVal, newVal := true, 0, 0, 0, 0;
    var next := GetOffset(kind, data, offset);
    while next != -1
      invariant offset % 16 == 0 && hits == |met|
      invariant Hits(kind, d, 1) == met + Hits(kind, d, offset / 16 + 1)
      invariant forall h :: h in met ==> Checks(kind, d, h)
      invariant hits > 0 ==> met[hits - 1] == offset && offset + ChecksumAt(kind) < SIZE
      invariant hits > 0 ==> curVal == d[offset + ChecksumAt(kind)]
      invariant hits > 0 ==> newVal == Needed(Body(kind, d, offset), ChecksumAt(kind))
      invariant if next == -1 then Hits(kind, d, offset / 16 + 1) == []
        else 0 < next && next % 16 == 0 &&
             Hits(kind, d, offset / 16 + 1) == [next as nat] + Hits(kind, d, next / 16 + 1)
      decreases |Hits(kind, d, offset / 16 + 1)|
    {
      offset := next;
      var value := CalcValue(kind, data, offset);
      met := met + [offset];
      if value.None? {
        assert offset in Hits(kind, d, 1);
        ok := false;
        return;
      }
      ChecksumInside(kind, d, offset);
      curVal, newVal := data[offset + ChecksumAt(kind)], value.value;
      hits := hits + 1;
      next := GetOffset(kind, data, offset);
    }
    assert met == Hits(kind, d, 1);
  }

  /** One pass: find the structures, and store the checksum when there was one. */
  method DoPass(kind: Kind, data: array<Byte>) returns (ok: bool)
    requires data.Length == SIZE
    modifies data
    ensures ok <==> Pass(kind, old(data[..])).Some?
    ensures ok ==> data[..] == Pass(kind, old(data[..])).value
  {
    hide Hits, SignedAt, Needed, ChecksumAt, Checks, Body;
    var hits, offset, curVal, newVal;
    ok, hits, offset, curVal, newVal := Scan(kind, data);
    if ok && hits == 1 && curVal != newVal {
      data[offset + ChecksumAt(kind)] := newVal;
    }
    assert ok && hits == 1 ==> data[..] == Patched(kind, old(data[..]), offset);
  }

  lemma ChecksumInside(kind: Kind, d: Image, h: nat)
    requires Checks(kind, d, h)
    ensures h + ChecksumAt(kind) < SIZE
  {
  }

  /** The tool, on the image it has read; without a result it exits and writes nothing. */
  method PatchChecksums(data: array<Byte>) returns (ok: bool)
    requires data.Length == SIZE
    modifies data
    ensures ok <==> Run(old(data[..])).Some?
    ensures ok ==> data[..] == Run(old(data[..])).value
  {
    hide Pass, Sum;
    ghost var d := data[..];
    var n := 0;
    while n < 5
      invariant 0 <= n <= 5 && Passes(d, n) == Some(data[..])
    {
      ok := DoPass(KindAt(n), data);
      n := n + 1;
      if !ok {
        NoneStays(d, n, 5);
        return false;
      }
    }
    var sum := SumBytes(data, 0, MAX_OFFSET);
    assert data[0..MAX_OFFSET] == data[..][..MAX_OFFSET];
    if data[MAX_OFFSET] != Negated(sum) {
      data[MAX_OFFSET] := Negated(sum);
    }
    assert data[..] == Final(Passes(d, 5).value);
    return true;
  }

  lemma {:induction false} NoneStays(d: Image, n: nat, m: nat)
    requires n <= m <= 5 && Passes(d, n).None?
    ensures Passes(d, m).None?
    decreases m
  {
    if n < m {
      NoneStays(d, n, m - 1);
    }
  }
}
