/** bx_dbg_dump_table of dbg_main.cc: the page table printed as intervals of contiguous translations. */
module DumpTable {
  import opened Common

  const TWO_64 := 0x1_0000_0000_0000_0000
  const PAGE := 0x1000
  const PAGES := 0x10_0000

  /** Physical addresses have 64 bits. */
  function U64(x: int): (r: nat)
    ensures r < TWO_64
    ensures 0 <= x < TWO_64 ==> r == x
  {
    x % TWO_64
  }

  /** What a page translates to: an arbitrary function of the page number, into page-aligned addresses. */
  type Xlate = nat -> Option<nat>

  ghost predicate Aligned(xlate: Xlate) {
    forall p: nat :: p < PAGES && xlate(p).Some? ==> xlate(p).value < TWO_64 && xlate(p).value % PAGE == 0
  }

  /** A printed line: the linear addresses of an interval and the physical ones. */
  datatype Line = Line(startLin: nat, endLin: nat, startPhy: nat, endPhy: nat)

  predicate Covers(l: Line, p: nat) {
    l.startLin <= PAGE * p <= l.endLin
  }

  /** Whole pages, and as many physical addresses as linear ones. */
  predicate Sensible(l: Line) {
    && l.startLin % PAGE == 0 && (l.endLin + 1) % PAGE == 0 && l.startLin <= l.endLin
    && l.startPhy < TWO_64 && l.endPhy == U64(l.startPhy + (l.endLin - l.startLin))
  }

  predicate Continues(a: Line, b: Line) {
    a.endLin + 1 == b.startLin && U64(a.endPhy + 1) == b.startPhy
  }

  /** The lines describe the first n pages: ascending and disjoint, exactly the valid pages, lines as long as can be. */
  ghost predicate Describes(lines: seq<Line>, xlate: Xlate, n: nat) {
    Ascending(lines, n) && Sound(lines, xlate) && Complete(lines, xlate, n) && Maximal(lines)
  }

  ghost predicate Ascending(lines: seq<Line>, n: nat) {
    && (forall i :: 0 <= i < |lines| ==> Sensible(lines[i]) && lines[i].endLin < PAGE * n)
    && (forall i, j :: 0 <= i < j < |lines| ==> lines[i].endLin < lines[j].startLin)
  }

  ghost predicate Sound(lines: seq<Line>, xlate: Xlate) {
    forall i: nat, p: nat :: i < |lines| && Covers(lines[i], p) ==> xlate(p) == Some(Target(lines[i], p))
  }

  ghost predicate Complete(lines: seq<Line>, xlate: Xlate, n: nat) {
    forall p: nat :: p < n && xlate(p).Some? ==> Covered(lines, p)
  }

  ghost predicate Maximal(lines: seq<Line>) {
    forall i :: 0 < i < |lines| ==> !Continues(lines[i - 1], lines[i])
  }

  ghost predicate Covered(lines: seq<Line>, p: nat) {
    exists i :: 0 <= i < |lines| && Covers(lines[i], p)
  }

  function Target(l: Line, p: nat): nat {
    U64(l.startPhy + (PAGE * p - l.startLin))
  }

  // ---------- the loop ----------

  /** The lines printed so far and the one still open, if any: a start at 1 says that none is. */
  function Closed(lines: seq<Line>, startLin: nat, startPhy: nat, lin: nat): seq<Line>
    requires startLin == 1 || startLin < lin
  {
    if startLin == 1 then lines
    else lines + [Line(startLin, lin - 1, startPhy, U64(startPhy + (lin - 1 - startLin)))]
  }

  /** An interval is open up to lin, or none is since an invalid page. */
  predicate Open(lines: seq<Line>, startLin: nat, startPhy: nat, lin: nat) {
    if startLin == 1 then startPhy == 2 && (|lines| > 0 ==> lines[|lines| - 1].endLin + 1 < lin)
    else startLin < lin && startLin % PAGE == 0 && startPhy < TWO_64
  }

  /** The page belongs to the open interval: the distances are equal. The sentinel (1, 2) is at odds with every page. */
  predicate Merges(lin: nat, phy: nat, startLin: nat, startPhy: nat) {
    U32(lin - startLin) == U64(phy - startPhy)
  }

  lemma SentinelNeverMerges(p: nat, phy: nat)
    requires p < PAGES && phy % PAGE == 0 && phy < TWO_64
    ensures !Merges(PAGE * p, phy, 1, 2)
  {
    var a, b := U32(PAGE * p - 1), U64(phy - 2);
    assert a % PAGE == 0xfff by {
      if p == 0 { assert a == 0xffff_ffff; }
    }
    assert b % PAGE == 0xffe by {
      if phy == 0 { assert b == TWO_64 - 2; }
    }
  }

  lemma MergesMeaning(p: nat, phy: nat, startLin: nat, startPhy: nat)
    requires startLin < PAGE * p < TWO_32 && phy < TWO_64 && startPhy < TWO_64
    ensures Merges(PAGE * p, phy, startLin, startPhy) <==> phy == U64(startPhy + (PAGE * p - startLin))
  {
    var d := PAGE * p - startLin;
    assert U64(phy - startPhy) == if startPhy <= phy then phy - startPhy else phy - startPhy + TWO_64;
    assert U64(startPhy + d) == if startPhy + d < TWO_64 then startPhy + d else startPhy + d - TWO_64;
  }

  /** An invalid page ends the open interval. */
  lemma InvalidStep(lines: seq<Line>, xlate: Xlate, p: nat)
    requires Describes(lines, xlate, p) && xlate(p).None?
    ensures Describes(lines, xlate, p + 1)
  {
  }

  /** A page that does not merge opens the next interval. */
  lemma OpenStep(lines: seq<Line>, xlate: Xlate, p: nat, phy: nat)
    requires Describes(lines, xlate, p) && xlate(p) == Some(phy) && phy < TWO_64
    requires |lines| > 0 ==> !Continues(lines[|lines| - 1], Line(PAGE * p, PAGE * p + 0xfff, phy, U64(phy + 0xfff)))
    ensures Describes(lines + [Line(PAGE * p, PAGE * p + 0xfff, phy, U64(phy + 0xfff))], xlate, p + 1)
  {
    var l := Line(PAGE * p, PAGE * p + 0xfff, phy, U64(phy + 0xfff));
    var next := lines + [l];
    forall q: nat | q < p + 1 && xlate(q).Some? ensures Covered(next, q) {
      if q < p {
        var i :| 0 <= i < |lines| && Covers(lines[i], q);
        assert Covers(next[i], q);
      } else {
        assert Covers(next[|lines|], q);
      }
    }
    forall i: nat, q: nat | i < |next| && Covers(next[i], q) ensures xlate(q) == Some(Target(next[i], q)) {
      if i == |lines| {
        assert q == p;
      } else {
        assert Covers(lines[i], q);
      }
    }
  }

  function Longer(l: Line): Line
    requires l.startLin <= l.endLin
  {
    l.(endLin := l.endLin + PAGE, endPhy := U64(l.startPhy + (l.endLin + PAGE - l.startLin)))
  }

  /** A page that merges makes the open interval one page longer. */
  lemma ExtendStep(done: seq<Line>, l: Line, xlate: Xlate, p: nat, phy: nat)
    requires Describes(done + [l], xlate, p) && l.startLin <= l.endLin && l.endLin + 1 == PAGE * p
    requires xlate(p) == Some(phy) && phy == Target(l, p)
    ensures Describes(done + [Longer(l)], xlate, p + 1)
  {
    hide Sound, Complete, Target, Continues, U64;
    var a, b := done + [l], done + [Longer(l)];
    assert a[|done|] == l;
    assert forall i :: 0 <= i < |done| ==> a[i] == b[i];
    ExtendSound(done, l, xlate, p);
    ExtendComplete(done, l, xlate, p);
    forall i | 0 < i < |b| ensures !Continues(b[i - 1], b[i]) {
      assert !Continues(a[i - 1], a[i]);
      SameStart(a[i - 1], l);
    }
  }

  lemma SameStart(k: Line, l: Line)
    requires l.startLin <= l.endLin
    ensures Continues(k, Longer(l)) == Continues(k, l)
  {
  }

  lemma ExtendSound(done: seq<Line>, l: Line, xlate: Xlate, p: nat)
    requires Sound(done + [l], xlate) && l.startLin <= l.endLin && l.endLin + 1 == PAGE * p
    requires xlate(p) == Some(Target(l, p))
    ensures Sound(done + [Longer(l)], xlate)
  {
    var a, b := done + [l], done + [Longer(l)];
    forall i: nat, q: nat | i < |b| && Covers(b[i], q) ensures xlate(q) == Some(Target(b[i], q)) {
      if i < |done| {
        assert a[i] == b[i];
      } else {
        assert a[i] == l && b[i] == Longer(l) && Target(Longer(l), q) == Target(l, q);
        if q < p {
          assert Covers(a[i], q);
        } else {
          assert q == p;
        }
      }
    }
  }

  lemma ExtendComplete(done: seq<Line>, l: Line, xlate: Xlate, p: nat)
    requires Complete(done + [l], xlate, p) && l.startLin <= l.endLin && l.endLin + 1 == PAGE * p
    ensures Complete(done + [Longer(l)], xlate, p + 1)
  {
    hide U64;
    var a, b := done + [l], done + [Longer(l)];
    forall q: nat | q < p + 1 && xlate(q).Some? ensures Covered(b, q) {
      if q < p {
        var i :| 0 <= i < |a| && Covers(a[i], q);
        assert Covers(b[i], q);
      } else {
        assert Covers(b[|done|], q);
      }
    }
  }

  /** The loop over the pages; the lines are what it prints, in order. */
  method DumpTable(xlate: Xlate) returns (lines: seq<Line>)
    requires Aligned(xlate)
    ensures Describes(lines, xlate, PAGES)
  {
    lines := [];
    hide Holds, Describes, U32, U64;
    StartsEmpty(xlate);
    var lin: nat := 0;
    var startLin: nat, startPhy: nat := 1, 2;
    while true
      invariant lin <= 0xffff_f000 && lin % PAGE == 0
      invariant startLin == 1 || startLin < lin
      invariant Holds(lines, startLin, startPhy, lin, xlate)
      decreases TWO_32 - lin
    {
      Step(lines, startLin, startPhy, xlate, lin);
      var valid := xlate(lin / PAGE);
      if valid.Some? {
        var phy := valid.value;
        if U32(lin - startLin) != U64(phy - startPhy) {
          if startLin != 1 {
            lines := lines + [Line(startLin, lin - 1, startPhy, U64(startPhy + (lin - 1 - startLin)))];
          }
          startLin := lin;
          startPhy := phy;
        }
      } else {
        if startLin != 1 {
          lines := lines + [Line(startLin, lin - 1, startPhy, U64(startPhy + (lin - 1 - startLin)))];
        }
        startLin := 1;
        startPhy := 2;
      }
      if lin == 0xffff_f000 {
        HoldsAtEnd(lines, startLin, startPhy, xlate);
        break;
      }
      lin := lin + PAGE;
    }
    assert Describes(Closed(lines, startLin, startPhy, TWO_32), xlate, PAGES);
    if startLin != 1 {
      lines := lines + [Line(startLin, 0xffff_ffff, startPhy, U64(startPhy + (0xffff_ffff - startLin)))];
    }
  }

  /** What holds before page lin / PAGE is looked at. */
  ghost predicate Holds(lines: seq<Line>, startLin: nat, startPhy: nat, lin: nat, xlate: Xlate) {
    && lin % PAGE == 0 && Open(lines, startLin, startPhy, lin)
    && Describes(Closed(lines, startLin, startPhy, lin), xlate, lin / PAGE)
  }

  lemma Step(lines: seq<Line>, startLin: nat, startPhy: nat, xlate: Xlate, lin: nat)
    requires Aligned(xlate) && lin < TWO_32 && Holds(lines, startLin, startPhy, lin, xlate)
    ensures match xlate(lin / PAGE)
      case Some(phy) =>
        if Merges(lin, phy, startLin, startPhy) then Holds(lines, startLin, startPhy, lin + PAGE, xlate)
        else Holds(Closed(lines, startLin, startPhy, lin), lin, phy, lin + PAGE, xlate)
      case None => Holds(Closed(lines, startLin, startPhy, lin), 1, 2, lin + PAGE, xlate)
  {
    hide Describes, Merges, U64;
    var p := lin / PAGE;
    assert lin == PAGE * p && (lin + PAGE) / PAGE == p + 1;
    var before := Closed(lines, startLin, startPhy, lin);
    if xlate(p).None? {
      InvalidStep(before, xlate, p);
    } else {
      var phy := xlate(p).value;
      if startLin == 1 {
        SentinelNeverMerges(p, phy);
        OpenStep(before, xlate, p, phy);
      } else {
        MergesMeaning(p, phy, startLin, startPhy);
        var l := Line(startLin, lin - 1, startPhy, U64(startPhy + (lin - 1 - startLin)));
        if Merges(lin, phy, startLin, startPhy) {
          ExtendStep(lines, l, xlate, p, phy);
        } else {
          NotContinued(l, p, phy);
          OpenStep(before, xlate, p, phy);
        }
      }
    }
  }

  lemma NotContinued(l: Line, p: nat, phy: nat)
    requires l.startLin <= l.endLin && l.endLin + 1 == PAGE * p && phy != Target(l, p)
    requires l.endPhy == U64(l.startPhy + (l.endLin - l.startLin))
    ensures !Continues(l, Line(PAGE * p, PAGE * p + 0xfff, phy, U64(phy + 0xfff)))
  {
    hide U64;
    U64Next(l.startPhy + (l.endLin - l.startLin));
    assert PAGE * p - l.startLin == l.endLin - l.startLin + 1;
  }

  lemma U64Next(x: nat)
    ensures U64(U64(x) + 1) == U64(x + 1)
  {
  }

  lemma U64Small(x: nat)
    requires x < TWO_64
    ensures U64(x) == x
  {
  }

  lemma HoldsAtEnd(lines: seq<Line>, startLin: nat, startPhy: nat, xlate: Xlate)
    requires Holds(lines, startLin, startPhy, TWO_32, xlate)
    ensures startLin == 1 || startLin < TWO_32
    ensures Describes(Closed(lines, startLin, startPhy, TWO_32), xlate, PAGES)
  {
    hide Describes;
  }

  lemma StartsEmpty(xlate: Xlate)
    ensures Holds([], 1, 2, 0, xlate)
  {
  }

  // ---------- nothing else describes the pages ----------

  /** The lines are determined by the translation: there is one description only. */
  lemma DescriptionIsUnique(a: seq<Line>, b: seq<Line>, xlate: Xlate, n: nat)
    requires Describes(a, xlate, n) && Describes(b, xlate, n)
    ensures a == b
  {
    hide Describes;
    AgreeUpTo(a, b, xlate, n, |a|);
    AgreeUpTo(b, a, xlate, n, |b|);
  }

  lemma {:induction false} AgreeUpTo(a: seq<Line>, b: seq<Line>, xlate: Xlate, n: nat, k: nat)
    requires Describes(a, xlate, n) && Describes(b, xlate, n) && k <= |a|
    ensures k <= |b| && a[..k] == b[..k]
  {
    hide Describes;
    if k > 0 {
      AgreeUpTo(a, b, xlate, n, k - 1);
      StartsNotAfter(a, b, xlate, n, k - 1);
      StartsNotAfter(b, a, xlate, n, k - 1);
      SameStartPhy(a, b, xlate, n, k - 1);
      EndsNotBefore(a, b, xlate, n, k - 1);
      EndsNotBefore(b, a, xlate, n, k - 1);
      LineIsDetermined(a, b, xlate, n, k - 1);
    }
  }

  /** The next line of b starts no later than that of a: the first page of a's is valid, so b has a line for it. */
  lemma StartsNotAfter(a: seq<Line>, b: seq<Line>, xlate: Xlate, n: nat, k: nat)
    requires Describes(a, xlate, n) && Describes(b, xlate, n) && k < |a| && k <= |b| && a[..k] == b[..k]
    ensures k < |b| && b[k].startLin <= a[k].startLin
  {
    hide Target, U64, Maximal;
    var p := a[k].startLin / PAGE;
    assert Sensible(a[k]) && Covers(a[k], p);
    assert forall i :: 0 <= i < k ==> b[i] == b[..k][i] == a[..k][i] == a[i];
    assert Covered(b, p);
    var j :| 0 <= j < |b| && Covers(b[j], p);
    StartsAscend(b, n, k, j);
  }

  lemma SameStartPhy(a: seq<Line>, b: seq<Line>, xlate: Xlate, n: nat, k: nat)
    requires Describes(a, xlate, n) && Describes(b, xlate, n) && k < |a| && k < |b| && a[k].startLin == b[k].startLin
    ensures a[k].startPhy == b[k].startPhy
  {
    hide Maximal, Complete;
    var p := a[k].startLin / PAGE;
    assert Sensible(a[k]) && Sensible(b[k]) && Covers(a[k], p) && Covers(b[k], p);
    assert Target(a[k], p) == a[k].startPhy && Target(b[k], p) == b[k].startPhy;
    assert xlate(p) == Some(Target(a[k], p)) == Some(Target(b[k], p));
  }

  lemma EndsNotBefore(a: seq<Line>, b: seq<Line>, xlate: Xlate, n: nat, k: nat)
    requires Describes(a, xlate, n) && Describes(b, xlate, n) && k < |a| && k < |b|
    requires a[k].startLin == b[k].startLin && a[k].startPhy == b[k].startPhy
    ensures b[k].endLin <= a[k].endLin
  {
    hide Ascending, Sound, Complete, Continues;
    if a[k].endLin < b[k].endLin {
      CouldGoOn(a, b, xlate, n, k);
    }
  }

  /** A line that ended earlier than another for the same pages is continued by the next one. */
  lemma CouldGoOn(a: seq<Line>, b: seq<Line>, xlate: Xlate, n: nat, k: nat)
    requires Ascending(a, n) && Sound(a, xlate) && Complete(a, xlate, n) && Ascending(b, n) && Sound(b, xlate)
    requires k < |a| && k < |b| && a[k].endLin < b[k].endLin
    requires a[k].startLin == b[k].startLin && a[k].startPhy == b[k].startPhy
    ensures k + 1 < |a| && Continues(a[k], a[k + 1])
  {
    hide U64, Continues, Target;
    assert Sensible(a[k]) && Sensible(b[k]);
    var e := (a[k].endLin + 1) / PAGE;
    assert Covers(b[k], e);
    assert xlate(e) == Some(Target(b[k], e));
    assert Covered(a, e);
    var i :| 0 <= i < |a| && Covers(a[i], e);
    assert k < i;
    assert Sensible(a[k + 1]) && a[k].endLin < a[k + 1].startLin;
    StartsAscend(a, n, k + 1, i);
    assert Covers(a[k + 1], e) && a[k + 1].startLin == a[k].endLin + 1;
    assert xlate(e) == Some(Target(a[k + 1], e));
    NextTarget(a[k], a[k + 1], b[k], e);
  }

  lemma StartsAscend(a: seq<Line>, n: nat, i: nat, j: nat)
    requires Ascending(a, n) && i <= j < |a|
    ensures a[i].startLin <= a[j].startLin
  {
    assert Sensible(a[i]);
  }

  lemma NextTarget(l: Line, next: Line, m: Line, e: nat)
    requires Sensible(l) && next.startLin == l.endLin + 1 == PAGE * e && next.startPhy < TWO_64
    requires m.startLin == l.startLin && m.startPhy == l.startPhy && m.startLin <= PAGE * e
    requires Target(next, e) == Target(m, e)
    ensures Continues(l, next)
  {
    hide U64;
    U64Next(l.startPhy + (l.endLin - l.startLin));
    assert PAGE * e - l.startLin == l.endLin - l.startLin + 1;
    assert Target(next, e) == U64(next.startPhy) == next.startPhy by { U64Small(next.startPhy); }
  }

  lemma LineIsDetermined(a: seq<Line>, b: seq<Line>, xlate: Xlate, n: nat, k: nat)
    requires Describes(a, xlate, n) && Describes(b, xlate, n) && k < |a| && k < |b|
    requires a[k].startLin == b[k].startLin && a[k].startPhy == b[k].startPhy && a[k].endLin == b[k].endLin
    ensures a[k] == b[k]
  {
    hide Maximal, Complete, Sound, U64;
    assert Sensible(a[k]) && Sensible(b[k]);
  }
}
