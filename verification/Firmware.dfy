/** Emitting table bytes at a cursor, and byte sums. */
module Firmware {
  import opened Common

  /** s with `bytes` written over it at q. */
  function Splice(s: seq<Byte>, q: nat, bytes: seq<Byte>): (r: seq<Byte>)
    requires q + |bytes| <= |s|
    ensures |r| == |s| && r[q..q + |bytes|] == bytes
  {
    s[..q] + bytes + s[q + |bytes|..]
  }

  lemma SpliceChain(s: seq<Byte>, q: nat, a: seq<Byte>, b: seq<Byte>)
    requires q + |a| + |b| <= |s|
    ensures Splice(Splice(s, q, a), q + |a|, b) == Splice(s, q, a + b)
  {
  }

  /** A store inside what has just been written. */
  lemma SpliceUpdate(s: seq<Byte>, q: nat, a: seq<Byte>, i: nat, b: Byte)
    requires q + |a| <= |s| && i < |a|
    ensures Splice(s, q, a)[q + i := b] == Splice(s, q, a[i := b])
  {
  }

  /** *(q++) = b for each of the bytes. */
  method PutBytes(buf: array<Byte>, q: nat, bytes: seq<Byte>) returns (next: nat)
    requires q + |bytes| <= buf.Length
    modifies buf
    ensures next == q + |bytes|
    ensures buf[..] == Splice(old(buf[..]), q, bytes)
  {
    var i := 0;
    while i < |bytes|
      invariant 0 <= i <= |bytes|
      invariant forall k :: 0 <= k < buf.Length ==> buf[k] == if q <= k < q + i then bytes[k - q] else old(buf[k])
    {
      buf[q + i] := bytes[i];
      i := i + 1;
    }
    next := q + |bytes|;
    assert buf[..] == Splice(old(buf[..]), q, bytes);
  }

  lemma SpliceNothing(base: seq<Byte>, q: nat)
    requires q <= |base|
    ensures Splice(base, q, []) == base
  {
  }

  /** Stores at the cursor p, after the bytes already done from start on. */
  method Emit(buf: array<Byte>, ghost base: seq<Byte>, start: nat, p: nat, ghost done: seq<Byte>, bytes: seq<Byte>)
    returns (next: nat, ghost all: seq<Byte>)
    requires p == start + |done| && p + |bytes| <= buf.Length == |base|
    requires buf[..] == Splice(base, start, done)
    modifies buf
    ensures all == done + bytes && next == start + |all|
    ensures buf[..] == Splice(base, start, all)
  {
    next := PutBytes(buf, p, bytes);
    all := done + bytes;
    SpliceChain(base, start, done, bytes);
  }

  /** The characters of a string as bytes. */
  function Ascii(s: string): (r: seq<Byte>)
    requires forall i :: 0 <= i < |s| ==> s[i] < 256 as char
    ensures |r| == |s|
  {
    seq(|s|, i requires 0 <= i < |s| => s[i] as nat)
  }

  function Le16(v: nat): (r: seq<Byte>)
    ensures |r| == 2
  {
    [v % 256, (v / 256) % 256]
  }

  function Le32(v: nat): (r: seq<Byte>)
    ensures |r| == 4
  {
    [v % 256, (v / 0x100) % 256, (v / 0x1_0000) % 256, (v / 0x100_0000) % 256]
  }

  /** Reading little-endian words back. */
  function Read16(s: seq<Byte>, i: nat): nat
    requires i + 2 <= |s|
  {
    (s[i] as nat) + 0x100 * (s[i + 1] as nat)
  }

  function Read32(s: seq<Byte>, i: nat): nat
    requires i + 4 <= |s|
  {
    (s[i] as nat) + 0x100 * (s[i + 1] as nat) + 0x1_0000 * (s[i + 2] as nat) + 0x100_0000 * (s[i + 3] as nat)
  }

  lemma ReadLe16(v: nat)
    ensures Read16(Le16(v), 0) == v % 0x1_0000
  {
    var a, b := v / 256, v % 256;
    DivModUnique(v, 0x1_0000, a / 256, b + 256 * (a % 256));
  }

  lemma ReadLe32(v: nat)
    ensures Read32(Le32(v), 0) == v % TWO_32
  {
    var a, b, c := v / 0x100, v / 0x1_0000, v / 0x100_0000;
    assert a / 256 == b && b / 256 == c;
    DivModUnique(v, TWO_32, c / 256, v % 256 + 0x100 * (a % 256) + 0x1_0000 * (b % 256) + 0x100_0000 * (c % 256));
  }

  // ---------- byte sums ----------

  function Sum(s: seq<Byte>): nat {
    if s == [] then 0 else s[0] + Sum(s[1..])
  }

  lemma {:induction false} SumConcat(a: seq<Byte>, b: seq<Byte>)
    ensures Sum(a + b) == Sum(a) + Sum(b)
    decreases a
  {
    if a == [] {
      assert a + b == b;
    } else {
      assert (a + b)[1..] == a[1..] + b;
      SumConcat(a[1..], b);
    }
  }

  lemma {:induction false} SumUpdate(s: seq<Byte>, i: nat, b: Byte)
    requires i < |s|
    ensures Sum(s[i := b]) == Sum(s) - s[i] + b
    decreases s
  {
    if i > 0 {
      assert s[i := b][1..] == s[1..][i - 1 := b];
      SumUpdate(s[1..], i - 1, b);
    } else {
      assert s[0 := b][1..] == s[1..];
    }
  }

  predicate SumsToZero(s: seq<Byte>) {
    Sum(s) % 256 == 0
  }

  /** The sum of the bytes buf[from..to], as the checksum loops compute it. */
  method SumBytes(buf: array<Byte>, from: nat, to: nat) returns (sum: nat)
    requires from <= to <= buf.Length
    ensures sum == Sum(buf[from..to])
  {
    sum := 0;
    var i := from;
    while i < to
      invariant from <= i <= to && sum + Sum(buf[i..to]) == Sum(buf[from..to])
    {
      assert buf[i..to][1..] == buf[i + 1..to];
      sum := sum + buf[i];
      i := i + 1;
    }
  }

  /** -sum, as a byte. */
  function Negated(sum: nat): Byte {
    (-(sum as int)) % 256
  }

  /** Storing the negated sum over a byte that was c leaves the sum -c: zero exactly if the byte was zero. */
  lemma ChecksumStored(s: seq<Byte>, i: nat)
    requires i < |s|
    ensures SumsToZero(s[i := Negated(Sum(s))]) <==> s[i] == 0
  {
    hide Sum, Negated;
    var n := Negated(Sum(s));
    SumUpdate(s, i, n);
    SumAtLeast(s, i);
    NegatedCancels(Sum(s), s[i]);
    assert Sum(s[i := n]) == Sum(s) - s[i] + n;
  }

  lemma NegatedCancels(sum: nat, c: Byte)
    requires c <= sum
    ensures (sum - c + Negated(sum)) % 256 == 0 <==> c == 0
  {
    var n := Negated(sum);
    var q := (-(sum as int)) / 256;
    assert sum + n == 256 * -q;
    if c == 0 {
      DivModUnique(sum + n, 256, -q, 0);
    } else {
      DivModUnique(sum - c + n, 256, -q - 1, 256 - c);
    }
  }

  lemma {:induction false} SumAtLeast(s: seq<Byte>, i: nat)
    requires i < |s|
    ensures s[i] <= Sum(s)
    decreases s
  {
    if i > 0 {
      SumAtLeast(s[1..], i - 1);
    }
  }
}
