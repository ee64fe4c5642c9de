/** The batched DMA reports of dbg_main.cc, and a reader of the text they print. */
module DmaReport {
  import opened Common
  import opened Numerals

  const BUFSIZE := 512
  const READ := 0

  /** A DMA operation; the address has 64 bits, everything else 32. */
  datatype Op = Op(addr: nat, len: nat, what: nat, val: nat)

  predicate Fits(op: Op) {
    op.len < TWO_32 && op.val < TWO_32
  }

  /** What a line can tell of an operation: 32 bits of the address, and read or write. */
  function Shown(op: Op): Op {
    op.(addr := op.addr % 0x1_0000_0000, what := if op.what == 0 then 0 else 1)
  }

  function AllShown(q: seq<Op>): (r: seq<Op>)
    ensures |r| == |q| && forall k :: 0 <= k < |q| ==> r[k] == Shown(q[k])
  {
    seq(|q|, k requires 0 <= k < |q| => Shown(q[k]))
  }

  // ---------- reading ----------

  /** How many digits s starts with. */
  function Leading(s: string, base: nat): (n: nat)
    ensures n <= |s|
  {
    if s == "" || !IsDigit(s[0], base) then 0 else 1 + Leading(s[1..], base)
  }

  lemma {:induction false} LeadingDigits(t: string, rest: string, base: nat)
    requires forall k :: 0 <= k < |t| ==> IsDigit(t[k], base)
    requires rest == "" || !IsDigit(rest[0], base)
    ensures Leading(t + rest, base) == |t|
    decreases t
  {
    if t == "" {
      assert t + rest == rest;
    } else {
      assert (t + rest)[1..] == t[1..] + rest;
      LeadingDigits(t[1..], rest, base);
    }
  }

  /** The number s starts with, and what follows. */
  function ReadNumber(s: string, base: nat): (r: Option<(nat, string)>)
    ensures r.Some? ==> |r.value.1| < |s|
  {
    var n := Leading(s, base);
    if n == 0 then None else Some((Value(s[..n], base), s[n..]))
  }

  function Expect(s: string, lit: string): (r: Option<string>)
    ensures r.Some? ==> |r.value| <= |s|
  {
    if |lit| <= |s| && s[..|lit|] == lit then Some(s[|lit|..]) else None
  }

  lemma NumberRead(n: nat, base: nat, rest: string)
    requires base == 10 || base == 16
    requires rest == "" || !IsDigit(rest[0], base)
    ensures ReadNumber(Show(n, base) + rest, base) == Some((n, rest))
  {
    hide Leading, Value, Show, IsDigit;
    var t := Show(n, base);
    ShowReads(n, base);
    LeadingDigits(t, rest, base);
    assert (t + rest)[..|t|] == t && (t + rest)[|t|..] == rest;
  }

  lemma LiteralRead(lit: string, rest: string)
    ensures Expect(lit + rest, lit) == Some(rest)
  {
  }

  /** A literal and then a number. */
  function ReadField(s: string, lit: string, base: nat): (r: Option<(nat, string)>)
    ensures r.Some? ==> |r.value.1| < |s|
  {
    var r := Expect(s, lit);
    if r.None? then None else ReadNumber(r.value, base)
  }

  function Field(lit: string, n: nat, base: nat): string
    requires base == 10 || base == 16
  {
    lit + Show(n, base)
  }

  lemma FieldRead(lit: string, n: nat, base: nat, rest: string)
    requires base == 10 || base == 16
    requires rest == "" || !IsDigit(rest[0], base)
    ensures ReadField(Field(lit, n, base) + rest, lit, base) == Some((n, rest))
  {
    hide Expect, ReadNumber, Show, IsDigit;
    assert Field(lit, n, base) + rest == lit + (Show(n, base) + rest);
    LiteralRead(lit, Show(n, base) + rest);
    NumberRead(n, base, rest);
  }

  // ---------- the text of a report ----------

  function Operation(what: nat): string {
    if what == READ then " op=read" else " op=write"
  }

  function Header(now: nat, op: Op): string {
    Field("event at t=", now, 10) + Field(" DMA addr=0x", U32(op.addr), 16) + Field(" size=", op.len, 10)
    + Operation(op.what) + Field(" val=0x", op.val, 16)
  }

  function ReadOperation(s: string): (r: Option<(nat, string)>)
    ensures r.Some? ==> |r.value.1| <= |s|
  {
    var r, w := Expect(s, " op=read"), Expect(s, " op=write");
    if r.Some? then Some((0, r.value)) else if w.Some? then Some((1, w.value)) else None
  }

  function ReadHeader(s: string): (r: Option<(Op, string)>)
    ensures r.Some? ==> |r.value.1| < |s|
  {
    var time := ReadField(s, "event at t=", 10);
    if time.None? then None else
    var addr := ReadField(time.value.1, " DMA addr=0x", 16);
    if addr.None? then None else
    var size := ReadField(addr.value.1, " size=", 10);
    if size.None? then None else
    var what := ReadOperation(size.value.1);
    if what.None? then None else
    var val := ReadField(what.value.1, " val=0x", 16);
    if val.None? then None else
    Some((Op(addr.value.0, size.value.0, what.value.0, val.value.0), val.value.1))
  }

  lemma OperationRead(what: nat, rest: string)
    ensures ReadOperation(Operation(what) + rest) == Some((if what == 0 then 0 else 1, rest))
  {
    var s := Operation(what) + rest;
    LiteralRead(Operation(what), rest);
    if what != READ {
      assert s[4] == 'w' && " op=read"[4] == 'r';
    }
  }

  lemma HeaderRead(now: nat, op: Op, rest: string)
    requires rest == "" || !IsDigit(rest[0], 16)
    ensures ReadHeader(Header(now, op) + rest) == Some((Shown(op), rest))
  {
    hide Field, ReadField, Operation, ReadOperation;
    var a, b, c, e := Field("event at t=", now, 10), Field(" DMA addr=0x", U32(op.addr), 16),
      Field(" size=", op.len, 10),
      Field(" val=0x", op.val, 16);
    var d := Operation(op.what);
    assert Header(now, op) + rest == a + (b + (c + (d + (e + rest))));
    FieldRead(" val=0x", op.val, 16, rest);
    OperationRead(op.what, e + rest);
    Blank(op, e + rest);
    FieldRead(" size=", op.len, 10, d + (e + rest));
    FieldRead(" DMA addr=0x", U32(op.addr), 16, c + (d + (e + rest)));
    FieldRead("event at t=", now, 10, b + (c + (d + (e + rest))));
  }

  lemma Blank(op: Op, rest: string)
    ensures (Operation(op.what) + rest)[0] == ' '
    ensures forall r: string :: (Field(" size=", op.len, 10) + r)[0] == ' '
    ensures forall r: string :: (Field(" DMA addr=0x", U32(op.addr), 16) + r)[0] == ' '
  {
  }

  /** The operation that continues a line: same size and direction, at the next address. */
  function Following(prev: Op, val: nat): Op {
    prev.(addr := U32(prev.addr + prev.len), val := val)
  }

  // what the take command prints besides the reports
  const DONE := "done\n"
  const NO_COUNT := "Error: take what n=0.\n"

  /** Reads lines of reports and passes over those of the command; prev is the last operation of the line being read. */
  function Decode(s: string, prev: Option<Op>): Option<seq<Op>>
    decreases |s|
  {
    if s == "" then
      if prev.None? then Some([]) else None
    else if prev.None? && DONE <= s then Decode(s[|DONE|..], None)
    else if prev.None? && NO_COUNT <= s then Decode(s[|NO_COUNT|..], None)
    else if prev.None? then
      var h := ReadHeader(s);
      if h.None? then None else Prepend(h.value.0, Decode(h.value.1, Some(h.value.0)))
    else if s[0] == '\n' then Decode(s[1..], None)
    else
      var v := ReadField(s, " 0x", 16);
      if v.None? then None
      else
        var op := Following(prev.value, v.value.0);
        Prepend(op, Decode(v.value.1, Some(op)))
  }

  function Prepend(op: Op, rest: Option<seq<Op>>): Option<seq<Op>> {
    if rest.None? then None else Some([op] + rest.value)
  }

  /** The operation starts a new line after one of the given address, length and direction. */
  predicate NeedsHeader(op: Op, lastAddr: nat, lastLen: nat, lastWhat: nat) {
    op.len != lastLen || op.what != lastWhat || U32(op.addr) != U32(lastAddr + lastLen)
  }

  function Piece(op: Op, header: bool, first: bool, now: nat): string {
    if header then (if first then "" else "\n") + Header(now, op) else Field(" 0x", op.val, 16)
  }

  /** What is printed for the queue from its k-th operation on. */
  function TextFrom(q: seq<Op>, k: nat, lastAddr: nat, lastLen: nat, lastWhat: nat, first: bool, now: nat): string
    requires k <= |q|
    decreases |q| - k
  {
    if k == |q| then "\n"
    else
      var op := q[k];
      var header := NeedsHeader(op, lastAddr, lastLen, lastWhat);
      Piece(op, header, first, now) + TextFrom(q, k + 1, U32(op.addr), op.len, op.what, first && !header, now)
  }

  /** The report of a queue. */
  function Text(q: seq<Op>, now: nat): string {
    if q == [] then "" else TextFrom(q, 0, U32(q[0].addr), q[0].len, q[0].what, true, now)
  }

  // ---------- decoding what was printed ----------

  lemma NotADigit(s: string)
    requires s != "" && (s[0] == ' ' || s[0] == '\n')
    ensures !IsDigit(s[0], 16)
  {
  }

  /** Behind an operation the text goes on with a blank or a line feed. */
  lemma TextStarts(q: seq<Op>, k: nat, lastAddr: nat, lastLen: nat, lastWhat: nat, now: nat)
    requires k <= |q|
    ensures var t := TextFrom(q, k, lastAddr, lastLen, lastWhat, false, now); t != "" && (t[0] == ' ' || t[0] == '\n')
  {
    hide Header, Show;
  }

  /** From the second operation on every piece is read back. */
  lemma {:induction false} RestDecodes(q: seq<Op>, k: nat, now: nat, tail: string)
    requires 0 < k <= |q|
    ensures var prev := q[k - 1];
      var t := TextFrom(q, k, U32(prev.addr), prev.len, prev.what, false, now);
      Decode(t + tail, Some(Shown(prev))) == Appended(AllShown(q[k..]), Decode(tail, None))
    decreases |q| - k
  {
    hide Header, Field, ReadHeader, ReadField, TextFrom, Decode, Appended, Prepend, AllShown;
    if k == |q| {
      LineEnds(q, now, tail);
    } else {
      RestDecodes(q, k + 1, now, tail);
      PieceDecodes(q, k, now, tail);
      ShownStep(q, k, Decode(tail, None));
    }
  }

  function Appended(a: seq<Op>, b: Option<seq<Op>>): Option<seq<Op>> {
    if b.None? then None else Some(a + b.value)
  }

  lemma ShownStep(q: seq<Op>, k: nat, rest: Option<seq<Op>>)
    requires k < |q|
    ensures Prepend(Shown(q[k]), Appended(AllShown(q[k + 1..]), rest)) == Appended(AllShown(q[k..]), rest)
  {
    hide Shown;
    assert AllShown(q[k..]) == [Shown(q[k])] + AllShown(q[k + 1..]);
    if rest.Some? {
      assert [Shown(q[k])] + (AllShown(q[k + 1..]) + rest.value) == AllShown(q[k..]) + rest.value;
    }
  }

  lemma ShownNone(q: seq<Op>, k: nat, rest: Option<seq<Op>>)
    requires k == |q|
    ensures Appended(AllShown(q[k..]), rest) == rest
  {
    if rest.Some? {
      assert AllShown(q[k..]) + rest.value == rest.value;
    }
  }

  lemma LineEnds(q: seq<Op>, now: nat, tail: string)
    requires 0 < |q|
    ensures var prev := q[|q| - 1];
      var t := TextFrom(q, |q|, U32(prev.addr), prev.len, prev.what, false, now);
      Decode(t + tail, Some(Shown(prev))) == Appended(AllShown(q[|q|..]), Decode(tail, None))
  {
    hide ReadHeader, ReadField, Shown, Appended, AllShown, Prepend, Header;
    assert ("\n" + tail)[1..] == tail;
    ShownNone(q, |q|, Decode(tail, None));
  }

  lemma PieceDecodes(q: seq<Op>, k: nat, now: nat, tail: string)
    requires 0 < k < |q|
    ensures var prev, op := q[k - 1], q[k];
      var t := TextFrom(q, k, U32(prev.addr), prev.len, prev.what, false, now);
      var rest := TextFrom(q, k + 1, U32(op.addr), op.len, op.what, false, now);
      Decode(t + tail, Some(Shown(prev))) == Prepend(Shown(op), Decode(rest + tail, Some(Shown(op))))
  {
    hide Header, Field, ReadHeader, ReadField, Show, IsDigit;
    var prev, op := q[k - 1], q[k];
    var t := TextFrom(q, k, U32(prev.addr), prev.len, prev.what, false, now);
    var rest := TextFrom(q, k + 1, U32(op.addr), op.len, op.what, false, now);
    TextStarts(q, k + 1, U32(op.addr), op.len, op.what, now);
    NotADigit(rest + tail);
    if NeedsHeader(op, U32(prev.addr), prev.len, prev.what) {
      assert t + tail == "\n" + (Header(now, op) + (rest + tail));
      NewLine(now, op, rest + tail, Shown(prev));
    } else {
      assert t + tail == Field(" 0x", op.val, 16) + (rest + tail);
      SameLine(op, rest + tail, prev);
    }
  }

  lemma NewLine(now: nat, op: Op, rest: string, prev: Op)
    requires rest != "" && !IsDigit(rest[0], 16)
    ensures Decode("\n" + (Header(now, op) + rest), Some(prev)) == Prepend(Shown(op), Decode(rest, Some(Shown(op))))
  {
    hide Header, ReadHeader, ReadField, Shown, IsDigit;
    var h := Header(now, op) + rest;
    assert ("\n" + h)[1..] == h;
    FirstStep(now, op, rest);
  }

  lemma SameLine(op: Op, rest: string, prev: Op)
    requires rest != "" && !IsDigit(rest[0], 16) && !NeedsHeader(op, U32(prev.addr), prev.len, prev.what)
    ensures Decode(Field(" 0x", op.val, 16) + rest, Some(Shown(prev))) ==
            Prepend(Shown(op), Decode(rest, Some(Shown(op))))
  {
    hide Header, ReadHeader, ReadField, IsDigit, Show;
    FieldRead(" 0x", op.val, 16, rest);
    assert (Field(" 0x", op.val, 16) + rest)[0] == ' ';
    assert Following(Shown(prev), op.val) == Shown(op);
  }

  /** The report starts with a header, or there is none. */
  predicate Reads(q: seq<Op>) {
    q == [] || q[0].len != 0
  }

  /**
   * The report of a queue decodes to its operations, as far as a report shows them, if the queue is empty or its first
   * operation is not of length zero, and to nothing otherwise; whatever follows it is decoded next.
   */
  lemma TextDecodes(q: seq<Op>, now: nat, tail: string)
    requires forall op :: op in q ==> Fits(op)
    ensures Decode(Text(q, now) + tail, None) == if Reads(q) then Appended(AllShown(q), Decode(tail, None)) else None
  {
    hide Header, Field, ReadHeader, ReadField, Show;
    if q == [] {
      assert Text(q, now) + tail == tail;
      ShownNone(q, 0, Decode(tail, None));
      assert q[0..] == q;
    } else {
      assert q[0] in q;
      if q[0].len != 0 {
        FirstHasHeader(q[0]);
        FirstDecodes(q, now, tail);
      } else {
        NoHeader(q, now, tail);
      }
    }
  }

  lemma FirstHasHeader(op: Op)
    requires Fits(op)
    ensures NeedsHeader(op, U32(op.addr), op.len, op.what) <==> op.len != 0
  {
    var a := U32(op.addr);
    assert U32(a + op.len) == if a + op.len < TWO_32 then a + op.len else a + op.len - TWO_32;
  }

  lemma FirstStep(now: nat, op: Op, rest: string)
    requires rest != "" && !IsDigit(rest[0], 16)
    ensures Decode(Header(now, op) + rest, None) == Prepend(Shown(op), Decode(rest, Some(Shown(op))))
  {
    hide Header, ReadHeader, ReadField, Shown, IsDigit;
    assert (Header(now, op) + rest)[0] == 'e' by { HeaderStart(now, op, rest); }
    NotAMessage(Header(now, op) + rest);
    HeaderRead(now, op, rest);
  }

  lemma HeaderStart(now: nat, op: Op, rest: string)
    ensures (Header(now, op) + rest)[0] == 'e'
  {
    hide Show;
  }

  lemma NotAMessage(s: string)
    requires s != "" && (s[0] == 'e' || s[0] == ' ')
    ensures !(DONE <= s) && !(NO_COUNT <= s)
  {
    assert DONE[0] == 'd' && NO_COUNT[0] == 'E';
  }

  /** The lines of the take command are passed over. */
  lemma MessagesSkipped(tail: string)
    ensures Decode(DONE + tail, None) == Decode(tail, None)
    ensures Decode(NO_COUNT + tail, None) == Decode(tail, None)
  {
    hide ReadHeader, ReadField;
    assert (DONE + tail)[|DONE|..] == tail && (NO_COUNT + tail)[|NO_COUNT|..] == tail;
    assert DONE <= DONE + tail && NO_COUNT <= NO_COUNT + tail;
    assert (NO_COUNT + tail)[0] == 'E' && DONE[0] == 'd';
  }

  lemma FirstDecodes(q: seq<Op>, now: nat, tail: string)
    requires q != [] && NeedsHeader(q[0], U32(q[0].addr), q[0].len, q[0].what)
    ensures Decode(Text(q, now) + tail, None) == Appended(AllShown(q), Decode(tail, None))
  {
    hide Header, Field, ReadHeader, ReadField, Show, IsDigit, Shown, AllShown, Appended, Prepend, NeedsHeader;
    var op := q[0];
    var rest := TextFrom(q, 1, U32(op.addr), op.len, op.what, false, now);
    TextStarts(q, 1, U32(op.addr), op.len, op.what, now);
    NotADigit(rest + tail);
    assert Text(q, now) + tail == Header(now, op) + (rest + tail);
    FirstStep(now, op, rest + tail);
    RestDecodes(q, 1, now, tail);
    ShownStep(q, 0, Decode(tail, None));
    assert q[0..] == q;
  }

  lemma NoHeader(q: seq<Op>, now: nat, tail: string)
    requires q != [] && Fits(q[0]) && q[0].len == 0
    ensures Decode(Text(q, now) + tail, None) == None
  {
    hide Header, Show;
    FirstHasHeader(q[0]);
    var s := Text(q, now) + tail;
    assert s[0] == ' ';
    NotAMessage(s);
    assert "event at t="[0] == 'e';
  }

  // ---------- the queue ----------

  /** The batch: how many operations to collect, those collected, whether reports are on, what was printed, and exit. */
  datatype Machine = Machine(thisMany: nat, queue: seq<Op>, reporting: bool, log: string, exited: bool)

  const INITIAL := Machine(1, [], false, "", false)

  /** An operation at a time. */
  datatype Event = Event(op: Op, now: nat)

  /** What the debugger does: operations as they happen, posting, the take command with its operations, the switch. */
  datatype Command =
    | Dma(e: Event)
    | Post(now: nat)
    | Take(n: nat, events: seq<Event>, before: nat, after: nat)
    | Reporting(on: bool)

  function Posted(m: Machine, now: nat): Machine {
    if m.exited then m
    else m.(log := if m.reporting then m.log + Text(m.queue, now) else m.log, queue := [])
  }

  function Recorded(m: Machine, op: Op, now: nat): Machine {
    if m.exited then m
    else if m.thisMany == 0 || |m.queue| >= m.thisMany || |m.queue| >= BUFSIZE then m.(exited := true)
    else
      var next := m.(queue := m.queue + [op]);
      if |next.queue| >= m.thisMany then Posted(next, now) else next
  }

  /** Operations are reported only while reports are on. */
  function Happens(m: Machine, e: Event): Machine {
    if m.reporting then Recorded(m, e.op, e.now) else m
  }

  function AllHappen(m: Machine, events: seq<Event>): Machine
    decreases events
  {
    if events == [] then m else AllHappen(Happens(m, events[0]), events[1..])
  }

  function Taken(m: Machine, n: nat, events: seq<Event>, before: nat, after: nat): Machine {
    if m.exited then m
    else if n == 0 then m.(log := m.log + NO_COUNT)
    else
      var taken := AllHappen(Posted(m, before).(thisMany := n), events);
      if taken.exited then taken
      else
        var posted := Posted(taken.(thisMany := 1), after);
        if posted.reporting then posted.(log := posted.log + DONE) else posted
  }

  function Apply(m: Machine, c: Command): Machine {
    match c
    case Dma(e) => Happens(m, e)
    case Post(now) => Posted(m, now)
    case Take(n, events, before, after) => Taken(m, n, events, before, after)
    case Reporting(on) => if m.exited then m else m.(reporting := on)
  }

  function Run(m: Machine, cs: seq<Command>): Machine
    decreases cs
  {
    if cs == [] then m else Run(Apply(m, cs[0]), cs[1..])
  }

  // ---------- nothing is lost ----------

  /** Between commands nothing waits in the queue. */
  predicate Idle(m: Machine) {
    m.thisMany == 1 && m.queue == [] && !m.exited
  }

  lemma InitialIsIdle()
    ensures Idle(INITIAL) && !INITIAL.reporting && INITIAL.log == ""
  {
  }

  function Ops(events: seq<Event>): (r: seq<Op>)
    ensures |r| == |events|
    decreases events
  {
    if events == [] then [] else [events[0].op] + Ops(events[1..])
  }

  /** The operations that happen during commands while reports are on. */
  function Reported(on: bool, cs: seq<Command>): seq<Op>
    decreases cs
  {
    if cs == [] then []
    else
      match cs[0]
      case Dma(e) => (if on then [e.op] else []) + Reported(on, cs[1..])
      case Post(_) => Reported(on, cs[1..])
      case Take(n, events, _, _) => (if on && n != 0 then Ops(events) else []) + Reported(on, cs[1..])
      case Reporting(now) => Reported(now, cs[1..])
  }

  /** A batch of more than 512 operations that does get more of them overruns the queue. */
  predicate Overruns(on: bool, c: Command) {
    c.Take? && on && c.n > 512 && |c.events| > 512
  }

  predicate AnyOverruns(on: bool, cs: seq<Command>)
    decreases cs
  {
    cs != [] && (Overruns(on, cs[0]) || AnyOverruns(if cs[0].Reporting? then cs[0].on else on, cs[1..]))
  }

  /** The text of a batch: a report whenever n operations have come together, and one for the rest. */
  function BatchText(q: seq<Op>, n: nat, events: seq<Event>, after: nat): string
    decreases events
  {
    if events == [] then Text(q, after)
    else if |q| + 1 >= n then Text(q + [events[0].op], events[0].now) + BatchText([], n, events[1..], after)
    else BatchText(q + [events[0].op], n, events[1..], after)
  }

  /** The text of a command. */
  function CommandText(on: bool, c: Command): string {
    match c
    case Dma(e) => if on then Text([e.op], e.now) else ""
    case Take(n, events, _, after) =>
      if n == 0 then NO_COUNT else if on then BatchText([], n, events, after) + DONE else ""
    case _ => ""
  }

  /** The text of all commands. */
  function Output(on: bool, cs: seq<Command>): string
    decreases cs
  {
    if cs == [] then ""
    else CommandText(on, cs[0]) + Output(if cs[0].Reporting? then cs[0].on else on, cs[1..])
  }

  /** The batch exits exactly if it would put more than 512 operations into the queue. */
  lemma {:induction false} BatchRuns(m: Machine, events: seq<Event>, after: nat)
    requires !m.exited && m.reporting && |m.queue| < m.thisMany && |m.queue| <= BUFSIZE
    ensures var done := AllHappen(m, events);
      && done.reporting
      && (done.exited <==> m.thisMany > 512 && |m.queue| + |events| > 512)
      && (!done.exited ==> Posted(done.(thisMany := 1), after) ==
                           m.(thisMany := 1, queue := [], log := m.log + BatchText(m.queue, m.thisMany, events, after)))
    decreases events
  {
    hide Text;
    if events != [] {
      var e := events[0];
      var next := Happens(m, e);
      if !next.exited {
        BatchRuns(next, events[1..], after);
        if |m.queue| + 1 >= m.thisMany {
          assert m.log + Text(m.queue + [e.op], e.now) + BatchText([], m.thisMany, events[1..], after) ==
                 m.log + (Text(m.queue + [e.op], e.now) + BatchText([], m.thisMany, events[1..], after));
        }
      } else {
        StaysExited(next, events[1..]);
      }
    }
  }

  lemma {:induction false} StaysExited(m: Machine, events: seq<Event>)
    requires m.exited
    ensures AllHappen(m, events) == m
    decreases events
  {
    if events != [] {
      StaysExited(m, events[1..]);
    }
  }

  predicate AllFit(ops: seq<Op>) {
    forall op :: op in ops ==> Fits(op)
  }

  lemma ShownConcat(a: seq<Op>, b: seq<Op>)
    ensures AllShown(a + b) == AllShown(a) + AllShown(b)
  {
    hide Shown;
  }

  lemma AppendedTwice(a: seq<Op>, b: seq<Op>, rest: Option<seq<Op>>)
    ensures Appended(AllShown(a), Appended(AllShown(b), rest)) == Appended(AllShown(a + b), rest)
    ensures Appended(AllShown([]), rest) == rest
  {
    hide AllShown;
    ShownConcat(a, b);
    var none: seq<Op> := [];
    ShownNone(none, 0, rest);
    assert none[0..] == none;
    if rest.Some? {
      assert AllShown(a) + (AllShown(b) + rest.value) == AllShown(a + b) + rest.value;
    }
  }

  /** Every report of a batch starts with an operation that is not of length zero. */
  predicate BatchReads(q: seq<Op>, n: nat, events: seq<Event>)
    decreases events
  {
    if events == [] then Reads(q)
    else if |q| + 1 >= n then Reads(q + [events[0].op]) && BatchReads([], n, events[1..])
    else BatchReads(q + [events[0].op], n, events[1..])
  }

  predicate CommandReads(on: bool, c: Command) {
    match c
    case Dma(e) => on ==> Reads([e.op])
    case Take(n, events, _, _) => on && n != 0 ==> BatchReads([], n, events)
    case _ => true
  }

  /** Every report of a session does. */
  predicate AllRead(on: bool, cs: seq<Command>)
    decreases cs
  {
    cs == [] || (CommandReads(on, cs[0]) && AllRead(if cs[0].Reporting? then cs[0].on else on, cs[1..]))
  }

  lemma {:induction false} BatchDecodes(q: seq<Op>, n: nat, events: seq<Event>, after: nat, tail: string)
    requires AllFit(q) && AllFit(Ops(events))
    ensures Decode(BatchText(q, n, events, after) + tail, None) ==
            if BatchReads(q, n, events) then Appended(AllShown(q + Ops(events)), Decode(tail, None)) else None
    decreases events
  {
    hide Text, Decode, AllShown, Shown, Fits, Reads;
    if events == [] {
      assert q + [] == q;
      TextDecodes(q, after, tail);
    } else {
      var q' := q + [events[0].op];
      var ops := Ops(events[1..]);
      assert Ops(events) == [events[0].op] + ops;
      assert AllFit(ops) && AllFit(q') by { FitParts(q, events[0].op, ops, Ops(events)); }
      assert q + Ops(events) == q' + ops;
      if |q| + 1 >= n {
        BatchDecodes([], n, events[1..], after, tail);
        var rest := BatchText([], n, events[1..], after);
        assert [] + ops == ops;
        assert Text(q', events[0].now) + rest + tail == Text(q', events[0].now) + (rest + tail);
        TextDecodes(q', events[0].now, rest + tail);
        AppendedTwice(q', ops, Decode(tail, None));
      } else {
        BatchDecodes(q', n, events[1..], after, tail);
      }
    }
  }

  lemma FitParts(q: seq<Op>, op: Op, ops: seq<Op>, all: seq<Op>)
    requires AllFit(q) && AllFit(all) && all == [op] + ops
    ensures AllFit(ops) && AllFit(q + [op])
  {
    hide Fits;
    assert op == all[0] && op in all;
    forall o | o in ops ensures o in all {
      var i :| 0 <= i < |ops| && ops[i] == o;
      assert all[i + 1] == o;
    }
  }

  /**
   * Commands exit exactly if a batch overruns the queue; otherwise the queue is empty again at the end, and what has
   * been printed is the text of the reports.
   */
  lemma {:induction false} RunPrints(m: Machine, cs: seq<Command>)
    requires Idle(m)
    ensures Run(m, cs).exited <==> AnyOverruns(m.reporting, cs)
    ensures !Run(m, cs).exited ==> Idle(Run(m, cs)) && Run(m, cs).log == m.log + Output(m.reporting, cs)
    decreases cs
  {
    hide CommandText, Apply, Overruns, Idle;
    if cs == [] {
      assert m.log + "" == m.log;
      assert !m.exited by { IdleRuns(m); }
    } else {
      ApplyPrints(m, cs[0]);
      var next := Apply(m, cs[0]);
      if next.exited {
        RunExited(next, cs[1..]);
      } else {
        RunPrints(next, cs[1..]);
        assert m.log + (CommandText(m.reporting, cs[0]) + Output(next.reporting, cs[1..])) ==
               (m.log + CommandText(m.reporting, cs[0])) + Output(next.reporting, cs[1..]);
      }
    }
  }

  lemma IdleRuns(m: Machine)
    requires Idle(m)
    ensures !m.exited
  {
  }

  lemma ApplyPrints(m: Machine, c: Command)
    requires Idle(m)
    ensures var next := Apply(m, c);
      && (next.exited <==> Overruns(m.reporting, c))
      && next.reporting == (if c.Reporting? then c.on else m.reporting)
      && (!next.exited ==> Idle(next) && next.log == m.log + CommandText(m.reporting, c))
  {
    hide BatchText;
    assert m.log + "" == m.log && Text([], 0) == "";
    match c
    case Dma(e) =>
      assert m.queue + [e.op] == [e.op];
    case Take(n, events, before, after) =>
      if n != 0 {
        var start := Posted(m, before).(thisMany := n);
        assert start.log == m.log;
        if m.reporting {
          BatchRuns(start, events, after);
          assert m.log + BatchText([], n, events, after) + DONE == m.log + (BatchText([], n, events, after) + DONE);
        } else {
          NothingHappens(start, events);
        }
      }
    case _ =>
  }

  lemma {:induction false} NothingHappens(m: Machine, events: seq<Event>)
    requires !m.reporting
    ensures AllHappen(m, events) == m
    decreases events
  {
    if events != [] {
      NothingHappens(m, events[1..]);
    }
  }

  lemma {:induction false} RunExited(m: Machine, cs: seq<Command>)
    requires m.exited
    ensures Run(m, cs) == m
    decreases cs
  {
    if cs != [] {
      if cs[0].Dma? || cs[0].Post? {
        assert Apply(m, cs[0]) == m;
      }
      RunExited(m, cs[1..]);
    }
  }

  /**
   * The reports of a whole session decode to every operation that happened while reports were on, in order, if and only
   * if none of them starts with an operation of length zero.
   */
  lemma {:induction false} OutputDecodes(on: bool, cs: seq<Command>)
    requires AllFit(Reported(on, cs))
    ensures Decode(Output(on, cs), None) == if AllRead(on, cs) then Some(AllShown(Reported(on, cs))) else None
    decreases cs
  {
    hide Text, Decode, AllShown, Shown, Fits, BatchText, Appended, CommandReads;
    if cs == [] {
      NothingShown();
    } else {
      var c := cs[0];
      var on' := if c.Reporting? then c.on else on;
      var ops, rest := CommandOps(on, c), Reported(on', cs[1..]);
      assert Reported(on, cs) == ops + rest;
      assert AllFit(ops) && AllFit(rest) by { FitSplit(ops, rest); }
      OutputDecodes(on', cs[1..]);
      CommandDecodes(on, c, Output(on', cs[1..]));
      assert Output(on, cs) == CommandText(on, c) + Output(on', cs[1..]);
      ShownConcat(ops, rest);
      AppendedIs(ops, rest);
    }
  }

  lemma AppendedIs(a: seq<Op>, b: seq<Op>)
    ensures Appended(AllShown(a), Some(AllShown(b))) == Some(AllShown(a) + AllShown(b))
    ensures Appended(AllShown(a), None) == None
  {
  }

  /** In particular when no operation is of length zero. */
  lemma {:induction false} LengthsSuffice(on: bool, cs: seq<Command>)
    requires forall op :: op in Reported(on, cs) ==> op.len != 0
    ensures AllRead(on, cs)
    decreases cs
  {
    if cs != [] {
      var c := cs[0];
      var on' := if c.Reporting? then c.on else on;
      var ops, rest := CommandOps(on, c), Reported(on', cs[1..]);
      assert Reported(on, cs) == ops + rest;
      assert forall op :: op in ops || op in rest ==> op in ops + rest;
      LengthsSuffice(on', cs[1..]);
      if c.Take? && on && c.n != 0 {
        BatchLengths([], c.n, c.events);
      } else if c.Dma? && on {
        assert c.e.op in ops;
      }
    }
  }

  lemma {:induction false} BatchLengths(q: seq<Op>, n: nat, events: seq<Event>)
    requires (forall op :: op in q ==> op.len != 0) && forall op :: op in Ops(events) ==> op.len != 0
    ensures BatchReads(q, n, events)
    decreases events
  {
    if events == [] {
      assert q != [] ==> q[0] in q;
    } else {
      var op := events[0].op;
      assert Ops(events) == [op] + Ops(events[1..]);
      assert op in Ops(events) && forall o :: o in Ops(events[1..]) ==> o in Ops(events);
      assert (q + [op])[0] in q + [op];
      BatchLengths(if |q| + 1 >= n then [] else q + [op], n, events[1..]);
    }
  }

  lemma NothingShown()
    ensures Decode("", None) == Some(AllShown([]))
  {
    assert AllShown([]) == [];
  }

  lemma FitSplit(a: seq<Op>, b: seq<Op>)
    requires AllFit(a + b)
    ensures AllFit(a) && AllFit(b)
  {
    hide Fits;
    assert forall op :: op in a || op in b ==> op in a + b;
  }

  function CommandOps(on: bool, c: Command): seq<Op> {
    match c
    case Dma(e) => if on then [e.op] else []
    case Take(n, events, _, _) => if on && n != 0 then Ops(events) else []
    case _ => []
  }

  lemma CommandDecodes(on: bool, c: Command, tail: string)
    requires AllFit(CommandOps(on, c))
    ensures Decode(CommandText(on, c) + tail, None) ==
            if CommandReads(on, c) then Appended(AllShown(CommandOps(on, c)), Decode(tail, None)) else None
  {
    hide Text, Decode, Shown, Fits, BatchText, AllShown, Reads, Appended;
    AppendedTwice([], [], Decode(tail, None));
    MessagesSkipped(tail);
    assert "" + tail == tail;
    if c.Dma? && on {
      TextDecodes([c.e.op], c.e.now, tail);
    } else if c.Take? && on && c.n != 0 {
      var batch := BatchText([], c.n, c.events, c.after);
      assert batch + DONE + tail == batch + (DONE + tail);
      BatchDecodes([], c.n, c.events, c.after, DONE + tail);
      assert [] + Ops(c.events) == Ops(c.events);
    }
  }

  // ---------- the debugger's queue ----------

  class BatchDma {
    var thisMany: nat
    var qsize: nat
    const q: array<Op>
    var reporting: bool
    var log: string
    var exited: bool

    predicate Valid()
      reads this
    {
      q.Length == BUFSIZE && qsize <= BUFSIZE
    }

    function View(): Machine
      reads this, q
      requires Valid()
    {
      Machine(thisMany, q[..qsize], reporting, log, exited)
    }

    constructor ()
      ensures Valid() && fresh(q) && View() == INITIAL
    {
      thisMany, qsize, reporting, log, exited := 1, 0, false, "", false;
      q := new Op[BUFSIZE](_ => Op(0, 0, 0, 0));
    }

    /** bx_dbg_post_dma_reports */
    method PostReports(now: nat)
      requires Valid() && !exited
      modifies this
      ensures Valid() && View() == Posted(old(View()), now)
    {
      hide Text;
      if reporting {
        if qsize == 0 {
          assert log + Text(q[..0], now) == log by { NoText(log, q[..0], now); }
          return;
        }
        PrintLines(now);
      }
      qsize := 0;
    }

    /** Contiguous operations of the same length and direction go on one line. */
    method PrintLines(now: nat)
      requires Valid() && 0 < qsize
      modifies this`log
      ensures log == old(log) + Text(q[..qsize], now)
    {
      hide Header, Field, TextFrom, U32;
      ghost var queue := q[..qsize];
      ghost var all := log + Text(queue, now);
      var lastAddr, lastLen, lastWhat := U32(q[0].addr), q[0].len, q[0].what;
      var firstIteration := true;
      var i := 0;
      while i < qsize
        invariant 0 <= i <= qsize
        invariant log + TextFrom(queue, i, lastAddr, lastLen, lastWhat, firstIteration, now) == all
      {
        var op := q[i];
        assert op == queue[i];
        var addr, len, what, val := U32(op.addr), op.len, op.what, op.val;
        var printHeader;
        if len != lastLen {
          printHeader := true;
        } else if what != lastWhat {
          printHeader := true;
        } else if addr != U32(lastAddr + lastLen) {
          printHeader := true;
        } else {
          printHeader := false;
        }
        TextStep(log, queue, i, lastAddr, lastLen, lastWhat, firstIteration, now);
        lastAddr, lastLen, lastWhat := addr, len, what;
        if printHeader {
          if !firstIteration {
            log := log + "\n";
          } else {
            firstIteration := false;
          }
          log := log + Header(now, op);
        } else {
          log := log + Field(" 0x", val, 16);
        }
        i := i + 1;
      }
      TextEnd(log, queue, lastAddr, lastLen, lastWhat, firstIteration, now);
      log := log + "\n";
    }

    /** bx_dbg_dma_report */
    method DmaReport(op: Op, now: nat)
      requires Valid() && !exited
      modifies this, q
      ensures Valid() && View() == Recorded(old(View()), op, now)
      ensures exited <==> old(thisMany) == 0 || old(qsize) >= old(thisMany) || old(qsize) >= 512
    {
      hide Text;
      if thisMany == 0 || qsize >= thisMany || qsize >= BUFSIZE {
        exited := true;
        return;
      }
      qsize := qsize + 1;
      q[qsize - 1] := op;
      assert q[..qsize] == old(q[..qsize]) + [op];
      if qsize >= thisMany {
        PostReports(now);
      }
    }

    /** bx_dbg_take_command for DMA; the operations are those the devices perform while they are stepped. */
    method TakeCommand(n: nat, events: seq<Event>, before: nat, after: nat)
      requires Valid() && !exited
      modifies this, q
      ensures Valid() && View() == Taken(old(View()), n, events, before, after)
    {
      hide Posted, Happens;
      if n == 0 {
        log := log + NO_COUNT;
        return;
      }
      PostReports(before);
      assert View() == Posted(old(View()), before);
      thisMany := n;
      ghost var start := View();
      PostedStays(old(View()), before);
      var i := 0;
      while i < |events|
        invariant 0 <= i <= |events| && Valid() && !exited
        invariant AllHappen(View(), events[i..]) == AllHappen(start, events)
      {
        assert events[i..][0] == events[i] && events[i..][1..] == events[i + 1..];
        ghost var m := View();
        if reporting {
          DmaReport(events[i].op, events[i].now);
        }
        assert View() == Happens(m, events[i]) by { HappensIs(m, events[i]); }
        if exited {
          StaysExited(View(), events[i + 1..]);
          return;
        }
        i := i + 1;
      }
      thisMany := 1;
      ghost var taken := View();
      PostReports(after);
      PostedStays(taken, after);
      if reporting {
        log := log + DONE;
      }
    }
  }

  lemma PostedStays(m: Machine, now: nat)
    ensures Posted(m, now).exited == m.exited && Posted(m, now).reporting == m.reporting
  {
  }

  lemma HappensIs(m: Machine, e: Event)
    ensures Happens(m, e) == if m.reporting then Recorded(m, e.op, e.now) else m
  {
  }

  lemma NoText(log: string, q: seq<Op>, now: nat)
    requires q == []
    ensures log + Text(q, now) == log
  {
  }

  lemma TextEnd(log: string, q: seq<Op>, lastAddr: nat, lastLen: nat, lastWhat: nat, first: bool, now: nat)
    ensures log + TextFrom(q, |q|, lastAddr, lastLen, lastWhat, first, now) == log + "\n"
  {
  }

  lemma TextStep(log: string, q: seq<Op>, i: nat, lastAddr: nat, lastLen: nat, lastWhat: nat, first: bool, now: nat)
    requires i < |q|
    ensures var rest := TextFrom(q, i + 1, U32(q[i].addr), q[i].len, q[i].what,
                                 first && !NeedsHeader(q[i], lastAddr, lastLen, lastWhat), now);
      log + TextFrom(q, i, lastAddr, lastLen, lastWhat, first, now) ==
      if !NeedsHeader(q[i], lastAddr, lastLen, lastWhat) then log + Field(" 0x", q[i].val, 16) + rest
      else if first then log + Header(now, q[i]) + rest
      else log + "\n" + Header(now, q[i]) + rest
  {
    hide Header, Field, NeedsHeader, U32;
    var header := NeedsHeader(q[i], lastAddr, lastLen, lastWhat);
    var piece := Piece(q[i], header, first, now);
    var rest := TextFrom(q, i + 1, U32(q[i].addr), q[i].len, q[i].what, first && !header, now);
    assert TextFrom(q, i, lastAddr, lastLen, lastWhat, first, now) == piece + rest;
    hide TextFrom;
    Regroup(log, "", piece, rest);
    if header {
      Regroup(log, if first then "" else "\n", Header(now, q[i]), rest);
    }
  }

  lemma Regroup(a: string, b: string, c: string, d: string)
    ensures a + (b + c + d) == a + b + c + d
    ensures a + (c + d) == a + c + d
    ensures "" + c == c
  {
  }
}
