/** ATA devices in config.cc: the line the writer prints for one, and the settings its directive makes of it. */
module AtaDevice {
  import opened Common
  import opened Numerals
  import opened ConfigLine
  import opened ConfigFile

  // ---------- the written line ----------

  datatype Media =
    | Disk(mode: string, translation: string, path: string, cylinders: nat, heads: nat, spt: nat, journal: string)
    | CdRom(path: string, inserted: bool)

  datatype Device = Device(channel: nat, slave: bool, media: Media, biosdetect: string, model: string)

  function Decimal(n: nat): string {
    Show(n, 10)
  }

  function DeviceName(d: Device): string {
    "ata" + Decimal(d.channel) + "-" + if d.slave then "slave" else "master"
  }

  function MediaItems(m: Media): seq<Item> {
    match m
    case Disk(mode, translation, path, cylinders, heads, spt, journal) =>
      [Bare("type=disk"), Bare("mode=" + mode), Bare("translation=" + translation), Quoted("path", path),
       Bare("cylinders=" + Decimal(cylinders)), Bare("heads=" + Decimal(heads)), Bare("spt=" + Decimal(spt))]
      + if journal != "" then [Quoted("journal", journal)] else []
    case CdRom(path, inserted) =>
      [Bare("type=cdrom"), Quoted("path", path), Bare(if inserted then "status=inserted" else "status=ejected")]
  }

  function DeviceItems(d: Device): (items: seq<Item>)
    ensures items != [] && |items| <= 10
  {
    MediaItems(d.media) + [Bare("biosdetect=" + d.biosdetect), Quoted("model", d.model)]
  }

  /** bx_write_atadevice_options for a device that is present; the writer goes on in the line where it stands. */
  method WriteAtaDevice(d: Device) returns (fp: string)
    ensures fp == Print(DeviceName(d), DeviceItems(d)) + "\n"
  {
    hide Decimal, DeviceName, ItemText;
    ghost var name := DeviceName(d);
    fp := DeviceName(d) + ": ";
    match d.media {
      case Disk(mode, translation, path, cylinders, heads, spt, journal) =>
        fp := fp + ItemText(Bare("type=disk"));
        ghost var items := [Bare("type=disk")];
        AppendFirst(name, items[0]);
        fp, items := PrintNext(fp, name, items, Bare("mode=" + mode));
        fp, items := PrintNext(fp, name, items, Bare("translation=" + translation));
        fp, items := PrintNext(fp, name, items, Quoted("path", path));
        fp, items := PrintNext(fp, name, items, Bare("cylinders=" + Decimal(cylinders)));
        fp, items := PrintNext(fp, name, items, Bare("heads=" + Decimal(heads)));
        fp, items := PrintNext(fp, name, items, Bare("spt=" + Decimal(spt)));
        if journal != "" {
          fp, items := PrintNext(fp, name, items, Quoted("journal", journal));
        }
        assert items == MediaItems(d.media);
      case CdRom(path, inserted) =>
        fp := fp + ItemText(Bare("type=cdrom"));
        ghost var items := [Bare("type=cdrom")];
        AppendFirst(name, items[0]);
        fp, items := PrintNext(fp, name, items, Quoted("path", path));
        fp, items := PrintNext(fp, name, items, Bare(if inserted then "status=inserted" else "status=ejected"));
        assert items == MediaItems(d.media);
    }
    ghost var items := MediaItems(d.media);
    fp, items := PrintNext(fp, name, items, Bare("biosdetect=" + d.biosdetect));
    fp, items := PrintNext(fp, name, items, Quoted("model", d.model));
    assert items == DeviceItems(d);
    fp := fp + "\n";
  }

  /** A further parameter: a comma, a blank and its text. */
  method PrintNext(fp: string, ghost name: string, ghost items: seq<Item>, item: Item)
    returns (fp': string, ghost items': seq<Item>)
    requires items != [] && fp == Print(name, items)
    ensures items' == items + [item] && fp' == Print(name, items + [item])
  {
    hide ItemText;
    fp' := fp + ", " + ItemText(item);
    items' := items + [item];
    AppendItem(items, item);
    assert fp + ", " + ItemText(item) == name + ":" + (ItemsText(items) + ", " + ItemText(item));
  }

  lemma AppendFirst(name: string, item: Item)
    ensures name + ": " + ItemText(item) == Print(name, [item])
  {
    hide ItemText;
    assert ItemsText([item]) == " " + ItemText(item) + "";
  }

  ghost predicate PrintableDevice(d: Device) {
    forall i :: 0 <= i < |DeviceItems(d)| ==> Printable(DeviceItems(d)[i])
  }

  lemma {:induction false} DecimalOrdinary(n: nat)
    ensures forall c :: c in Decimal(n) ==> Ordinary(c) && c != ':'
  {
    ShowReads(n, 10);
  }

  lemma DeviceNamePrintable(d: Device)
    ensures PrintableName(DeviceName(d))
  {
    hide Decimal;
    DecimalOrdinary(d.channel);
    var a, b, c := "ata", Decimal(d.channel) + "-", if d.slave then "slave" else "master";
    assert forall x :: x in a ==> Ordinary(x) && x != ':';
    assert forall x :: x in b ==> Ordinary(x) && x != ':';
    assert forall x :: x in c ==> Ordinary(x) && x != ':';
    assert DeviceName(d) == a + b + c;
  }

  /**
   * The line of a device is read back as its name and its parameters exactly if it has at most 510 characters and the
   * path, the model and a journal's name survive.
   */
  lemma DeviceReadsBack(d: Device, env: Env)
    requires PrintableDevice(d)
    ensures var line := Print(DeviceName(d), DeviceItems(d));
      ReadFile(line + "\n", env) == [Params([DeviceName(d)] + AllMeant(DeviceItems(d)))] <==>
      && |line| <= 510
      && Survives(d.media.path) && Survives(d.model) && (d.media.Disk? ==> Survives(d.media.journal))
  {
    hide ReadFile, Print, Printable, DeviceName, Survives, AllMeant;
    DeviceNamePrintable(d);
    PrintEnd(DeviceName(d), DeviceItems(d));
    FileRoundTrip(DeviceName(d), DeviceItems(d), env);
    QuotedValues(d);
  }

  lemma QuotedValues(d: Device)
    ensures var items := DeviceItems(d);
      (forall i :: 0 <= i < |items| && items[i].Quoted? ==> Survives(items[i].value)) <==>
      Survives(d.media.path) && Survives(d.model) && (d.media.Disk? ==> Survives(d.media.journal))
  {
    hide Survives, Decimal;
    var items := DeviceItems(d);
    EmptySurvives();
    assert items[|items| - 1] == Quoted("model", d.model);
    match d.media {
      case Disk(mode, translation, path, cylinders, heads, spt, journal) =>
        assert items[3] == Quoted("path", path);
        assert journal != "" ==> items[7] == Quoted("journal", journal);
      case CdRom(path, inserted) =>
        assert items[1] == Quoted("path", path);
    }
  }

  lemma EmptySurvives()
    ensures Survives("")
  {
  }

  /** What the line of a device takes besides its quoted values. */
  function Overhead(d: Device): nat {
    |DeviceName(d)| + 23 + |d.biosdetect| +
    match d.media
    case Disk(mode, translation, _, cylinders, heads, spt, journal) =>
      67 + |mode| + |translation| + |Decimal(cylinders)| + |Decimal(heads)| + |Decimal(spt)| +
      (if journal != "" then 12 else 0)
    case CdRom(_, inserted) => if inserted then 38 else 37
  }

  /** The room a line leaves to path, model and journal together. */
  lemma DeviceRoom(d: Device)
    ensures |Print(DeviceName(d), DeviceItems(d))| <= 510 <==>
            |d.media.path| + |d.model| + (if d.media.Disk? then |d.media.journal| else 0) <= 510 - Overhead(d)
  {
    hide DeviceName, Decimal, ItemsText;
    var items := DeviceItems(d);
    LengthOfText(items);
    LengthOfBoth(MediaItems(d.media), items[|items| - 2..]);
    LengthOfMedia(d.media);
    LengthOfEnd(d);
    assert items == MediaItems(d.media) + items[|items| - 2..];
  }

  /** The length of the parameters, each with a comma or the colon, and a blank. */
  function Length(items: seq<Item>): nat
    decreases items
  {
    if items == [] then 0 else 2 + |ItemText(items[0])| + Length(items[1..])
  }

  lemma {:induction false} LengthOfText(items: seq<Item>)
    requires items != []
    ensures 1 + |ItemsText(items)| == Length(items)
    decreases items
  {
    hide ItemText;
    if |items| > 1 {
      LengthOfText(items[1..]);
    }
  }

  lemma {:induction false} LengthOfBoth(a: seq<Item>, b: seq<Item>)
    ensures Length(a + b) == Length(a) + Length(b)
    decreases a
  {
    hide ItemText;
    if a == [] {
      assert a + b == b;
    } else {
      assert (a + b)[1..] == a[1..] + b;
      LengthOfBoth(a[1..], b);
    }
  }

  lemma LengthOfEach(items: seq<Item>, item: Item)
    ensures Length([]) == 0 && Length(items + [item]) == Length(items) + 2 + |ItemText(item)|
  {
    hide ItemText;
    LengthOfBoth(items, [item]);
  }

  lemma LengthOfEnd(d: Device)
    ensures Length([Bare("biosdetect=" + d.biosdetect), Quoted("model", d.model)]) == 23 + |d.biosdetect| + |d.model|
  {
    LengthOfEach([], Bare("biosdetect=" + d.biosdetect));
    LengthOfEach([Bare("biosdetect=" + d.biosdetect)], Quoted("model", d.model));
  }

  lemma LengthOfMedia(m: Media)
    ensures Length(MediaItems(m)) == |m.path| +
            match m
            case Disk(mode, translation, _, cylinders, heads, spt, journal) =>
              67 + |mode| + |translation| + |Decimal(cylinders)| + |Decimal(heads)| + |Decimal(spt)| +
              (if journal != "" then 12 + |journal| else 0)
            case CdRom(_, inserted) => if inserted then 38 else 37
  {
    hide Decimal, Length;
    var items := MediaItems(m);
    LengthOfThree(items);
    if m.Disk? {
      LengthOfThree(items[3..]);
      LengthFirst(items[6..]);
      assert items[3..][3..] == items[6..] && items[6..][1..] == items[7..];
      assert items[7..] == if m.journal != "" then [Quoted("journal", m.journal)] else [];
      LengthOfEach([], Quoted("journal", m.journal));
      assert [] + [Quoted("journal", m.journal)] == [Quoted("journal", m.journal)];
    } else {
      LengthOfEach([], items[0]);
      assert items[3..] == [];
    }
  }

  lemma LengthFirst(items: seq<Item>)
    requires items != []
    ensures Length(items) == 2 + |ItemText(items[0])| + Length(items[1..])
  {
  }

  lemma LengthOfThree(items: seq<Item>)
    requires 3 <= |items|
    ensures Length(items) ==
            6 + |ItemText(items[0])| + |ItemText(items[1])| + |ItemText(items[2])| + Length(items[3..])
  {
    hide ItemText, Length;
    LengthFirst(items);
    LengthFirst(items[1..]);
    LengthFirst(items[2..]);
    assert items[1..][1..] == items[2..] && items[2..][1..] == items[3..];
  }

  /** A CD-ROM whose line is cut: every value would survive, but what is read is not one directive. */
  lemma LongCdRom(d: Device, env: Env)
    requires PrintableDevice(d) && d.media.CdRom? && |d.media.path| == 400 && |d.model| == 200
    requires ',' !in d.media.path && ',' !in d.model && '\n' !in d.media.path && '\n' !in d.model
    ensures Survives(d.media.path) && Survives(d.model)
    ensures var line := Print(DeviceName(d), DeviceItems(d));
      2 <= |Lines(line + "\n")| &&
      ReadFile(line + "\n", env) != [Params([DeviceName(d)] + AllMeant(DeviceItems(d)))]
  {
    hide ReadFile, Print, Printable, DeviceName, AllMeant, Lines;
    NoCommasSurvive(d.media.path);
    NoCommasSurvive(d.model);
    DeviceRoom(d);
    DeviceReadsBack(d, env);
    DeviceNamePrintable(d);
    PrintChars(DeviceName(d), DeviceItems(d));
    BrokenLine(Print(DeviceName(d), DeviceItems(d)));
  }

  lemma NoCommasSurvive(value: string)
    requires ',' !in value && '\n' !in value
    ensures Survives(value)
  {
  }

  // ---------- the directive ----------

  /** The parameters of one slot of a channel. */
  datatype Settings = Settings(present: bool, kind: string, path: string, mode: string, inserted: bool,
    journal: string, cylinders: nat, heads: nat, spt: nat, model: string, biosdetect: string, translation: string)

  const PATH_MAX := 511
  const MODEL_MAX := 40
  const KINDS := ["disk", "cdrom"]
  const MODES := ["flat", "concat", "external", "dll", "sparse", "vmware3", "vmware4", "undoable", "growing",
                  "volatile", "vvfat", "vpc"]
  const DETECTIONS := ["none", "auto", "cmos"]
  const TRANSLATIONS := ["none", "lba", "large", "rechs", "auto"]

  /** What a string parameter keeps. */
  function Cut(s: string, max: nat): string {
    if max < |s| then s[..max] else s
  }

  predicate IsDecimal(c: char) {
    '0' <= c <= '9'
  }

  function Digits(s: string): (n: nat)
    ensures n <= |s|
  {
    if s != "" && IsDecimal(s[0]) then 1 + Digits(s[1..]) else 0
  }

  /** atol, as an unsigned word: blanks, a sign, digits, and whatever is behind them. */
  function Atol(s: string): (n: nat) {
    if s != "" && IsSpace(s[0]) then Atol(s[1..])
    else if s != "" && s[0] == '-' then U32(-(Value(s[1..][..Digits(s[1..])], 10) as int))
    else if s != "" && s[0] == '+' then U32(Value(s[1..][..Digits(s[1..])], 10))
    else U32(Value(s[..Digits(s)], 10))
  }

  /** What a directive has come to: the settings so far, and what is only set when all parameters have been read. */
  datatype Work = Work(settings: Settings, kind: Option<string>, mode: string, biosdetect: string,
    cylinders: nat, heads: nat, sectors: nat)

  /** One parameter; no value is an error. */
  function Apply(p: string, w: Work): Option<Work> {
    if "type=" <= p then (if p[5..] in KINDS then Some(w.(kind := Some(p[5..]))) else None)
    else if "mode=" <= p then (if p[5..] in MODES then Some(w.(mode := p[5..])) else None)
    else if "path=" <= p then Some(w.(settings := w.settings.(path := Cut(p[5..], PATH_MAX))))
    else if "cylinders=" <= p then Some(w.(cylinders := Atol(p[10..])))
    else if "heads=" <= p then Some(w.(heads := Atol(p[6..])))
    else if "spt=" <= p then Some(w.(sectors := Atol(p[4..])))
    else if "model=" <= p then Some(w.(settings := w.settings.(model := Cut(p[6..], MODEL_MAX))))
    else if "biosdetect=" <= p then
      (if p[11..] in DETECTIONS then Some(w.(biosdetect := p[11..])) else None)
    else if "translation=" <= p then
      var t := if p[12..] == "echs" then "large" else p[12..];
      (if t in TRANSLATIONS then Some(w.(settings := w.settings.(translation := t))) else None)
    else if p == "status=ejected" then Some(w.(settings := w.settings.(inserted := false)))
    else if p == "status=inserted" then Some(w.(settings := w.settings.(inserted := true)))
    else if "journal=" <= p then Some(w.(settings := w.settings.(journal := Cut(p[8..], PATH_MAX))))
    else None
  }

  function ApplyAll(params: seq<string>, w: Work): Option<Work>
    decreases params
  {
    if params == [] then Some(w)
    else
      match Apply(params[0], w)
      case None => None
      case Some(w') => ApplyAll(params[1..], w')
  }

  /** The end of a directive without errors. */
  function Conclude(w: Work): Settings {
    match w.kind
    case None => w.settings.(present := false)
    case Some(kind) =>
      var s := w.settings.(kind := kind, biosdetect := w.biosdetect);
      if kind != "disk" then s.(present := true)
      else if s.path == "" then s.(present := false)
      else
        var auto := w.cylinders == 0 && w.heads == 0 && w.sectors == 0;
        s.(present := true, mode := w.mode, cylinders := w.cylinders,
           heads := if auto then 16 else w.heads, spt := if auto then 63 else w.sectors)
  }

  /** The slot a directive is about. */
  function SlotOf(name: string): Option<(nat, bool)> {
    if |name| <= 4 || !("ata" <= name) || !('0' <= name[3] <= '3') then None
    else if name[4..] == "-slave" then Some(((name[3] - '0') as nat, true))
    else if name[4..] == "-master" then Some(((name[3] - '0') as nat, false))
    else None
  }

  /** The settings of the slot after its directive, if there is no error. */
  function Configured(params: seq<string>, was: Settings): Option<Settings> {
    match ApplyAll(params, Work(was, None, "flat", "auto", 0, 0, 0))
    case None => None
    case Some(w) => Some(Conclude(w))
  }

  // ---------- written and read ----------

  lemma {:induction false} DigitsOf(s: string, rest: string)
    requires (forall i :: 0 <= i < |s| ==> IsDecimal(s[i])) && (rest == "" || !('0' <= rest[0] <= '9'))
    ensures Digits(s + rest) == |s|
    decreases s
  {
    if s == "" {
      assert s + rest == rest;
    } else {
      assert (s + rest)[1..] == s[1..] + rest;
      DigitsOf(s[1..], rest);
    }
  }

  /** Numbers are read as they were printed, whatever is behind them, with a sign or without one. */
  lemma DecimalReads(n: nat, rest: string)
    requires n < TWO_32 && (rest == "" || !('0' <= rest[0] <= '9'))
    ensures Atol(Decimal(n) + rest) == Atol("+" + (Decimal(n) + rest)) == n
    ensures Atol("-" + (Decimal(n) + rest)) == (0x1_0000_0000 - n) % 0x1_0000_0000
  {
    hide Decimal, Atol, Value;
    DecimalDigits(n);
    var s := Decimal(n);
    DigitsOf(s, rest);
    var t := s + rest;
    assert t[..|s|] == s && t[0] == s[0];
    assert ("+" + t)[1..] == t && ("-" + t)[1..] == t;
    AtolOf(t);
    AtolOf("+" + t);
    AtolOf("-" + t);
  }

  lemma DecimalDigits(n: nat)
    ensures var s := Decimal(n); s != "" && Value(s, 10) == n && forall i :: 0 <= i < |s| ==> IsDecimal(s[i])
  {
    hide Show, Value;
    ShowReads(n, 10);
    var s := Decimal(n);
    forall i | 0 <= i < |s| ensures IsDecimal(s[i]) {
      assert IsDigit(s[i], 10);
    }
  }

  lemma AtolOf(s: string)
    requires s != ""
    ensures IsDecimal(s[0]) ==> Atol(s) == U32(Value(s[..Digits(s)], 10))
    ensures s[0] == '+' ==> Atol(s) == U32(Value(s[1..][..Digits(s[1..])], 10))
    ensures s[0] == '-' ==> Atol(s) == U32(-(Value(s[1..][..Digits(s[1..])], 10) as int))
  {
    hide Value, Digits;
  }

  /** Blanks in front of a number are skipped. */
  lemma BlankSkipped(c: char, s: string)
    requires c in " \t\n\U{b}\U{c}\r"
    ensures Atol([c] + s) == Atol(s)
  {
    BlankIsSpace(c);
    assert ([c] + s)[1..] == s;
  }

  lemma KindApplies(v: string, w: Work)
    requires v in KINDS
    ensures Apply("type=" + v, w) == Some(w.(kind := Some(v)))
  {
    var p := "type=" + v;
    assert p[..5] == "type=" && p[5..] == v;
    assert p[0] == 't';
  }

  lemma ModeApplies(v: string, w: Work)
    requires v in MODES
    ensures Apply("mode=" + v, w) == Some(w.(mode := v))
  {
    var p := "mode=" + v;
    assert p[..5] == "mode=" && p[5..] == v;
    assert p[0] == 'm' && p[4] == '=';
  }

  lemma PathApplies(v: string, w: Work)
    ensures Apply("path=" + v, w) ==
            Some(w.(settings := w.settings.(path := if |v| <= 511 then v else v[..511])))
  {
    var p := "path=" + v;
    assert p[..5] == "path=" && p[5..] == v;
    assert p[0] == 'p';
  }

  lemma JournalApplies(v: string, w: Work)
    ensures Apply("journal=" + v, w) ==
            Some(w.(settings := w.settings.(journal := if |v| <= 511 then v else v[..511])))
  {
    var p := "journal=" + v;
    assert p[..8] == "journal=" && p[8..] == v;
    assert p[0] == 'j';
  }

  lemma ModelApplies(v: string, w: Work)
    ensures Apply("model=" + v, w) ==
            Some(w.(settings := w.settings.(model := if |v| <= 40 then v else v[..40])))
  {
    var p := "model=" + v;
    assert p[..6] == "model=" && p[6..] == v;
    assert p[0] == 'm' && p[4] == 'l';
  }

  lemma DetectionApplies(v: string, w: Work)
    requires v in DETECTIONS
    ensures Apply("biosdetect=" + v, w) == Some(w.(biosdetect := v))
  {
    var p := "biosdetect=" + v;
    assert p[..11] == "biosdetect=" && p[11..] == v;
    assert p[0] == 'b';
  }

  lemma TranslationApplies(v: string, w: Work)
    requires v in TRANSLATIONS
    ensures Apply("translation=" + v, w) == Some(w.(settings := w.settings.(translation := v)))
  {
    var p := "translation=" + v;
    assert p[..12] == "translation=" && p[12..] == v;
    assert p[0] == 't' && p[1] == 'r';
    assert "echs"[0] == 'e' && "none"[0] == 'n' && "auto"[0] == 'a';
    assert v != "echs";
  }

  /** The one value with two names. */
  lemma EchsIsLarge(w: Work)
    ensures Apply("translation=echs", w) == Some(w.(settings := w.settings.(translation := "large")))
  {
    hide Cut, Atol;
    var p := "translation=echs";
    assert p[12..] == "echs" && p[0] == 't' && p[1] == 'r';
    assert "type="[1] == 'y';
  }

  lemma NumbersApply(n: nat, w: Work)
    requires n < TWO_32
    ensures Apply("cylinders=" + Decimal(n), w) == Some(w.(cylinders := n))
    ensures Apply("heads=" + Decimal(n), w) == Some(w.(heads := n))
    ensures Apply("spt=" + Decimal(n), w) == Some(w.(sectors := n))
  {
    hide Decimal, Atol;
    DecimalReads(n, "");
    var v := Decimal(n);
    assert v + "" == v;
    var c, h, t := "cylinders=" + v, "heads=" + v, "spt=" + v;
    assert c[..10] == "cylinders=" && c[10..] == v && c[0] == 'c';
    assert h[..6] == "heads=" && h[6..] == v && h[0] == 'h';
    assert t[..4] == "spt=" && t[4..] == v && t[0] == 's' && t[1] == 'p';
  }

  lemma StatusApplies(inserted: bool, w: Work)
    ensures Apply(if inserted then "status=inserted" else "status=ejected", w) ==
            Some(w.(settings := w.settings.(inserted := inserted)))
  {
    var p := if inserted then "status=inserted" else "status=ejected";
    assert p[0] == 's' && p[1] == 't' && p[7] == if inserted then 'i' else 'e';
    hide Cut, Atol;
    assert "status=ejected"[7] == 'e';
    NotKeys(p);
  }

  lemma NotKeys(p: string)
    requires 2 <= |p| && p[0] == 's' && p[1] == 't'
    ensures !("type=" <= p) && !("mode=" <= p) && !("path=" <= p) && !("cylinders=" <= p) && !("heads=" <= p)
    ensures !("spt=" <= p) && !("model=" <= p) && !("biosdetect=" <= p) && !("translation=" <= p)
  {
    assert "spt="[1] == 'p' && "type="[0] == 't' && "mode="[0] == 'm' && "path="[0] == 'p' && "cylinders="[0] == 'c';
    assert "heads="[0] == 'h' && "model="[0] == 'm' && "biosdetect="[0] == 'b' && "translation="[0] == 't';
  }

  lemma KindsApply(w: Work)
    ensures Apply("type=disk", w) == Some(w.(kind := Some("disk")))
    ensures Apply("type=cdrom", w) == Some(w.(kind := Some("cdrom")))
  {
    KindApplies("disk", w);
    KindApplies("cdrom", w);
    assert "type=" + "disk" == "type=disk" && "type=" + "cdrom" == "type=cdrom";
  }

  /** The values a slot can hold. */
  predicate Holdable(d: Device) {
    && d.channel < 4 && |d.media.path| <= 511 && |d.model| <= 40 && d.biosdetect in ["none", "auto", "cmos"]
    && match d.media
       case Disk(mode, translation, _, cylinders, heads, spt, journal) =>
         && mode in ["flat", "concat", "external", "dll", "sparse", "vmware3", "vmware4", "undoable", "growing",
                     "volatile", "vvfat", "vpc"]
         && translation in ["none", "lba", "large", "rechs", "auto"] && |journal| <= 511
         && cylinders < TWO_32 && heads < TWO_32 && spt < TWO_32
       case CdRom(_, _) => true
  }

  lemma ApplyAt(items: seq<Item>, k: nat, w: Work)
    requires k < |items|
    ensures ApplyAll(AllMeant(items[k..]), w) ==
            match Apply(Meaning(items[k]), w)
            case None => None
            case Some(w') => ApplyAll(AllMeant(items[k + 1..]), w')
  {
    hide Apply, Meaning;
    var params := AllMeant(items[k..]);
    assert params[0] == Meaning(items[k]) && params[1..] == AllMeant(items[k + 1..]);
  }

  lemma NothingApplies(w: Work)
    ensures ApplyAll(AllMeant([]), w) == Some(w)
  {
  }

  /** The last two parameters. */
  lemma EndApplies(d: Device, items: seq<Item>, k: nat, w: Work)
    requires Holdable(d) && |items| == k + 2
    requires items[k..] == [Bare("biosdetect=" + d.biosdetect), Quoted("model", d.model)]
    ensures ApplyAll(AllMeant(items[k..]), w) ==
            Some(w.(biosdetect := d.biosdetect, settings := w.settings.(model := d.model)))
  {
    hide Apply, ApplyAll;
    assert items[k] == items[k..][0] && items[k + 1] == items[k..][1] && items[k + 2..] == [];
    ApplyAt(items, k, w);
    DetectionApplies(d.biosdetect, w);
    var w1 := w.(biosdetect := d.biosdetect);
    ApplyAt(items, k + 1, w1);
    ModelApplies(d.model, w1);
    assert "model" + "=" + d.model == "model=" + d.model;
    NothingApplies(w1.(settings := w1.settings.(model := d.model)));
  }

  /** What the parameters from the k-th on make of it. */
  function Rest(d: Device, k: nat, w: Work): Option<Work>
    requires k <= |DeviceItems(d)|
  {
    ApplyAll(AllMeant(DeviceItems(d)[k..]), w)
  }

  lemma RestOfAll(d: Device, w: Work)
    ensures ApplyAll(AllMeant(DeviceItems(d)), w) == Rest(d, 0, w)
  {
    hide ApplyAll;
    assert DeviceItems(d)[0..] == DeviceItems(d);
  }

  /** The items of a CD-ROM by their places. */
  lemma CdRomItems(d: Device)
    requires d.media.CdRom?
    ensures var items := DeviceItems(d);
      && |items| == 5 && items[0] == Bare("type=cdrom") && items[1] == Quoted("path", d.media.path)
      && items[2] == Bare(if d.media.inserted then "status=inserted" else "status=ejected")
      && items[3..] == [Bare("biosdetect=" + d.biosdetect), Quoted("model", d.model)]
  {
  }

  /** The items of a disk by their places. */
  lemma DiskItems(d: Device)
    requires d.media.Disk?
    ensures var items, m := DeviceItems(d), d.media;
      var n := if m.journal == "" then 7 else 8;
      && |items| == n + 2 && items[0] == Bare("type=disk") && items[1] == Bare("mode=" + m.mode)
      && items[2] == Bare("translation=" + m.translation) && items[3] == Quoted("path", m.path)
      && items[4] == Bare("cylinders=" + Decimal(m.cylinders)) && items[5] == Bare("heads=" + Decimal(m.heads))
      && items[6] == Bare("spt=" + Decimal(m.spt)) && (m.journal != "" ==> items[7] == Quoted("journal", m.journal))
      && items[n..] == [Bare("biosdetect=" + d.biosdetect), Quoted("model", d.model)]
  {
    hide Decimal;
  }

  lemma CdRomKind(d: Device, w: Work)
    requires Holdable(d) && d.media.CdRom?
    ensures Rest(d, 0, w) == Rest(d, 1, w.(kind := Some("cdrom")))
  {
    hide Apply, ApplyAll, Decimal, DeviceItems, AllMeant;
    var items, m := DeviceItems(d), d.media;
    assert 0 < |items| && items[0] == Bare("type=cdrom") by {
      CdRomItems(d);
    }
    ApplyAt(items, 0, w);
    KindsApply(w);
  }

  lemma CdRomPath(d: Device, w: Work)
    requires Holdable(d) && d.media.CdRom?
    ensures Rest(d, 1, w) == Rest(d, 2, w.(settings := w.settings.(path := d.media.path)))
  {
    hide Apply, ApplyAll, Decimal, DeviceItems, AllMeant;
    var items, m := DeviceItems(d), d.media;
    assert 1 < |items| && items[1] == Quoted("path", m.path) by {
      CdRomItems(d);
    }
    ApplyAt(items, 1, w);
    PathApplies(m.path, w);
    assert "path" + "=" + m.path == "path=" + m.path;
  }

  lemma CdRomStatus(d: Device, w: Work)
    requires Holdable(d) && d.media.CdRom?
    ensures Rest(d, 2, w) == Rest(d, 3, w.(settings := w.settings.(inserted := d.media.inserted)))
  {
    hide Apply, ApplyAll, Decimal, DeviceItems, AllMeant;
    var items, m := DeviceItems(d), d.media;
    assert 2 < |items| && items[2] == Bare(if m.inserted then "status=inserted" else "status=ejected") by {
      CdRomItems(d);
    }
    ApplyAt(items, 2, w);
    StatusApplies(m.inserted, w);
  }

  lemma DiskKind(d: Device, w: Work)
    requires Holdable(d) && d.media.Disk?
    ensures Rest(d, 0, w) == Rest(d, 1, w.(kind := Some("disk")))
  {
    hide Apply, ApplyAll, Decimal, DeviceItems, AllMeant;
    var items, m := DeviceItems(d), d.media;
    assert 0 < |items| && items[0] == Bare("type=disk") by {
      DiskItems(d);
    }
    ApplyAt(items, 0, w);
    KindsApply(w);
  }

  lemma DiskMode(d: Device, w: Work)
    requires Holdable(d) && d.media.Disk?
    ensures Rest(d, 1, w) == Rest(d, 2, w.(mode := d.media.mode))
  {
    hide Apply, ApplyAll, Decimal, DeviceItems, AllMeant;
    var items, m := DeviceItems(d), d.media;
    assert 1 < |items| && items[1] == Bare("mode=" + m.mode) by {
      DiskItems(d);
    }
    ApplyAt(items, 1, w);
    ModeApplies(m.mode, w);
  }

  lemma DiskTranslation(d: Device, w: Work)
    requires Holdable(d) && d.media.Disk?
    ensures Rest(d, 2, w) == Rest(d, 3, w.(settings := w.settings.(translation := d.media.translation)))
  {
    hide Apply, ApplyAll, Decimal, DeviceItems, AllMeant;
    var items, m := DeviceItems(d), d.media;
    assert 2 < |items| && items[2] == Bare("translation=" + m.translation) by {
      DiskItems(d);
    }
    ApplyAt(items, 2, w);
    TranslationApplies(m.translation, w);
  }

  lemma DiskPath(d: Device, w: Work)
    requires Holdable(d) && d.media.Disk?
    ensures Rest(d, 3, w) == Rest(d, 4, w.(settings := w.settings.(path := d.media.path)))
  {
    hide Apply, ApplyAll, Decimal, DeviceItems, AllMeant;
    var items, m := DeviceItems(d), d.media;
    assert 3 < |items| && items[3] == Quoted("path", m.path) by {
      DiskItems(d);
    }
    ApplyAt(items, 3, w);
    PathApplies(m.path, w);
    assert "path" + "=" + m.path == "path=" + m.path;
  }

  lemma DiskCylinders(d: Device, w: Work)
    requires Holdable(d) && d.media.Disk?
    ensures Rest(d, 4, w) == Rest(d, 5, w.(cylinders := d.media.cylinders))
  {
    hide Apply, ApplyAll, Decimal, DeviceItems, AllMeant;
    var items, m := DeviceItems(d), d.media;
    assert 4 < |items| && items[4] == Bare("cylinders=" + Decimal(m.cylinders)) by {
      DiskItems(d);
    }
    ApplyAt(items, 4, w);
    NumbersApply(m.cylinders, w);
  }

  lemma DiskHeads(d: Device, w: Work)
    requires Holdable(d) && d.media.Disk?
    ensures Rest(d, 5, w) == Rest(d, 6, w.(heads := d.media.heads))
  {
    hide Apply, ApplyAll, Decimal, DeviceItems, AllMeant;
    var items, m := DeviceItems(d), d.media;
    assert 5 < |items| && items[5] == Bare("heads=" + Decimal(m.heads)) by {
      DiskItems(d);
    }
    ApplyAt(items, 5, w);
    NumbersApply(m.heads, w);
  }

  lemma DiskSectors(d: Device, w: Work)
    requires Holdable(d) && d.media.Disk?
    ensures Rest(d, 6, w) == Rest(d, 7, w.(sectors := d.media.spt))
  {
    hide Apply, ApplyAll, Decimal, DeviceItems, AllMeant;
    var items, m := DeviceItems(d), d.media;
    assert 6 < |items| && items[6] == Bare("spt=" + Decimal(m.spt)) by {
      DiskItems(d);
    }
    ApplyAt(items, 6, w);
    NumbersApply(m.spt, w);
  }

  lemma DiskJournal(d: Device, w: Work)
    requires Holdable(d) && d.media.Disk? && d.media.journal != ""
    ensures Rest(d, 7, w) == Rest(d, 8, w.(settings := w.settings.(journal := d.media.journal)))
  {
    hide Apply, ApplyAll, Decimal, DeviceItems, AllMeant;
    var items, m := DeviceItems(d), d.media;
    assert 7 < |items| && items[7] == Quoted("journal", m.journal) by {
      DiskItems(d);
    }
    ApplyAt(items, 7, w);
    JournalApplies(m.journal, w);
    assert "journal" + "=" + m.journal == "journal=" + m.journal;
  }

  /** Every parameter of a device is one that the directive takes. */
  lemma CdRomApplies(d: Device, w: Work)
    requires Holdable(d) && d.media.CdRom?
    ensures ApplyAll(AllMeant(DeviceItems(d)), w) ==
            Some(w.(kind := Some("cdrom"), biosdetect := d.biosdetect,
                    settings := w.settings.(path := d.media.path, inserted := d.media.inserted, model := d.model)))
  {
    CdRomItems(d);
    hide ApplyAll, DeviceItems, AllMeant, Holdable;
    RestOfAll(d, w);
    CdRomKind(d, w);
    var w1 := w.(kind := Some("cdrom"));
    CdRomPath(d, w1);
    var w2 := w1.(settings := w1.settings.(path := d.media.path));
    CdRomStatus(d, w2);
    EndApplies(d, DeviceItems(d), 3, w2.(settings := w2.settings.(inserted := d.media.inserted)));
  }

  lemma DiskApplies(d: Device, w: Work)
    requires Holdable(d) && d.media.Disk?
    ensures var m := d.media;
      ApplyAll(AllMeant(DeviceItems(d)), w) ==
      Some(w.(kind := Some("disk"), mode := m.mode, biosdetect := d.biosdetect,
              cylinders := m.cylinders, heads := m.heads, sectors := m.spt,
              settings := w.settings.(path := m.path, translation := m.translation, model := d.model,
                                      journal := if m.journal == "" then w.settings.journal else m.journal)))
  {
    DiskItems(d);
    hide ApplyAll, DeviceItems, AllMeant, Decimal, Rest, Holdable;
    RestOfAll(d, w);
    DiskKind(d, w);
    var w1 := w.(kind := Some("disk"));
    DiskMode(d, w1);
    var w2 := w1.(mode := d.media.mode);
    DiskTranslation(d, w2);
    var w3 := w2.(settings := w2.settings.(translation := d.media.translation));
    DiskPath(d, w3);
    GeometryApplies(d, w3.(settings := w3.settings.(path := d.media.path)));
  }

  lemma GeometryApplies(d: Device, w: Work)
    requires Holdable(d) && d.media.Disk? && 4 <= |DeviceItems(d)|
    ensures var m := d.media;
      Rest(d, 4, w) ==
      Some(w.(biosdetect := d.biosdetect, cylinders := m.cylinders, heads := m.heads, sectors := m.spt,
              settings := w.settings.(model := d.model,
                                      journal := if m.journal == "" then w.settings.journal else m.journal)))
  {
    DiskItems(d);
    hide ApplyAll, DeviceItems, AllMeant, Decimal, Holdable;
    DiskCylinders(d, w);
    var w1 := w.(cylinders := d.media.cylinders);
    DiskHeads(d, w1);
    var w2 := w1.(heads := d.media.heads);
    DiskSectors(d, w2);
    var w3 := w2.(sectors := d.media.spt);
    if d.media.journal == "" {
      EndApplies(d, DeviceItems(d), 7, w3);
    } else {
      DiskJournal(d, w3);
      EndApplies(d, DeviceItems(d), 8, w3.(settings := w3.settings.(journal := d.media.journal)));
    }
  }

  /** The slot is set to the device. */
  ghost predicate SetTo(s: Settings, d: Device) {
    && s.present && s.path == d.media.path && s.model == d.model && s.biosdetect == d.biosdetect
    && match d.media
       case Disk(mode, translation, _, cylinders, heads, spt, journal) =>
         && s.kind == "disk" && s.mode == mode && s.translation == translation && s.journal == journal
         && s.cylinders == cylinders && s.heads == heads && s.spt == spt
       case CdRom(_, inserted) => s.kind == "cdrom" && s.inserted == inserted
  }

  /**
   The parameters written for a device set the slot of its name to it; a disk exactly if it has a path, does not have
   the geometry 0/0/0 that stands for autodetection, and a journal that is not written was not set before.
   */
  lemma DeviceConfigures(d: Device, was: Settings)
    requires Holdable(d)
    ensures SlotOf(DeviceName(d)) == Some((d.channel, d.slave))
    ensures var r := Configured(AllMeant(DeviceItems(d)), was);
      r.Some? && (SetTo(r.value, d) <==> (d.media.Disk? ==>
        && d.media.path != "" && !(d.media.cylinders == d.media.heads == d.media.spt == 0)
        && (d.media.journal == "" ==> was.journal == "")))
    ensures d.media.Disk? ==>
      var r := Configured(AllMeant(DeviceItems(d)), was).value;
      && (r.present <==> d.media.path != "")
      && (r.present && d.media.cylinders == d.media.heads == d.media.spt == 0 ==>
            r.cylinders == 0 && r.heads == 16 && r.spt == 63)
  {
    hide ApplyAll, DeviceName, DeviceItems;
    SlotIsRead(d);
    var w := Work(was, None, "flat", "auto", 0, 0, 0);
    if d.media.Disk? {
      DiskApplies(d, w);
    } else {
      CdRomApplies(d, w);
    }
  }

  /** Without a type the device is switched off. */
  lemma {:induction false} NoTypeIsAbsent(params: seq<string>, was: Settings)
    requires forall p :: p in params ==> !("type=" <= p)
    ensures var r := Configured(params, was); r.Some? ==> !r.value.present
  {
    hide Apply;
    KindStays(params, Work(was, None, "flat", "auto", 0, 0, 0));
  }

  lemma {:induction false} KindStays(params: seq<string>, w: Work)
    requires forall p :: p in params ==> !("type=" <= p)
    ensures var r := ApplyAll(params, w); r.Some? ==> r.value.kind == w.kind
    decreases params
  {
    if params != [] {
      assert params[0] in params && forall p :: p in params[1..] ==> p in params;
      hide Atol, Cut;
      var r := Apply(params[0], w);
      if r.Some? {
        assert r.value.kind == w.kind;
        hide Apply;
        KindStays(params[1..], r.value);
      }
    }
  }

  /** A name is taken for that of a slot only if it is written like one. */
  lemma SlotIsNamed(name: string)
    ensures var r := SlotOf(name);
      r.Some? ==> r.value.0 < 4 &&
                  name == "ata" + ['0' + r.value.0 as char] + if r.value.1 then "-slave" else "-master"
  {
    if SlotOf(name).Some? {
      assert name == name[..3] + [name[3]] + name[4..];
    }
  }

  lemma SlotIsRead(d: Device)
    requires d.channel < 4
    ensures SlotOf(DeviceName(d)) == Some((d.channel, d.slave))
  {
    var name := DeviceName(d);
    assert Decimal(d.channel) == ['0' + d.channel as char];
    assert name[..3] == "ata" && name[3] == '0' + d.channel as char;
    assert name[4..] == if d.slave then "-slave" else "-master";
    assert "-slave"[1] == 's' && "-master"[1] == 'm';
  }

  /**
   From the settings of a device to a configuration file and back: its line is read as one directive, of the device's
   own slot, that sets it to what it was.
   */
  lemma DeviceSurvivesFile(d: Device, was: Settings, env: Env)
    requires PrintableDevice(d) && Holdable(d) && |Print(DeviceName(d), DeviceItems(d))| <= 510
    requires Survives(d.media.path) && Survives(d.model)
    requires d.media.Disk? ==>
      && Survives(d.media.journal) && d.media.path != "" && (d.media.journal == "" ==> was.journal == "")
      && !(d.media.cylinders == d.media.heads == d.media.spt == 0)
    ensures var name, params := DeviceName(d), AllMeant(DeviceItems(d));
      && ReadFile(Print(name, DeviceItems(d)) + "\n", env) == [Params([name] + params)]
      && SlotOf(name) == Some((d.channel, d.slave))
      && Configured(params, was).Some? && SetTo(Configured(params, was).value, d)
  {
    hide ReadFile, Print, DeviceName, DeviceItems, Survives, Configured, SetTo, SlotOf, PrintableDevice;
    DeviceReadsBack(d, env);
    DeviceConfigures(d, was);
  }

  // ---------- the slot ----------

  /** The parameters of one slot, as the directive sets them. */
  class AtaSlot {
    var settings: Settings

    constructor (settings: Settings)
      ensures this.settings == settings
    {
      this.settings := settings;
    }

    /** The ataX-master/slave branch of parse_line_formatted, behind the check of its name. */
    method Parse(params: seq<string>) returns (ok: bool)
      modifies this
      ensures ok <==> Configured(params, old(settings)).Some?
      ensures ok ==> settings == Configured(params, old(settings)).value
    {
      hide Atol;
      var kind: Option<string>, mode, biosdetect := None, "flat", "auto";
      var cylinders, heads, sectors := 0, 0, 0;
      ghost var start := Work(settings, None, "flat", "auto", 0, 0, 0);
      assert params[0..] == params;
      var i := 0;
      while i < |params|
        invariant 0 <= i <= |params|
        invariant ApplyAll(params, start) ==
                  ApplyAll(params[i..], Work(settings, kind, mode, biosdetect, cylinders, heads, sectors))
      {
        var p := params[i];
        assert params[i..][0] == p && params[i..][1..] == params[i + 1..];
        if "type=" <= p {
          if p[5..] !in KINDS {
            return false;
          }
          kind := Some(p[5..]);
        } else if "mode=" <= p {
          if p[5..] !in MODES {
            return false;
          }
          mode := p[5..];
        } else if "path=" <= p {
          settings := settings.(path := Cut(p[5..], PATH_MAX));
        } else if "cylinders=" <= p {
          cylinders := Atol(p[10..]);
        } else if "heads=" <= p {
          heads := Atol(p[6..]);
        } else if "spt=" <= p {
          sectors := Atol(p[4..]);
        } else if "model=" <= p {
          settings := settings.(model := Cut(p[6..], MODEL_MAX));
        } else if "biosdetect=" <= p {
          if p[11..] !in DETECTIONS {
            return false;
          }
          biosdetect := p[11..];
        } else if "translation=" <= p {
          var t := if p[12..] == "echs" then "large" else p[12..];
          if t !in TRANSLATIONS {
            return false;
          }
          settings := settings.(translation := t);
        } else if p == "status=ejected" {
          settings := settings.(inserted := false);
        } else if p == "status=inserted" {
          settings := settings.(inserted := true);
        } else if "journal=" <= p {
          settings := settings.(journal := Cut(p[8..], PATH_MAX));
        } else {
          return false;
        }
        i := i + 1;
      }
      if kind.None? {
        settings := settings.(present := false);
        return true;
      }
      settings := settings.(kind := kind.value, biosdetect := biosdetect);
      if kind.value == "disk" {
        if |settings.path| > 0 {
          settings := settings.(present := true, mode := mode, cylinders := cylinders);
          if cylinders == 0 && heads == 0 && sectors == 0 {
            settings := settings.(heads := 16, spt := 63);
          } else {
            settings := settings.(heads := heads, spt := sectors);
          }
        } else {
          settings := settings.(present := false);
        }
      } else {
        settings := settings.(present := true);
      }
      return true;
    }
  }
}
