/** The line reader of parse_bochsrc in config.cc, and written lines read back from a file. */
module ConfigFile {
  import opened Common
  import opened ConfigLine

  // line[512] as fgets(line, sizeof(line) - 1, fd) fills it, without the terminator
  const MOST := 510

  // ---------- the reader ----------

  /** How much fgets takes: up to a newline and with it, or what is left, but never more than fits. */
  function Taken(text: string): (n: nat)
    requires text != ""
    ensures 0 < n <= |text| && n <= MOST
  {
    var n := Span(text, '\n');
    if n < |text| && n < MOST then n + 1 else if |text| <= MOST then |text| else MOST
  }

  /** line[len - 1] < ' ' for a signed char. */
  predicate IsControl(c: char) {
    c as int < 32 || 128 <= c as int
  }

  /** The string in the buffer, without a last control character. */
  function Stripped(piece: string): string {
    var s := CString(piece);
    if s != "" && IsControl(s[|s| - 1]) then s[..|s| - 1] else s
  }

  /** A line that fits; one that only just does must not end in a control character, which is taken for the newline. */
  predicate Fits(line: string)
    requires line != ""
  {
    |line| < 510 || (|line| == 510 && 32 <= line[|line| - 1] as int < 128)
  }

  /** What is handed to parse_line_unformatted, piece by piece; empty ones are passed over. */
  function Lines(text: string): seq<string>
    decreases |text|
  {
    if text == "" then []
    else
      var n := Taken(text);
      var line := Stripped(text[..n]);
      (if line == "" then [] else [line]) + Lines(text[n..])
  }

  predicate Fails(r: Outcome) {
    r.Panic? || r.OutOfBounds?
  }

  /** What becomes of the lines, up to the first that fails. */
  function Outcomes(lines: seq<string>, env: Env): seq<Outcome>
    decreases lines
  {
    if lines == [] then []
    else
      var r := Tokenize(lines[0], env);
      if Fails(r) then [r] else [r] + Outcomes(lines[1..], env)
  }

  function ReadFile(text: string, env: Env): seq<Outcome> {
    Outcomes(Lines(text), env)
  }

  // ---------- lines and pieces ----------

  lemma NewlineAt(a: string, b: string)
    requires '\n' !in a
    ensures Span(a + ("\n" + b), '\n') == |a|
  {
    SpanOf(a, "\n" + b, '\n');
  }

  lemma LinesFirst(text: string, n: nat)
    requires text != "" && n == Taken(text)
    ensures var line := Stripped(text[..n]); Lines(text) == (if line == "" then [] else [line]) + Lines(text[n..])
  {
    hide Stripped, Taken;
  }

  lemma NewlineIsControl()
    ensures IsControl('\n')
  {
  }

  /** The newline, or another control character at the end, is dropped. */
  lemma StrippedLine(line: string, c: char)
    requires NUL !in line && c != NUL && IsControl(c)
    ensures Stripped(line + [c]) == line
  {
    hide IsControl, CString;
    NoNulCut(line + [c]);
    assert (line + [c])[..|line|] == line;
  }

  lemma LoneNewline(rest: string)
    ensures Lines("\n" + rest) == Lines(rest)
  {
    hide CString, Span, Lines, Stripped;
    NewlineAt("", rest);
    assert "" + ("\n" + rest) == "\n" + rest;
    assert ("\n" + rest)[..1] == "" + "\n" && ("\n" + rest)[1..] == rest;
    NewlineIsControl();
    StrippedLine("", '\n');
    LinesFirst("\n" + rest, 1);
    assert [] + Lines(rest) == Lines(rest);
  }

  /** A line that fits and has no newline in it is handed on as it is, and the reader goes on behind it. */
  lemma WholeLine(line: string, rest: string)
    requires line != "" && '\n' !in line && NUL !in line && Fits(line)
    ensures Lines(line + "\n" + rest) == [line] + Lines(rest)
  {
    hide Lines, Stripped;
    if |line| < MOST {
      ShortLine(line, rest);
    } else {
      LineOfMost(line, rest);
    }
  }

  lemma ShortLine(line: string, rest: string)
    requires line != "" && '\n' !in line && NUL !in line && |line| < MOST
    ensures Lines(line + "\n" + rest) == [line] + Lines(rest)
  {
    hide CString, Span, Lines, Stripped, IsControl;
    var text := line + "\n" + rest;
    assert text == line + ("\n" + rest);
    NewlineAt(line, rest);
    assert text[..|line| + 1] == line + "\n" && text[|line| + 1..] == rest;
    NewlineIsControl();
    StrippedLine(line, '\n');
    LinesFirst(text, |line| + 1);
  }

  lemma LineOfMost(line: string, rest: string)
    requires '\n' !in line && NUL !in line && |line| == MOST
    ensures Lines(line + "\n" + rest) == [Stripped(line)] + Lines(rest)
    ensures Stripped(line) == if IsControl(line[|line| - 1]) then line[..|line| - 1] else line
  {
    hide CString, Span, Lines, IsControl;
    var text := line + "\n" + rest;
    assert text == line + ("\n" + rest);
    NewlineAt(line, rest);
    assert text[..MOST] == line && text[MOST..] == "\n" + rest;
    NoNulCut(line);
    LinesFirst(text, MOST);
    LoneNewline(rest);
  }

  /** Behind a newline the reader starts anew. */
  lemma {:induction false} LinesConcat(a: string, b: string)
    requires a == "" || a[|a| - 1] == '\n'
    ensures Lines(a + b) == Lines(a) + Lines(b)
    decreases |a|
  {
    hide Stripped, Lines, Taken;
    if a == "" {
      assert a + b == b;
      NoLines();
      assert [] + Lines(b) == Lines(b);
    } else {
      var n := Taken(a);
      TakenPrefix(a, b);
      LinesFirst(a, n);
      LinesFirst(a + b, n);
      assert (a + b)[..n] == a[..n] && (a + b)[n..] == a[n..] + b;
      LinesConcat(a[n..], b);
      var first := if Stripped(a[..n]) == "" then [] else [Stripped(a[..n])];
      assert (first + Lines(a[n..])) + Lines(b) == first + (Lines(a[n..]) + Lines(b));
    }
  }

  lemma NoLines()
    ensures Lines("") == []
  {
  }

  lemma {:induction false} TakenPrefix(a: string, b: string)
    requires a != "" && a[|a| - 1] == '\n'
    ensures Taken(a + b) == Taken(a)
  {
    var n := Span(a, '\n');
    var last := |a| - 1;
    assert n <= last by {
      assert '\n' in a[..|a|] by { assert a[..|a|][last] == '\n'; }
    }
    assert a + b == a[..n] + (a[n..] + b);
    SpanOf(a[..n], a[n..] + b, '\n');
  }

  /** Text that has a character other than a newline in front of its last newline makes some line. */
  lemma {:induction false} SomeLine(u: string, x: char)
    requires NUL !in u && x != '\n' && x != NUL
    ensures Lines(u + [x] + "\n") != []
    decreases |u|
  {
    hide Stripped, Taken, Lines;
    var text := u + [x] + "\n";
    var n := Taken(text);
    LinesFirst(text, n);
    if n <= |u| {
      assert text[n..] == u[n..] + [x] + "\n";
      SomeLine(u[n..], x);
    } else {
      LastPiece(u, x);
    }
  }

  /** The piece with that character is not empty: a newline behind it is dropped first, and a piece without is long. */
  lemma {:induction false} LastPiece(u: string, x: char)
    requires NUL !in u && x != '\n' && x != NUL
    requires |u| < Taken(u + [x] + "\n")
    ensures Stripped((u + [x] + "\n")[..Taken(u + [x] + "\n")]) != ""
  {
    hide CString, IsControl;
    var text := u + [x] + "\n";
    var n := Taken(text);
    assert 2 <= n by {
      var at := Span(text, '\n');
      assert text[|u|] == x && at != |u|;
    }
    assert NUL !in text[..n];
    StrippedNotEmpty(text[..n]);
  }

  /** A line that does not fit, or has a newline in it, makes at least two lines. */
  lemma BrokenLine(line: string)
    requires 2 <= |line| && NUL !in line && '\n' !in line[..2] && line[|line| - 1] != '\n'
    requires '\n' in line || MOST < |line|
    ensures 2 <= |Lines(line + "\n")|
  {
    hide Taken, Stripped, Lines;
    var text := line + "\n";
    var n := Taken(text);
    FirstPiece(line);
    assert NUL !in text[..n];
    StrippedNotEmpty(text[..n]);
    LinesFirst(text, n);
    var u, x := line[n..|line| - 1], line[|line| - 1];
    assert text[n..] == u + [x] + "\n";
    SomeLine(u, x);
  }

  lemma StrippedNotEmpty(piece: string)
    requires NUL !in piece && 2 <= |piece|
    ensures Stripped(piece) != ""
  {
    hide CString, IsControl;
    NoNulCut(piece);
  }

  lemma FirstPiece(line: string)
    requires 2 <= |line| && '\n' !in line[..2] && line[|line| - 1] != '\n'
    requires '\n' in line || MOST < |line|
    ensures 2 <= Taken(line + "\n") < |line|
  {
    var text := line + "\n";
    var n := Span(text, '\n');
    assert n < |line| ==> line[n] == '\n';
    assert line[0] in line[..2] && line[1] in line[..2];
    if '\n' in line {
      var k :| 0 <= k < |line| && line[k] == '\n';
      assert text[..k + 1][k] == '\n';
      assert n <= k by {
        assert forall j :: 0 <= j < n ==> text[..n][j] in text[..n];
      }
    }
  }

  /** Reading ends with the first line that fails, and not before. */
  lemma {:induction false} FailureEnds(before: seq<string>, line: string, after: seq<string>, env: Env)
    requires forall l :: l in before ==> !Tokenize(l, env).Panic? && !Tokenize(l, env).OutOfBounds?
    ensures var r, all := Tokenize(line, env), Outcomes(before + [line] + after, env);
      && |before| < |all| && all[|before|] == r
      && (forall i :: 0 <= i < |before| ==> all[i] == Tokenize(before[i], env))
      && if r.Panic? || r.OutOfBounds? then |all| == |before| + 1
         else all[|before| + 1..] == Outcomes(after, env)
    decreases before
  {
    hide Tokenize;
    var lines := before + [line] + after;
    if before == [] {
      assert lines == [line] + after && lines[1..] == after;
    } else {
      assert lines[0] == before[0] && before[0] in before && lines[1..] == before[1..] + [line] + after;
      FailureEnds(before[1..], line, after, env);
    }
  }

  /** Two lines or more are not read as a single directive. */
  lemma SeveralOutcomes(lines: seq<string>, env: Env, params: seq<string>)
    requires 2 <= |lines|
    ensures Outcomes(lines, env) != [Params(params)]
  {
    hide Tokenize;
    var rest := lines[1..];
    assert Outcomes(rest, env) != [];
  }

  // ---------- written lines ----------

  /** No piece of a parameter is as long as its line. */
  lemma {:induction false} MeaningsAreShort(items: seq<Item>)
    ensures forall i :: 0 <= i < |items| ==> |Meaning(items[i])| < |ItemsText(items)|
    decreases items
  {
    hide Meaning, ItemText;
    if items != [] {
      MeaningsAreShort(items[1..]);
      assert |Meaning(items[0])| <= |ItemText(items[0])| by { MeaningIsShort(items[0]); }
      forall i | 0 < i < |items| ensures |Meaning(items[i])| < |ItemsText(items)| {
        assert items[i] == items[1..][i - 1];
      }
    }
  }

  lemma MeaningIsShort(item: Item)
    ensures |Meaning(item)| <= |ItemText(item)|
  {
  }

  /** Characters of a printed line: no NUL, and a newline only inside of a value. */
  lemma {:induction false} ItemsTextChars(items: seq<Item>)
    requires forall i :: 0 <= i < |items| ==> Printable(items[i])
    ensures NUL !in ItemsText(items)
    ensures '\n' in ItemsText(items) <==> exists i :: 0 <= i < |items| && items[i].Quoted? && '\n' in items[i].value
    decreases items
  {
    hide Printable, ItemText;
    if items != [] {
      var rest := items[1..];
      ItemsTextChars(rest);
      ItemTextChars(items[0]);
      assert forall i :: 0 <= i < |rest| ==> rest[i] == items[i + 1];
      if i :| 0 <= i < |items| && items[i].Quoted? && '\n' in items[i].value {
        assert i > 0 ==> items[i] == rest[i - 1];
      }
    }
  }

  lemma ItemTextChars(item: Item)
    requires Printable(item)
    ensures NUL !in ItemText(item)
    ensures '\n' in ItemText(item) <==> item.Quoted? && '\n' in item.value
  {
  }

  lemma PrintChars(name: string, items: seq<Item>)
    requires PrintableName(name) && items != [] && forall i :: 0 <= i < |items| ==> Printable(items[i])
    ensures var line := Print(name, items);
      && 2 <= |line| && NUL !in line && '\n' !in line[..2] && line[|line| - 1] != '\n'
      && ('\n' in line <==> exists i :: 0 <= i < |items| && items[i].Quoted? && '\n' in items[i].value)
  {
    hide ItemsText, Printable;
    ItemsTextChars(items);
    ItemsTextEnd(items);
    var line := Print(name, items);
    assert NUL !in name && '\n' !in name;
    assert line[..2] == (name + ":")[..2];
    assert '\n' !in name + ":";
    assert line[|line| - 1] == ItemsText(items)[|ItemsText(items)| - 1];
    assert '\n' in line <==> '\n' in ItemsText(items);
  }

  lemma {:induction false} ItemsTextEnd(items: seq<Item>)
    requires items != [] && forall i :: 0 <= i < |items| ==> Printable(items[i])
    ensures var t, last := ItemsText(items), items[|items| - 1];
      t != "" && t[|t| - 1] != '\n' && (last.Quoted? ==> t[|t| - 1] == '"')
  {
    hide Printable, ItemText, ItemsText;
    var k := |items| - 1;
    assert items == items[..k] + [items[k]];
    LastItem(items[..k], items[k]);
    ItemTextEnd(items[k]);
  }

  lemma ItemTextEnd(item: Item)
    requires Printable(item)
    ensures var t := ItemText(item); t != "" && t[|t| - 1] != '\n' && (item.Quoted? ==> t[|t| - 1] == '"')
  {
    if item.Bare? {
      assert item.text[|item.text| - 1] in item.text;
    }
  }

  // ---------- a line that fits but for its last character ----------

  /** The items without the last character of a bare one at the end, of which nothing may be left. */
  function Clipped(items: seq<Item>): seq<Item>
    requires items != [] && items[|items| - 1].Bare? && items[|items| - 1].text != ""
  {
    var k := |items| - 1;
    items[..k] + [Bare(items[k].text[..|items[k].text| - 1])]
  }

  lemma {:induction false} ClippedText(items: seq<Item>)
    requires items != [] && items[|items| - 1].Bare? && items[|items| - 1].text != ""
    ensures ItemsText(items) != "" && ItemsText(Clipped(items)) == ItemsText(items)[..|ItemsText(items)| - 1]
  {
    hide ItemsText;
    var k := |items| - 1;
    var t := items[k].text;
    var before := if k == 0 then " " else ItemsText(items[..k]) + ", ";
    LastItem(items[..k], Bare(t));
    LastItem(items[..k], Bare(t[..|t| - 1]));
    assert items == items[..k] + [Bare(t)];
    assert (before + t)[..|before + t| - 1] == before + t[..|t| - 1];
  }

  /** A blank behind the last comma is no parameter. */
  lemma {:induction false} EmptyEnd(line: string, items: seq<Item>, text: string, params: seq<string>, env: Env)
    requires items != [] && items[|items| - 1] == Bare("")
    requires forall i :: 0 <= i < |items| - 1 ==> Printable(items[i])
    ensures var r := Continue(line, ItemsText(items), text, false, params, env);
      r.Params? ==> |r.params| < |params| + |items|
    decreases items
  {
    hide ItemText, Printable, ReadBack, CString, Continue, ItemsText;
    if |items| == 1 {
      assert ItemsText([Bare("")]) == " " by { LastItem([], Bare("")); EmptyItem(); }
      assert items == [Bare("")];
      BlankEnd(line, text, params, env);
    } else {
      FirstItem(line, items, text, params, env);
      var first := ReadBack(items[0]);
      EmptyEnd(line, items[1..], first, params + [first], env);
    }
  }

  lemma EmptyItem()
    ensures ItemText(Bare("")) == "" && [] + [Bare("")] == [Bare("")]
  {
  }

  lemma BlankEnd(line: string, text: string, params: seq<string>, env: Env)
    ensures Continue(line, " ", text, false, params, env) == Params(params)
  {
    FirstToken(" ", "", ',');
    assert " " + "" == " ";
    ScanBlank(line, " ", env);
  }

  /** The line without its last character is another directive, or one with fewer parameters. */
  lemma ClippedDiffers(name: string, items: seq<Item>, env: Env)
    requires PrintableName(name) && items != [] && forall i :: 0 <= i < |items| ==> Printable(items[i])
    requires items[|items| - 1].Bare?
    ensures var line := Print(name, items);
      line != "" && Tokenize(line[..|line| - 1], env) != Params([name] + AllMeant(items))
  {
    hide Tokenize, ItemsText, AllReadBack, AllMeant;
    var line, clipped := Print(name, items), Clipped(items);
    var k := |items| - 1;
    ClippedText(items);
    assert line[..|line| - 1] == Print(name, clipped);
    if clipped[k].text == "" {
      EmptyEndRead(name, clipped, env);
    } else {
      PrintedLineReads(name, clipped, env);
      SameParams(name, AllReadBack(clipped), AllMeant(items));
      assert ReadBack(clipped[k]) != Meaning(items[k]);
    }
  }

  lemma EmptyEndRead(name: string, items: seq<Item>, env: Env)
    requires PrintableName(name) && items != [] && items[|items| - 1] == Bare("")
    requires forall i :: 0 <= i < |items| - 1 ==> Printable(items[i])
    ensures var r := Tokenize(Print(name, items), env); r.Params? ==> |r.params| < 1 + |items|
  {
    hide ItemsText, Printable, PrintableName, Continue;
    NameRead(name, items, env);
    EmptyEnd(Print(name, items), items, name, [name], env);
  }

  // ---------- written lines read back ----------

  /** The values that survive: without a newline and without two commas in a row. */
  predicate Survives(value: string) {
    '\n' !in value && !DoubleComma(value)
  }

  /**
   A written line is read as exactly one directive with its parameters as they were meant if and only if it fits into
   510 characters, has at most 40 parameters, and every value survives.
   */
  lemma FileRoundTrip(name: string, items: seq<Item>, env: Env)
    requires PrintableName(name) && items != [] && forall i :: 0 <= i < |items| ==> Printable(items[i])
    ensures ReadFile(Print(name, items) + "\n", env) == [Params([name] + AllMeant(items))] <==>
            && Fits(Print(name, items)) && 1 + |items| <= 40
            && forall i :: 0 <= i < |items| && items[i].Quoted? ==> Survives(items[i].value)
  {
    hide Tokenize, Print, Printable, DoubleComma, AllMeant, Lines, Stripped;
    var line := Print(name, items);
    PrintChars(name, items);
    assert line + "\n" + "" == line + "\n";
    NoLines();
    if MOST < |line| || '\n' in line {
      BrokenLine(line);
      SeveralOutcomes(Lines(line + "\n"), env, [name] + AllMeant(items));
    } else if Fits(line) {
      WholeLine(line, "");
      assert Lines(line + "\n") == [line];
      OneOutcome(line, env);
      RoundTrip(name, items, env);
      assert HasRoom(name, items) <==> 1 + |items| <= 40 by { ShortHasRoom(name, items); }
    } else {
      LineOfMost(line, "");
      assert Lines(line + "\n") == [line[..|line| - 1]];
      OneOutcome(line[..|line| - 1], env);
      PrintEnd(name, items);
      ClippedDiffers(name, items, env);
    }
  }

  lemma PrintEnd(name: string, items: seq<Item>)
    requires items != [] && forall i :: 0 <= i < |items| ==> Printable(items[i])
    ensures var line := Print(name, items);
      line != "" && (items[|items| - 1].Quoted? ==> !IsControl(line[|line| - 1]))
  {
    hide Printable, ItemsText;
    ItemsTextEnd(items);
    var t, line := ItemsText(items), Print(name, items);
    assert line[|line| - 1] == t[|t| - 1];
  }

  lemma OneOutcome(line: string, env: Env)
    ensures Outcomes([line], env) == [Tokenize(line, env)]
  {
    hide Tokenize;
    assert [line][1..] == [];
  }

  lemma ShortHasRoom(name: string, items: seq<Item>)
    requires |Print(name, items)| <= MOST
    ensures HasRoom(name, items) <==> 1 + |items| <= 40
  {
    hide ItemsText, Meaning;
    MeaningsAreShort(items);
  }

  /** Wherever a line stands in a file, lines in front of it and behind it are read as they would be without it. */
  lemma LineInFile(before: string, line: string, after: string)
    requires before == "" || before[|before| - 1] == '\n'
    requires line != "" && '\n' !in line && NUL !in line && Fits(line)
    ensures Lines(before + (line + "\n" + after)) == Lines(before) + [line] + Lines(after)
  {
    hide Lines, Fits;
    LinesConcat(before, line + "\n" + after);
    WholeLine(line, after);
  }

  // ---------- a file without variables ----------

  lemma {:induction false} LinesAreShort(text: string)
    ensures forall l :: l in Lines(text) ==> |l| <= 510 && ('$' !in text ==> '$' !in l)
    decreases |text|
  {
    hide CString, Taken;
    if text != "" {
      var n := Taken(text);
      LinesAreShort(text[n..]);
      StrippedIsShort(text[..n]);
      assert '$' !in text ==> '$' !in text[..n] && '$' !in text[n..];
    }
  }

  lemma StrippedIsShort(piece: string)
    ensures |Stripped(piece)| <= |piece| && forall c :: c in Stripped(piece) ==> c in piece
  {
    hide IsControl;
  }

  /** No file without a variable makes the tokenizer leave string[512] or name an unknown variable. */
  lemma FileStaysInside(text: string, env: Env)
    requires '$' !in text
    ensures forall r :: r in ReadFile(text, env) ==> r != OutOfBounds(TextBuffer) && !r.Panic?
  {
    hide Lines;
    LinesAreShort(text);
    OutcomesStayInside(Lines(text), env);
  }

  lemma {:induction false} OutcomesStayInside(lines: seq<string>, env: Env)
    requires forall l :: l in lines ==> |l| <= 510 && '$' !in l
    ensures forall r :: r in Outcomes(lines, env) ==> r != OutOfBounds(TextBuffer) && !r.Panic?
    decreases lines
  {
    hide Tokenize;
    if lines != [] {
      assert lines[0] in lines && forall l :: l in lines[1..] ==> l in lines;
      ShortLineStaysInside(lines[0], env);
      OutcomesStayInside(lines[1..], env);
    }
  }

  // ---------- parse_bochsrc ----------

  /** fgets: the next piece, where the file goes on, and whether its end has been seen. */
  method FGets(file: string, pos: nat) returns (piece: string, next: nat, eof: bool)
    requires pos <= |file|
    ensures pos <= next <= |file| && piece == file[pos..next]
    ensures pos < |file| ==> next == pos + Taken(file[pos..])
    ensures eof ==> next == |file|
    ensures pos == |file| ==> eof
  {
    next := pos;
    while next < |file| && next - pos < MOST && (next == pos || file[next - 1] != '\n')
      invariant pos <= next <= |file| && next - pos <= MOST
      invariant forall k :: pos <= k < next - 1 ==> file[k] != '\n'
    {
      next := next + 1;
    }
    piece := file[pos..next];
    eof := next == |file| && next - pos < MOST && (next == pos || file[next - 1] != '\n');
    if pos < |file| {
      TakenAt(file[pos..], next - pos);
    }
  }

  lemma TakenAt(text: string, n: nat)
    requires 0 < n <= |text| && n <= MOST && forall k :: 0 <= k < n - 1 ==> text[k] != '\n'
    requires n == |text| || n == MOST || text[n - 1] == '\n'
    ensures Taken(text) == n
  {
    if text[n - 1] == '\n' {
      SpanFrom(text, n - 1, '\n');
    } else {
      var s := Span(text, '\n');
      assert s < n ==> text[s] == '\n';
    }
  }

  /** parse_bochsrc: what becomes of each of its lines, until one fails. */
  method ParseBochsrc(file: string, env: Env) returns (outcomes: seq<Outcome>)
    ensures outcomes == ReadFile(file, env)
  {
    hide Taken, Stripped, Tokenize, Lines, Outcomes;
    outcomes := [];
    var pos, eof := 0, false;
    assert file[0..] == file;
    while !eof
      invariant 0 <= pos <= |file| && (eof ==> pos == |file|)
      invariant outcomes + Outcomes(Lines(file[pos..]), env) == ReadFile(file, env)
      decreases |file| - pos, !eof
    {
      ghost var rest := file[pos..];
      var piece, next;
      piece, next, eof := FGets(file, pos);
      if piece != "" {
        assert rest[..next - pos] == piece && rest[next - pos..] == file[next..];
        var line := Stripped(piece);
        LinesFirst(rest, next - pos);
        if line == "" {
          assert [] + Lines(file[next..]) == Lines(file[next..]);
        } else {
          var r := ParseLineUnformatted(line, env);
          OutcomesFirst(line, Lines(file[next..]), env);
          ghost var behind := Outcomes(Lines(file[next..]), env);
          assert outcomes + ([r] + behind) == (outcomes + [r]) + behind;
          outcomes := outcomes + [r];
          if Fails(r) {
            return;
          }
        }
      }
      pos := next;
    }
    assert file[pos..] == "";
    NoLines();
    NoOutcomes(env);
  }

  lemma NoOutcomes(env: Env)
    ensures Outcomes([], env) == []
  {
  }

  lemma OutcomesFirst(line: string, rest: seq<string>, env: Env)
    ensures var r := Tokenize(line, env);
      Outcomes([line] + rest, env) == if Fails(r) then [r] else [r] + Outcomes(rest, env)
  {
    hide Tokenize;
    assert ([line] + rest)[1..] == rest;
  }
}
