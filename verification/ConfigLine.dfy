/** The line tokenizer of config.cc, and the lines the configuration writer prints. */
module ConfigLine {
  import opened Common
  import opened Numerals

  const MAX_PARAMS := 40
  const BUFFER := 512  // string and varname
  const NUL := '\0'

  /** The environment, and the installation's share path as the one builtin variable. */
  datatype Env = Env(vars: map<string, string>, share: string)

  function Lookup(env: Env, name: string): Option<string> {
    if name != "" && name in env.vars then Some(env.vars[name])
    else if name == "BXSHARE" then Some(env.share)
    else None
  }

  /**
   A blank line; the parameters handed on; a panic for an unknown variable; or an access outside of a buffer: to
   string[512], to varname[512], or to params[40], which is looked at before the panic for too many parameters.
   */
  datatype Outcome = Nothing | Params(params: seq<string>) | Panic | OutOfBounds(where: Buffer)

  /** The text of a parameter or a variable's name, or the parameters. */
  datatype Buffer = TextBuffer | ParamSlots

  predicate IsSpace(c: char) {
    c == ' ' || 9 <= c as int <= 13
  }

  predicate IsAlpha(c: char) {
    'a' <= c <= 'z' || 'A' <= c <= 'Z'
  }

  // ---------- strtok ----------

  /** s without leading delimiters. */
  function Skip(s: string, d: char): (r: string)
    ensures |r| <= |s| && (r != "" ==> r[0] != d)
  {
    if s != "" && s[0] == d then Skip(s[1..], d) else s
  }

  /** The number of characters before the first delimiter. */
  function Span(s: string, d: char): (n: nat)
    ensures n <= |s| && d !in s[..n] && (n < |s| ==> s[n] == d)
  {
    if s == "" || s[0] == d then 0
    else
      assert s == [s[0]] + s[1..];
      1 + Span(s[1..], d)
  }

  /** The next token and what is left for the call after it. */
  function NextToken(s: string, d: char): (r: Option<(string, string)>)
    ensures r.Some? ==> r.value.0 != "" && |r.value.1| < |s|
  {
    var t := Skip(s, d);
    if t == "" then None
    else
      var n := Span(t, d);
      Some((t[..n], if n < |t| then t[n + 1..] else ""))
  }

  // ---------- one token ----------

  /** The text collected, whether a quotation is open, whether a comment has begun; an unknown variable; or no room. */
  datatype Scanned = Scanned(text: string, inQuotes: bool, comment: bool) | Failed | Outside

  /** The terminator of the text is stored. */
  function Finish(text: string, inQuotes: bool, comment: bool): Scanned {
    if BUFFER <= |text| then Outside else Scanned(text, inQuotes, comment)
  }

  predicate IncludeAt(line: string, i: nat) {
    i + 8 <= |line| && line[i..i + 8] == "#include"
  }

  /** Where the name of a variable ends. */
  function VarEnd(tok: string, i: nat): (n: nat)
    requires i <= |tok|
    ensures i <= n <= |tok|
    decreases |tok| - i
  {
    if i < |tok| && (IsAlpha(tok[i]) || tok[i] == '_') then VarEnd(tok, i + 1) else i
  }

  /** Character c as it goes into the text: blanks only inside quotes. */
  function Add(text: string, c: char, inQuotes: bool): string {
    if !IsSpace(c) || inQuotes then text + [c] else text
  }

  /** The characters of a token from the i-th on; the line is only looked at for an include directive. */
  function Scan(line: string, tok: string, i: nat, text: string, inQuotes: bool, env: Env): Scanned
    decreases |tok| - i
  {
    if |tok| <= i then Finish(text, inQuotes, false)
    else if tok[i] == '"' then Scan(line, tok, i + 1, text, !inQuotes, env)
    else if tok[i] == '#' && !IncludeAt(line, i) && !inQuotes then Finish(text, inQuotes, true)
    else if tok[i] == '$' then
      var n := VarEnd(tok, i + 1);
      if BUFFER <= n - (i + 1) then Outside
      else
        var value := Lookup(env, tok[i + 1..n]);
        if value.None? then Failed
        else
          var next := Add(text + value.value, if n < |tok| then tok[n] else NUL, inQuotes);
          if BUFFER < |next| then Outside else Scan(line, tok, n + 1, next, inQuotes, env)
    else
      var next := Add(text, tok[i], inQuotes);
      if BUFFER < |next| then Outside else Scan(line, tok, i + 1, next, inQuotes, env)
  }

  // ---------- a line ----------

  /** The copy strdup makes. */
  function CString(s: string): string {
    s[..Span(s, NUL)]
  }

  /** A token, after the parameters so far; an open quotation continues the text with the comma between the tokens. */
  function Loop(line: string, tok: string, rest: string, text: string, inQuotes: bool,
                params: seq<string>, env: Env): Outcome
    decreases |rest|, 1
  {
    match Scan(line, tok, 0, if inQuotes then text + "," else "", inQuotes, env)
    case Failed => Panic
    case Outside => OutOfBounds(TextBuffer)
    case Scanned(text', inQuotes', comment) =>
      if text' == "" then Params(params)
      else if inQuotes' then
        if comment then Params(params) else Continue(line, rest, text', true, params, env)
      else if |params| >= MAX_PARAMS then OutOfBounds(ParamSlots)
      else if comment then Params(params + [CString(text')])
      else Continue(line, rest, text', false, params + [CString(text')], env)
  }

  function Continue(line: string, rest: string, text: string, inQuotes: bool, params: seq<string>, env: Env): Outcome
    decreases |rest|, 0
  {
    match NextToken(rest, ',')
    case None => Params(params)
    case Some(next) => Loop(line, next.0, next.1, text, inQuotes, params, env)
  }

  /** What a line hands on to parse_line_formatted. */
  function Tokenize(line: string, env: Env): Outcome {
    if forall c :: c in line ==> IsSpace(c) then Nothing
    else
      match NextToken(line, if IncludeAt(line, 0) then ' ' else ':')
      case None => Params([])
      case Some(first) => Loop(line, first.0, first.1, "", false, [], env)
  }

  // ---------- printed lines ----------

  /** A parameter as the writer prints it: bare, or a key with a quoted value. */
  datatype Item = Bare(text: string) | Quoted(key: string, value: string)

  /** Printed without quotes: nothing the tokenizer treats specially. */
  predicate Ordinary(c: char) {
    c != '"' && c != '$' && c != NUL && c != '#' && c != ',' && !IsSpace(c)
  }

  /** Allowed inside quotes: everything but a quotation mark and a variable. */
  predicate Quotable(c: char) {
    c != '"' && c != '$' && c != NUL
  }

  predicate Printable(item: Item) {
    match item
    case Bare(text) => text != "" && forall c :: c in text ==> Ordinary(c)
    case Quoted(key, value) => (forall c :: c in key ==> Ordinary(c)) && forall c :: c in value ==> Quotable(c)
  }

  function ItemText(item: Item): string {
    match item
    case Bare(text) => text
    case Quoted(key, value) => key + "=\"" + value + "\""
  }

  /** The parameters behind the colon. */
  function ItemsText(items: seq<Item>): string
    decreases items
  {
    if items == [] then ""
    else " " + ItemText(items[0]) + (if |items| == 1 then "" else "," + ItemsText(items[1..]))
  }

  function Print(name: string, items: seq<Item>): string {
    name + ":" + ItemsText(items)
  }

  /** The parameter an item stands for. */
  function Meaning(item: Item): string {
    match item
    case Bare(text) => text
    case Quoted(key, value) => key + "=" + value
  }

  /** Every run of commas made one. */
  function Collapse(s: string): string {
    if |s| < 2 then s
    else if s[0] == ',' && s[1] == ',' then Collapse(s[1..])
    else [s[0]] + Collapse(s[1..])
  }

  /** The parameter an item is read back as. */
  function ReadBack(item: Item): string {
    match item
    case Bare(text) => text
    case Quoted(key, value) => key + "=" + Collapse(value)
  }

  // ---------- commas ----------

  predicate DoubleComma(s: string) {
    exists i :: 0 <= i < |s| - 1 && s[i] == s[i + 1] == ','
  }

  lemma {:induction false} CollapseShorter(s: string)
    ensures |Collapse(s)| <= |s|
  {
    if 2 <= |s| {
      CollapseShorter(s[1..]);
    }
  }

  /** A value survives exactly if it has no two commas in a row. */
  lemma {:induction false} CollapseKeeps(s: string)
    ensures Collapse(s) == s <==> !DoubleComma(s)
  {
    if 2 <= |s| {
      var t := s[1..];
      CollapseKeeps(t);
      if s[0] == s[1] == ',' {
        CollapseShorter(t);
      } else {
        assert s == [s[0]] + t;
        if DoubleComma(t) {
          var i :| 0 <= i < |t| - 1 && t[i] == t[i + 1] == ',';
          assert s[i + 1] == s[i + 2] == ',';
        }
        if DoubleComma(s) {
          var i :| 0 <= i < |s| - 1 && s[i] == s[i + 1] == ',';
          assert t[i - 1] == t[i] == ',';
        }
      }
    }
  }

  /** What the tokens of a quotation behind its first comma add to the text. */
  function Tail(w: string): string
    decreases |w|
  {
    var u := Skip(w, ',');
    var n := Span(u, ',');
    if n < |u| then "," + u[..n] + Tail(u[n + 1..]) else "," + u
  }

  lemma {:induction false} CollapseSplits(v: string)
    ensures var n := Span(v, ','); Collapse(v) == if n < |v| then v[..n] + Tail(v[n + 1..]) else v
    decreases |v|, 1
  {
    hide Tail;
    if v != "" {
      if v[0] == ',' {
        CollapseTail(v);
        assert v[..0] + Tail(v[1..]) == Tail(v[1..]);
      } else if 2 <= |v| {
        CollapseSplits(v[1..]);
        hide Span;
        assert Collapse(v) == [v[0]] + Collapse(v[1..]);
        assert Span(v, ',') == 1 + Span(v[1..], ',') by { SpanTail(v, ','); }
        ConsSplits(v, Span(v, ','));
      }
    }
  }

  lemma SpanTail(v: string, d: char)
    requires v != "" && v[0] != d
    ensures Span(v, d) == 1 + Span(v[1..], d)
  {
  }

  lemma ConsSplits(v: string, n: nat)
    requires 1 <= n <= |v|
    ensures n < |v| ==> [v[0]] + (v[1..][..n - 1] + Tail(v[1..][n..])) == v[..n] + Tail(v[n + 1..])
    ensures [v[0]] + v[1..] == v
  {
    hide Tail;
    if n < |v| {
      assert v[1..][n..] == v[n + 1..];
      assert [v[0]] + v[1..][..n - 1] == v[..n];
    }
  }

  lemma {:induction false} CollapseTail(v: string)
    requires v != "" && v[0] == ','
    ensures Collapse(v) == Tail(v[1..])
    decreases |v|, 0
  {
    if |v| == 1 {
      assert v[1..] == "" && v == ",";
    } else {
      var w := v[1..];
      if w[0] == ',' {
        CollapseTail(w);
        assert Tail(w) == Tail(w[1..]) by { TailSkips(w); }
      } else {
        CollapseSplits(w);
        TailUnfolds(w);
        hide Tail, Span;
        assert Collapse(v) == "," + Collapse(w);
        var n := Span(w, ',');
        if n < |w| {
          assert "," + (w[..n] + Tail(w[n + 1..])) == "," + w[..n] + Tail(w[n + 1..]);
        }
      }
    }
  }

  lemma {:induction false} TailSkips(w: string)
    requires w != "" && w[0] == ','
    ensures Tail(w) == Tail(w[1..])
  {
    assert Skip(w, ',') == Skip(w[1..], ',');
    hide Skip, Span;
  }

  lemma {:induction false} TailUnfolds(w: string)
    requires w != "" && w[0] != ','
    ensures var n := Span(w, ','); Tail(w) == if n < |w| then "," + w[..n] + Tail(w[n + 1..]) else "," + w
  {
    assert Skip(w, ',') == w;
    hide Skip, Span;
  }

  // ---------- reading a printed line ----------

  lemma {:induction false} SpanOf(a: string, b: string, d: char)
    requires d !in a && (b == "" || b[0] == d)
    ensures Span(a + b, d) == |a|
    decreases a
  {
    if a == "" {
      assert a + b == b;
    } else {
      assert (a + b)[1..] == a[1..] + b;
      assert d !in a[1..];
      SpanOf(a[1..], b, d);
    }
  }

  /** The first token of a string that starts with it. */
  lemma FirstToken(a: string, b: string, d: char)
    requires a != "" && d !in a && (b == "" || b[0] == d)
    ensures NextToken(a + b, d) == Some((a, if b == "" then "" else b[1..]))
  {
    SpanOf(a, b, d);
    assert (a + b)[0] == a[0];
    assert (a + b)[..|a|] == a;
    if b != "" {
      assert (a + b)[|a| + 1..] == b[1..];
    }
  }

  /** A character that only adds to the text. */
  predicate Plain(c: char, inQuotes: bool) {
    c != '"' && c != '$' && (inQuotes || (c != '#' && !IsSpace(c)))
  }

  lemma ScanPlain(line: string, tok: string, i: nat, text: string, inQuotes: bool, env: Env)
    requires i < |tok| && Plain(tok[i], inQuotes)
    ensures Scan(line, tok, i, text, inQuotes, env) ==
            if BUFFER < |text| + 1 then Outside else Scan(line, tok, i + 1, text + [tok[i]], inQuotes, env)
  {
    hide IncludeAt, Lookup, VarEnd, IsSpace;
  }

  lemma {:induction false} ScanRun(line: string, pre: string, a: string, post: string, text: string,
        inQuotes: bool, env: Env)
    requires forall c :: c in a ==> Plain(c, inQuotes)
    requires |text| <= BUFFER
    ensures Scan(line, pre + a + post, |pre|, text, inQuotes, env) ==
            if BUFFER < |text| + |a| then Outside else Scan(line, pre + a + post, |pre| + |a|, text + a, inQuotes, env)
    decreases a
  {
    hide Scan, Plain;
    if a == "" {
      assert text + a == text;
    } else {
      var tok := pre + a + post;
      assert tok[|pre|] == a[0] && a[0] in a;
      ScanPlain(line, tok, |pre|, text, inQuotes, env);
      if |text| < BUFFER {
        assert tok == (pre + [a[0]]) + a[1..] + post;
        assert text + [a[0]] + a[1..] == text + a;
        ScanRun(line, pre + [a[0]], a[1..], post, text + [a[0]], inQuotes, env);
      }
    }
  }

  /** A whole token of such characters, or one with a quotation mark at its end. */
  lemma ScanAll(line: string, pre: string, a: string, text: string, inQuotes: bool, env: Env)
    requires |text| <= BUFFER && forall c :: c in a ==> Plain(c, inQuotes)
    ensures Scan(line, pre + a, |pre|, text, inQuotes, env) == Finish(text + a, inQuotes, false)
    ensures Scan(line, pre + a + "\"", |pre|, text, inQuotes, env) == Finish(text + a, !inQuotes, false)
  {
    hide Plain;
    ScanRun(line, pre, a, "", text, inQuotes, env);
    assert pre + a + "" == pre + a;
    ScanRun(line, pre, a, "\"", text, inQuotes, env);
    assert (pre + a + "\"")[|pre| + |a|] == '"';
  }

  /** The blank a printed parameter starts with. */
  lemma ScanBlank(line: string, tok: string, env: Env)
    requires tok != "" && tok[0] == ' '
    ensures Scan(line, tok, 0, "", false, env) == Scan(line, tok, 1, "", false, env)
  {
  }

  lemma KeyIsPlain(key: string)
    requires forall c :: c in key ==> Ordinary(c)
    ensures forall c :: c in key + "=" ==> Plain(c, false)
  {
  }

  /** Key, equals sign and quotation mark. */
  lemma {:induction false} ScanKey(line: string, key: string, post: string, env: Env)
    requires forall c :: c in key ==> Ordinary(c)
    ensures var pre := " " + (key + "=") + "\"";
      Scan(line, pre + post, 0, "", false, env) ==
      if BUFFER < |key| + 1 then Outside else Scan(line, pre + post, |pre|, key + "=", true, env)
  {
    hide Ordinary, Plain;
    var k := key + "=";
    var tok := " " + k + ("\"" + post);
    assert tok == " " + k + "\"" + post;
    ScanBlank(line, tok, env);
    KeyIsPlain(key);
    ScanRun(line, " ", k, "\"" + post, "", false, env);
    assert "" + k == k;
    assert tok[|" " + k|] == '"';
  }

  /** The end of a parameter: it is handed on if there is room for it. */
  function Pushed(line: string, rest: string, text: string, params: seq<string>, env: Env): Outcome {
    if BUFFER <= |text| then OutOfBounds(TextBuffer)
    else if MAX_PARAMS <= |params| then OutOfBounds(ParamSlots)
    else Continue(line, rest, text, false, params + [CString(text)], env)
  }

  lemma NoRoom(line: string, rest: string, text: string, params: seq<string>, env: Env)
    requires BUFFER <= |text|
    ensures Pushed(line, rest, text, params, env) == OutOfBounds(TextBuffer)
  {
  }

  /** What strtok leaves of the text behind a token. */
  function Behind(after: string): string {
    if after == "" then "" else after[1..]
  }

  predicate AtComma(after: string) {
    after == "" || after[0] == ','
  }

  lemma {:induction false} SkipInside(w: string, post: string)
    requires post != "" && post[0] != ','
    ensures Skip(w + post, ',') == Skip(w, ',') + post == Skip(Skip(w, ',') + post, ',')
    ensures forall c :: c in Skip(w, ',') ==> c in w
    decreases w
  {
    if w != "" && w[0] == ',' {
      assert (w + post)[1..] == w[1..] + post;
      SkipInside(w[1..], post);
    }
  }

  /** A token inside the quotation. */
  lemma {:induction false} SegmentStep(line: string, u: string, n: nat, post: string, text: string,
        params: seq<string>, env: Env)
    requires u != "" && u[0] != ',' && n == Span(u, ',') < |u| && forall c :: c in u ==> Quotable(c)
    requires |text| < BUFFER
    ensures Continue(line, u + post, text, true, params, env) ==
            if BUFFER <= |text| + 1 + n then OutOfBounds(TextBuffer)
            else Continue(line, u[n + 1..] + post, text + "," + u[..n], true, params, env)
  {
    hide Quotable, Scan, Span, NextToken;
    var rest := u[n + 1..] + post;
    assert u[..n] + ("," + rest) == u + post;
    assert n > 0 by { SpanPositive(u); }
    FirstToken(u[..n], "," + rest, ',');
    assert ("," + rest)[1..] == rest;
    assert forall c :: c in u[..n] ==> Plain(c, true) by { QuotablePlain(u); }
    ScanAll(line, "", u[..n], text + ",", true, env);
    assert "" + u[..n] == u[..n];
  }

  lemma SpanPositive(u: string)
    requires u != "" && u[0] != ','
    ensures Span(u, ',') > 0
  {
  }

  lemma QuotablePlain(u: string)
    requires forall c :: c in u ==> Quotable(c)
    ensures forall c :: c in u ==> Plain(c, true)
  {
  }

  /** The token that ends the quotation. */
  lemma LastSegment(line: string, u: string, after: string, text: string, params: seq<string>, env: Env)
    requires ',' !in u && AtComma(after) && |text| < BUFFER && forall c :: c in u ==> Quotable(c)
    ensures Continue(line, u + "\"" + after, text, true, params, env) ==
            Pushed(line, Behind(after), text + "," + u, params, env)
  {
    hide Quotable, Scan, NextToken, Plain;
    FirstToken(u + "\"", after, ',');
    QuotablePlain(u);
    ScanAll(line, "", u, text + ",", true, env);
    assert "" + u == u;
  }

  /** An open quotation goes on through its commas up to the quotation mark. */
  lemma {:induction false} QuotedRest(line: string, w: string, after: string, text: string,
        params: seq<string>, env: Env)
    requires (forall c :: c in w ==> Quotable(c)) && AtComma(after) && |text| < BUFFER
    ensures Continue(line, w + "\"" + after, text, true, params, env) ==
            Pushed(line, Behind(after), text + Tail(w), params, env)
    decreases |w|
  {
    var u := Skip(w, ',');
    hide Skip, Span, Continue, Quotable, Pushed;
    var post := "\"" + after;
    SkipInside(w, post);
    assert w + "\"" + after == w + post && u + "\"" + after == u + post;
    SkipsFirst(line, w + post, u + post, text, params, env);
    var n := Span(u, ',');
    if n < |u| {
      SegmentStep(line, u, n, post, text, params, env);
      assert u[n + 1..] + "\"" + after == u[n + 1..] + post;
      if |text| + 1 + n < BUFFER {
        QuotedRest(line, u[n + 1..], after, text + "," + u[..n], params, env);
      } else {
        NoRoom(line, Behind(after), text + Tail(w), params, env);
      }
      assert text + "," + u[..n] + Tail(u[n + 1..]) == text + Tail(w);
    } else {
      LastSegment(line, u, after, text, params, env);
      assert text + "," + u == text + Tail(w);
    }
  }

  /** Leading delimiters make no difference. */
  lemma SkipsFirst(line: string, a: string, b: string, text: string, params: seq<string>, env: Env)
    requires Skip(a, ',') == Skip(b, ',')
    ensures Continue(line, a, text, true, params, env) == Continue(line, b, text, true, params, env)
  {
  }

  lemma BareStep(line: string, t: string, after: string, text: string, params: seq<string>, env: Env)
    requires Printable(Bare(t)) && AtComma(after)
    ensures Continue(line, " " + t + after, text, false, params, env) == Pushed(line, Behind(after), t, params, env)
  {
    hide Scan, NextToken, Ordinary, Plain;
    OrdinaryPlain(t);
    FirstToken(" " + t, after, ',');
    ScanBlank(line, " " + t, env);
    ScanAll(line, " ", t, "", false, env);
    assert "" + t == t;
  }

  lemma OrdinaryPlain(t: string)
    requires forall c :: c in t ==> Ordinary(c)
    ensures (forall c :: c in t ==> Plain(c, false)) && ',' !in t && NUL !in t
  {
  }

  lemma QuotedStep(line: string, key: string, value: string, after: string, text: string, params: seq<string>, env: Env)
    requires Printable(Quoted(key, value)) && AtComma(after)
    ensures Continue(line, " " + (key + "=\"" + value + "\"") + after, text, false, params, env) ==
            Pushed(line, Behind(after), key + "=" + Collapse(value), params, env)
  {
    hide Scan, NextToken, Ordinary, Quotable, Plain, Span, Collapse, Tail, Continue, Pushed;
    var pre := " " + (key + "=") + "\"";
    var n := Span(value, ',');
    OrdinaryPlain(key);
    CollapseSplits(value);
    assert " " + (key + "=\"" + value + "\"") + after == pre + value + "\"" + after;
    if n < |value| {
      FirstOfMany(line, key, value, n, after, text, params, env);
      assert key + "=" + value[..n] + Tail(value[n + 1..]) == key + "=" + Collapse(value);
      if |key| + 1 + n < BUFFER {
        QuotedRest(line, value[n + 1..], after, key + "=" + value[..n], params, env);
      } else {
        NoRoom(line, Behind(after), key + "=" + Collapse(value), params, env);
      }
    } else {
      assert value[..n] == value;
      OnlyToken(line, key, value, after, text, params, env);
    }
  }

  /** A quoted value with commas: its first token. */
  lemma FirstOfMany(line: string, key: string, value: string, n: nat, after: string, text: string,
        params: seq<string>, env: Env)
    requires Printable(Quoted(key, value)) && n == Span(value, ',') < |value|
    ensures Continue(line, " " + (key + "=") + "\"" + value + "\"" + after, text, false, params, env) ==
            if BUFFER <= |key| + 1 + n then OutOfBounds(TextBuffer)
            else Continue(line, value[n + 1..] + "\"" + after, key + "=" + value[..n], true, params, env)
  {
    hide Scan, NextToken, Ordinary, Quotable, Plain, Span;
    var pre := " " + (key + "=") + "\"";
    var rest := value[n + 1..] + "\"" + after;
    OrdinaryPlain(key);
    QuotablePlain(value);
    assert pre + value + "\"" + after == (pre + value[..n]) + ("," + rest);
    assert ',' !in pre + value[..n];
    FirstToken(pre + value[..n], "," + rest, ',');
    assert ("," + rest)[1..] == rest;
    ScanKey(line, key, value[..n], env);
    if |key| < BUFFER {
      ScanAll(line, pre, value[..n], key + "=", true, env);
    }
  }

  /** A quoted value without commas is a single token. */
  lemma OnlyToken(line: string, key: string, value: string, after: string, text: string, params: seq<string>, env: Env)
    requires Printable(Quoted(key, value)) && ',' !in value && AtComma(after)
    ensures Continue(line, " " + (key + "=") + "\"" + value + "\"" + after, text, false, params, env) ==
            Pushed(line, Behind(after), key + "=" + value, params, env)
  {
    hide Scan, NextToken, Ordinary, Quotable, Plain;
    var pre := " " + (key + "=") + "\"";
    OrdinaryPlain(key);
    QuotablePlain(value);
    assert ',' !in pre + value + "\"";
    FirstToken(pre + value + "\"", after, ',');
    ScanKey(line, key, value + "\"", env);
    assert pre + (value + "\"") == pre + value + "\"";
    if |key| < BUFFER {
      ScanAll(line, pre, value, key + "=", true, env);
    }
  }

  lemma ItemStep(line: string, item: Item, after: string, text: string, params: seq<string>, env: Env)
    requires Printable(item) && AtComma(after)
    ensures Continue(line, " " + ItemText(item) + after, text, false, params, env) ==
            Pushed(line, Behind(after), ReadBack(item), params, env)
    ensures CString(ReadBack(item)) == ReadBack(item)
  {
    hide Continue, Pushed;
    NoNul(item);
    match item
    case Bare(t) => BareStep(line, t, after, text, params, env);
    case Quoted(key, value) => QuotedStep(line, key, value, after, text, params, env);
  }

  lemma NoNul(item: Item)
    requires Printable(item)
    ensures CString(ReadBack(item)) == ReadBack(item)
  {
    if item.Quoted? {
      CollapseSubset(item.value);
    }
    assert NUL !in ReadBack(item);
    SpanOf(ReadBack(item), "", NUL);
    assert ReadBack(item) + "" == ReadBack(item);
  }

  lemma {:induction false} CollapseSubset(s: string)
    ensures forall c :: c in Collapse(s) ==> c in s
  {
    if 2 <= |s| {
      CollapseSubset(s[1..]);
    }
  }

  function AllReadBack(items: seq<Item>): (r: seq<string>)
    ensures |r| == |items| && forall i :: 0 <= i < |items| ==> r[i] == ReadBack(items[i])
  {
    seq(|items|, i requires 0 <= i < |items| => ReadBack(items[i]))
  }

  /** Each parameter fits the buffer with its terminator. */
  predicate AllFit(params: seq<string>) {
    forall i :: 0 <= i < |params| ==> |params[i]| < BUFFER
  }

  lemma {:induction false} ItemsRead(line: string, items: seq<Item>, text: string, params: seq<string>, env: Env)
    requires (forall i :: 0 <= i < |items| ==> Printable(items[i])) && |params| <= MAX_PARAMS
    ensures var r := Continue(line, ItemsText(items), text, false, params, env);
      if |params| + |items| <= MAX_PARAMS && AllFit(AllReadBack(items)) then r == Params(params + AllReadBack(items))
      else r.OutOfBounds?
    decreases items
  {
    hide ItemText, Printable, ReadBack, CString, Continue, ItemsText, AllFit, AllReadBack, Pushed;
    if items == [] {
      NoMore(line, text, params, env);
    } else {
      FirstItem(line, items, text, params, env);
      AllReadBackFirst(items, params);
      var first := ReadBack(items[0]);
      if |params| < MAX_PARAMS && |first| < BUFFER {
        ItemsRead(line, items[1..], first, params + [first], env);
      }
    }
  }

  /** The first of the items, and then the others. */
  lemma FirstItem(line: string, items: seq<Item>, text: string, params: seq<string>, env: Env)
    requires items != [] && Printable(items[0])
    ensures var first := ReadBack(items[0]);
      Continue(line, ItemsText(items), text, false, params, env) ==
      if BUFFER <= |first| then OutOfBounds(TextBuffer)
      else if MAX_PARAMS <= |params| then OutOfBounds(ParamSlots)
      else Continue(line, ItemsText(items[1..]), first, false, params + [first], env)
  {
    hide ItemText, Printable, ReadBack, CString, Continue;
    ItemStep(line, items[0], if |items| == 1 then "" else "," + ItemsText(items[1..]), text, params, env);
    BehindItems(items);
  }

  lemma AllReadBackFirst(items: seq<Item>, params: seq<string>)
    requires items != []
    ensures var first := ReadBack(items[0]); var rest := AllReadBack(items[1..]);
      && params + AllReadBack(items) == params + [first] + rest
      && (AllFit(AllReadBack(items)) <==> |first| < BUFFER && AllFit(rest))
  {
    hide ReadBack, AllFit;
    var first, rest := ReadBack(items[0]), AllReadBack(items[1..]);
    assert AllReadBack(items) == [first] + rest;
    assert params + ([first] + rest) == params + [first] + rest;
    AllFitFirst(first, rest);
  }

  lemma AllFitFirst(first: string, rest: seq<string>)
    ensures AllFit([first] + rest) <==> |first| < BUFFER && AllFit(rest)
  {
    var all := [first] + rest;
    assert all[0] == first && forall i :: 0 <= i < |rest| ==> rest[i] == all[i + 1];
  }

  lemma BehindItems(items: seq<Item>)
    requires items != []
    ensures Behind(if |items| == 1 then "" else "," + ItemsText(items[1..])) == ItemsText(items[1..])
  {
    hide ItemText;
    if |items| > 1 {
      assert ("," + ItemsText(items[1..]))[1..] == ItemsText(items[1..]);
    }
  }

  lemma NoMore(line: string, text: string, params: seq<string>, env: Env)
    ensures Continue(line, ItemsText([]), text, false, params, env) == Params(params)
    ensures params + AllReadBack([]) == params && AllFit(AllReadBack([]))
  {
  }

  lemma {:induction false} AppendItem(items: seq<Item>, item: Item)
    requires items != []
    ensures ItemsText(items + [item]) == ItemsText(items) + ", " + ItemText(item)
    decreases items
  {
    hide ItemText;
    var all := items + [item];
    if |items| == 1 {
      assert all[1..] == [item];
      assert ItemsText([item]) == " " + ItemText(item) + "";
    } else {
      AppendItem(items[1..], item);
      assert all[1..] == items[1..] + [item];
    }
  }

  lemma LastItem(items: seq<Item>, item: Item)
    ensures ItemsText(items + [item]) == (if items == [] then " " else ItemsText(items) + ", ") + ItemText(item)
  {
    hide ItemText;
    if items == [] {
      assert items + [item] == [item];
    } else {
      AppendItem(items, item);
    }
  }

  predicate PrintableName(name: string) {
    name != "" && forall c :: c in name ==> Ordinary(c) && c != ':'
  }

  /**
   * Printing a directive and tokenizing the line gives back the directive and its parameters, each value with its runs
   * of commas made one, if there are at most 40 and each fits the buffer; otherwise the tokenizer leaves a buffer.
   */
  lemma PrintedLineReads(name: string, items: seq<Item>, env: Env)
    requires PrintableName(name) && items != [] && forall i :: 0 <= i < |items| ==> Printable(items[i])
    ensures var r := Tokenize(Print(name, items), env);
      if |name| < BUFFER && 1 + |items| <= MAX_PARAMS && AllFit(AllReadBack(items)) then
        r == Params([name] + AllReadBack(items))
      else r.OutOfBounds?
  {
    hide PrintableName, Printable, Continue, ItemsText, AllFit, AllReadBack, Tokenize;
    NameRead(name, items, env);
    if |name| < BUFFER {
      ItemsRead(Print(name, items), items, name, [name], env);
    }
  }

  /** The directive is the first parameter. */
  lemma NameRead(name: string, items: seq<Item>, env: Env)
    requires PrintableName(name)
    ensures var line := Print(name, items);
      Tokenize(line, env) == if BUFFER <= |name| then OutOfBounds(TextBuffer)
                             else Continue(line, ItemsText(items), name, false, [name], env)
  {
    hide Scan, NextToken, ItemsText, Ordinary, Plain, Continue;
    var line, rest := Print(name, items), ItemsText(items);
    NameIsOrdinary(name, line);
    assert line == name + (":" + rest);
    FirstToken(name, ":" + rest, ':');
    assert (":" + rest)[1..] == rest;
    ScanAll(line, "", name, "", false, env);
    assert "" + name == name;
    assert [] + [name] == [name];
  }

  lemma NameIsOrdinary(name: string, line: string)
    requires PrintableName(name) && name <= line
    ensures (forall c :: c in name ==> Plain(c, false)) && ':' !in name && CString(name) == name
    ensures line[0] in line && !IsSpace(line[0]) && !IncludeAt(line, 0)
  {
    assert line[0] == name[0] && name[0] in name;
    SpanOf(name, "", NUL);
    assert name + "" == name;
    IncludeMark(line, 0);
  }

  function AllMeant(items: seq<Item>): (r: seq<string>)
    ensures |r| == |items| && forall i :: 0 <= i < |items| ==> r[i] == Meaning(items[i])
  {
    seq(|items|, i requires 0 <= i < |items| => Meaning(items[i]))
  }

  /** The line fits what the tokenizer has room for: 40 parameters of up to 511 characters. */
  predicate HasRoom(name: string, items: seq<Item>) {
    && |name| < 512 && 1 + |items| <= 40
    && forall i :: 0 <= i < |items| ==> |Meaning(items[i])| < 512
  }

  /** A line is read back as it was meant exactly if there is room for it and no value has two commas in a row. */
  lemma RoundTrip(name: string, items: seq<Item>, env: Env)
    requires PrintableName(name) && items != [] && forall i :: 0 <= i < |items| ==> Printable(items[i])
    ensures Tokenize(Print(name, items), env) == Params([name] + AllMeant(items)) <==>
            && HasRoom(name, items)
            && forall i :: 0 <= i < |items| && items[i].Quoted? ==> !DoubleComma(items[i].value)
  {
    hide Tokenize, Print, Printable, DoubleComma, ReadBack, Meaning, AllReadBack, AllMeant;
    PrintedLineReads(name, items, env);
    SameParams(name, AllReadBack(items), AllMeant(items));
    forall i | 0 <= i < |items|
      ensures AllReadBack(items)[i] == AllMeant(items)[i] <==> (items[i].Quoted? ==> !DoubleComma(items[i].value))
    {
      MeaningKept(items[i]);
    }
  }

  /** A path of 511 characters in one string, as on the command line, overruns the text, although it has no comma. */
  lemma LongPathOverruns(name: string, path: string, env: Env)
    requires PrintableName(name) && (forall c :: c in path ==> Quotable(c) && c != ',') && |path| == 511
    ensures !DoubleComma(path) && Tokenize(Print(name, [Quoted("path", path)]), env) == OutOfBounds(TextBuffer)
  {
    hide Tokenize, Print, Quotable, Ordinary;
    var items := [Quoted("path", path)];
    assert forall i :: 0 <= i < |path| ==> path[i] in path;
    CollapseKeeps(path);
    assert Printable(items[0]) by { assert forall c :: c in "path" ==> Ordinary(c) by { PathIsOrdinary(); } }
    FirstTooLong(name, items, env);
  }

  lemma FirstTooLong(name: string, items: seq<Item>, env: Env)
    requires PrintableName(name) && items != [] && Printable(items[0]) && BUFFER <= |ReadBack(items[0])|
    ensures Tokenize(Print(name, items), env) == OutOfBounds(TextBuffer)
  {
    hide PrintableName, Printable, Continue, ItemsText, Tokenize;
    NameRead(name, items, env);
    if |name| < BUFFER {
      FirstItem(Print(name, items), items, name, [name], env);
    }
  }

  lemma PathIsOrdinary()
    ensures forall c :: c in "path" ==> Ordinary(c)
  {
  }

  lemma SameParams(name: string, a: seq<string>, b: seq<string>)
    requires |a| == |b|
    ensures [name] + a == [name] + b <==> forall i :: 0 <= i < |a| ==> a[i] == b[i]
  {
    assert ([name] + a)[1..] == a && ([name] + b)[1..] == b;
  }

  lemma MeaningKept(item: Item)
    ensures ReadBack(item) == Meaning(item) <==> (item.Quoted? ==> !DoubleComma(item.value))
  {
    hide Collapse, DoubleComma;
    if item.Quoted? {
      CollapseKeeps(item.value);
      var k := |item.key + "="|;
      assert ReadBack(item)[k..] == Collapse(item.value) && Meaning(item)[k..] == item.value;
    }
  }

  // ---------- variables ----------

  predicate IsVarName(name: string) {
    forall c :: c in name ==> 'a' <= c <= 'z' || 'A' <= c <= 'Z' || c == '_'
  }

  /** Behind a variable's name: the end, or a character that cannot be part of it. */
  predicate EndsName(rest: string) {
    rest == "" || !('a' <= rest[0] <= 'z' || 'A' <= rest[0] <= 'Z' || rest[0] == '_')
  }

  lemma {:induction false} VarEndAt(pre: string, name: string, rest: string)
    requires IsVarName(name) && EndsName(rest)
    ensures VarEnd(pre + name + rest, |pre|) == |pre| + |name|
    decreases name
  {
    var tok := pre + name + rest;
    if name == "" {
      assert rest != "" ==> tok[|pre|] == rest[0];
    } else {
      assert tok[|pre|] == name[0] && name[0] in name;
      assert tok == (pre + [name[0]]) + name[1..] + rest;
      assert forall c :: c in name[1..] ==> c in name;
      VarEndAt(pre + [name[0]], name[1..], rest);
    }
  }

  /**
   At a dollar sign: the variable's value is appended, and then the character behind the name as it is, whatever it is,
   or a NUL at the end of the token.
   */
  lemma {:induction false} ScanVariable(line: string, pre: string, name: string, rest: string, text: string,
        inQuotes: bool, env: Env)
    requires IsVarName(name) && EndsName(rest) && |name| < BUFFER
    ensures var tok := pre + "$" + name + rest;
      Scan(line, tok, |pre|, text, inQuotes, env) ==
      match Lookup(env, name)
      case None => Failed
      case Some(value) =>
        var next := Add(text + value, if rest == "" then '\0' else rest[0], inQuotes);
        if 512 < |next| then Outside else Scan(line, tok, |pre| + |name| + 2, next, inQuotes, env)
  {
    hide Lookup, Add, IncludeAt, IsVarName, EndsName, IsSpace;
    var tok := pre + "$" + name + rest;
    assert tok == (pre + "$") + name + rest;
    VarEndAt(pre + "$", name, rest);
    assert tok[|pre|] == '$' && tok[|pre| + 1..|pre| + 1 + |name|] == name;
    assert rest != "" ==> tok[|pre| + 1 + |name|] == rest[0];
  }

  /** A name of 512 characters or more is stored outside of varname. */
  lemma LongNameOverruns(line: string, pre: string, name: string, rest: string, text: string, inQuotes: bool, env: Env)
    requires IsVarName(name) && EndsName(rest)
    ensures var r := Scan(line, pre + "$" + name + rest, |pre|, text, inQuotes, env);
      512 <= |name| ==> r == Outside
  {
    hide Lookup, Add, IncludeAt, IsVarName, EndsName, IsSpace;
    var tok := pre + "$" + name + rest;
    assert tok == (pre + "$") + name + rest;
    VarEndAt(pre + "$", name, rest);
    assert tok[|pre|] == '$';
  }

  /** The text of a parameter with a variable; at the end of the token the value is followed by a NUL. */
  lemma ScanBareVariable(line: string, a: string, name: string, value: string, rest: string, env: Env)
    requires IsVarName(name) && EndsName(rest) && |name| < BUFFER && Lookup(env, name) == Some(value)
    requires Printable(Bare(a + value + rest))
    ensures Scan(line, " " + (a + "$" + name + rest), 0, "", false, env) ==
            Finish(a + value + (if rest == "" then [NUL] else rest), false, false)
  {
    hide Scan, Ordinary, Plain, Lookup, Add;
    OrdinaryParts(a, value, rest);
    var tok, post := " " + (a + "$" + name + rest), "$" + name + rest;
    ScanBlank(line, tok, env);
    assert tok == " " + a + post == (" " + a) + "$" + name + rest;
    ScanRun(line, " ", a, post, "", false, env);
    assert "" + a == a;
    if |a| <= BUFFER {
      ScanVariable(line, " " + a, name, rest, a, false, env);
      AddsEnd(a + value, rest);
      if rest == "" {
        ScanEnd(line, tok, |tok| + 1, a + value + [NUL], env);
      } else {
        var pre := " " + a + "$" + name + [rest[0]];
        assert tok == pre + rest[1..];
        assert a + value + [rest[0]] + rest[1..] == a + value + rest;
        if |a + value| + 1 <= BUFFER {
          ScanAll(line, pre, rest[1..], a + value + [rest[0]], false, env);
        }
      }
    }
  }

  lemma AddsEnd(text: string, rest: string)
    requires forall c :: c in rest ==> Plain(c, false)
    ensures Add(text, if rest == "" then NUL else rest[0], false) == text + [if rest == "" then NUL else rest[0]]
    ensures rest != "" ==> forall c :: c in rest[1..] ==> Plain(c, false)
  {
    assert rest != "" ==> rest[0] in rest;
  }

  lemma ScanEnd(line: string, tok: string, i: nat, text: string, env: Env)
    requires |tok| <= i
    ensures Scan(line, tok, i, text, false, env) == Finish(text, false, false)
  {
  }

  /**
   A variable in a bare parameter: the parameter is read as if the value were written out.  At the end of the
   parameter this takes one character more of the buffer.
   */
  lemma BareVariable(line: string, a: string, name: string, value: string, rest: string,
        after: string, text: string, params: seq<string>, env: Env)
    requires IsVarName(name) && EndsName(rest) && |name| < BUFFER && Lookup(env, name) == Some(value)
    requires Printable(Bare(a + value + rest)) && AtComma(after)
    ensures Continue(line, " " + (a + "$" + name + rest) + after, text, false, params, env) ==
            if rest == "" && |a + value| == BUFFER - 1 then OutOfBounds(TextBuffer)
            else Pushed(line, Behind(after), a + value + rest, params, env)
  {
    hide Scan, NextToken, Ordinary, Plain, Lookup, Continue, CString;
    OrdinaryParts(a, value, rest);
    NameIsPlain(name);
    FirstToken(" " + (a + "$" + name + rest), after, ',');
    ScanBareVariable(line, a, name, value, rest, env);
    TokenContinues(line, " " + (a + "$" + name + rest), after, text, params, env);
    assert a + value + "" == a + value;
    NulCut(a + value);
    TextIrrelevant(line, Behind(after), a + value + [NUL], a + value, params + [a + value], env);
    NoNulCut(a + value + rest);
  }

  lemma NulCut(s: string)
    requires NUL !in s
    ensures CString(s + [NUL]) == s
  {
    SpanOf(s, [NUL], NUL);
  }

  lemma NoNulCut(s: string)
    requires NUL !in s
    ensures CString(s) == s
  {
    SpanOf(s, "", NUL);
    assert s + "" == s;
  }

  lemma TextIrrelevant(line: string, rest: string, a: string, b: string, params: seq<string>, env: Env)
    ensures Continue(line, rest, a, false, params, env) == Continue(line, rest, b, false, params, env)
  {
    hide Scan, NextToken;
  }

  lemma OrdinaryParts(a: string, value: string, rest: string)
    requires Printable(Bare(a + value + rest))
    ensures (forall c :: c in a ==> Plain(c, false)) && (forall c :: c in rest ==> Plain(c, false))
    ensures ',' !in a && ',' !in rest && NUL !in a + value + rest
  {
    assert forall c :: c in a + value + rest ==> c != ',' && c != NUL && Plain(c, false);
    assert forall c :: c in a ==> c in a + value + rest;
    assert forall c :: c in rest ==> c in a + value + rest;
  }

  lemma NameIsPlain(name: string)
    requires IsVarName(name)
    ensures ',' !in name
  {
  }

  lemma TokenContinues(line: string, tok: string, after: string, text: string, params: seq<string>, env: Env)
    requires NextToken(tok + after, ',') == Some((tok, Behind(after)))
    ensures Continue(line, tok + after, text, false, params, env) ==
            match Scan(line, tok, 0, "", false, env)
            case Failed => Panic
            case Outside => OutOfBounds(TextBuffer)
            case Scanned(text', inQuotes', comment) =>
              if text' == "" then Params(params)
              else if inQuotes' then
                if comment then Params(params) else Continue(line, Behind(after), text', true, params, env)
              else if |params| >= MAX_PARAMS then OutOfBounds(ParamSlots)
              else if comment then Params(params + [CString(text')])
              else Continue(line, Behind(after), text', false, params + [CString(text')], env)
  {
    hide Scan, NextToken, CString;
  }

  /** What a name stands for: the environment is asked first, and only BXSHARE has a value besides. */
  predicate StandsFor(env: Env, name: string, value: string) {
    if name != "" && name in env.vars then value == env.vars[name] else name == "BXSHARE" && value == env.share
  }

  lemma {:induction false} SameForAnyLine(line: string, line': string, items: seq<Item>, text: string,
        params: seq<string>, env: Env)
    requires forall i :: 0 <= i < |items| ==> Printable(items[i])
    ensures Continue(line, ItemsText(items), text, false, params, env) ==
            Continue(line', ItemsText(items), text, false, params, env)
    decreases items
  {
    hide Printable, ReadBack, Continue, ItemsText;
    if items == [] {
      NoMore(line, text, params, env);
      NoMore(line', text, params, env);
    } else {
      FirstItem(line, items, text, params, env);
      FirstItem(line', items, text, params, env);
      var first := ReadBack(items[0]);
      SameForAnyLine(line, line', items[1..], first, params + [first], env);
    }
  }

  lemma FirstText(item: Item, after: seq<Item>)
    ensures var behind := if after == [] then "" else "," + ItemsText(after);
      && ItemsText([item] + after) == " " + ItemText(item) + behind && AtComma(behind)
      && Behind(behind) == ItemsText(after)
  {
    hide ItemText;
    assert ([item] + after)[1..] == after;
    if after != [] {
      assert ("," + ItemsText(after))[1..] == ItemsText(after);
    }
  }

  lemma {:induction false} VariableAmong(line: string, line': string, before: seq<Item>, a: string, name: string,
        value: string, rest: string, after: seq<Item>, text: string, params: seq<string>, env: Env)
    requires IsVarName(name) && EndsName(rest) && |name| < BUFFER && Lookup(env, name) == Some(value)
    requires forall i :: 0 <= i < |before| ==> Printable(before[i])
    requires forall i :: 0 <= i < |after| ==> Printable(after[i])
    requires Printable(Bare(a + value + rest)) && (rest == "" ==> |a + value| != BUFFER - 1)
    ensures Continue(line, ItemsText(before + [Bare(a + "$" + name + rest)] + after), text, false, params, env) ==
            Continue(line', ItemsText(before + [Bare(a + value + rest)] + after), text, false, params, env)
    decreases before
  {
    hide Printable, ReadBack, Continue, ItemsText, Lookup, Pushed;
    var x, y := Bare(a + "$" + name + rest), Bare(a + value + rest);
    var xs, ys := before + [x] + after, before + [y] + after;
    if before == [] {
      FirstText(x, after);
      FirstText(y, after);
      assert xs == [x] + after && ys == [y] + after;
      var behind := if after == [] then "" else "," + ItemsText(after);
      BareVariable(line, a, name, value, rest, behind, text, params, env);
      BareStep(line', a + value + rest, behind, text, params, env);
      PushedForAnyLine(line, line', after, a + value + rest, params, env);
    } else {
      FirstItem(line, xs, text, params, env);
      FirstItem(line', ys, text, params, env);
      var first := ReadBack(before[0]);
      assert xs[1..] == before[1..] + [x] + after && ys[1..] == before[1..] + [y] + after;
      VariableAmong(line, line', before[1..], a, name, value, rest, after, first, params + [first], env);
    }
  }

  lemma PushedForAnyLine(line: string, line': string, after: seq<Item>, text: string, params: seq<string>, env: Env)
    requires forall i :: 0 <= i < |after| ==> Printable(after[i])
    ensures Pushed(line, ItemsText(after), text, params, env) == Pushed(line', ItemsText(after), text, params, env)
  {
    hide Printable, Continue, ItemsText;
    SameForAnyLine(line, line', after, text, params + [CString(text)], env);
  }

  /**
   A line with a variable in a bare parameter is read as the line in which its value is written out, wherever the
   parameter stands; at the end of a parameter only if that leaves room for one character more.
   */
  lemma VariableLine(name: string, before: seq<Item>, a: string, v: string, value: string, rest: string,
                     after: seq<Item>, env: Env)
    requires PrintableName(name) && IsVarName(v) && |v| < BUFFER && EndsName(rest) && StandsFor(env, v, value)
    requires forall i :: 0 <= i < |before| ==> Printable(before[i])
    requires forall i :: 0 <= i < |after| ==> Printable(after[i])
    requires Printable(Bare(a + value + rest)) && (rest == "" ==> |a + value| != BUFFER - 1)
    ensures Tokenize(Print(name, before + [Bare(a + "$" + v + rest)] + after), env) ==
            Tokenize(Print(name, before + [Bare(a + value + rest)] + after), env)
  {
    hide Tokenize, PrintableName, Printable, Continue, ItemsText;
    var xs, ys := before + [Bare(a + "$" + v + rest)] + after, before + [Bare(a + value + rest)] + after;
    NameRead(name, xs, env);
    NameRead(name, ys, env);
    VariableAmong(Print(name, xs), Print(name, ys), before, a, v, value, rest, after, name, [name], env);
  }

  /** An unknown or empty name is a panic, whatever is behind it, if the parameters before it are read. */
  lemma UnknownPanics(name: string, before: seq<Item>, a: string, v: string, rest: string, after: seq<Item>, env: Env)
    requires PrintableName(name) && |name| < BUFFER && 1 + |before| <= MAX_PARAMS && AllFit(AllReadBack(before))
    requires forall i :: 0 <= i < |before| ==> Printable(before[i])
    requires IsVarName(v) && |v| < BUFFER && EndsName(rest) && (v == "" || (v !in env.vars && v != "BXSHARE"))
    requires (forall c :: c in a ==> Ordinary(c)) && |a| <= BUFFER && ',' !in rest
    ensures Tokenize(Print(name, before + [Bare(a + "$" + v + rest)] + after), env) == Panic
  {
    hide Tokenize, PrintableName, Printable, Continue, ItemsText, Ordinary, AllFit, AllReadBack;
    var xs := before + [Bare(a + "$" + v + rest)] + after;
    NameRead(name, xs, env);
    UnknownAmong(Print(name, xs), before, a, v, rest, after, name, [name], env);
  }

  lemma {:induction false} UnknownAmong(line: string, before: seq<Item>, a: string, v: string, rest: string,
        after: seq<Item>, text: string, params: seq<string>, env: Env)
    requires |params| + |before| <= MAX_PARAMS && AllFit(AllReadBack(before))
    requires forall i :: 0 <= i < |before| ==> Printable(before[i])
    requires IsVarName(v) && |v| < BUFFER && EndsName(rest) && Lookup(env, v).None?
    requires (forall c :: c in a ==> Ordinary(c)) && |a| <= BUFFER && ',' !in rest
    ensures Continue(line, ItemsText(before + [Bare(a + "$" + v + rest)] + after), text, false, params, env) == Panic
    decreases before
  {
    hide Printable, ReadBack, Continue, ItemsText, Lookup, Ordinary, AllFit, AllReadBack;
    var x := Bare(a + "$" + v + rest);
    var xs := before + [x] + after;
    if before == [] {
      FirstText(x, after);
      assert xs == [x] + after;
      BareUnknown(line, a, v, rest, if after == [] then "" else "," + ItemsText(after), text, params, env);
    } else {
      FirstItem(line, xs, text, params, env);
      AllReadBackFirst(before, params);
      var first := ReadBack(before[0]);
      assert xs[1..] == before[1..] + [x] + after;
      UnknownAmong(line, before[1..], a, v, rest, after, first, params + [first], env);
    }
  }

  lemma BareUnknown(line: string, a: string, v: string, rest: string, after: string, text: string,
                    params: seq<string>, env: Env)
    requires IsVarName(v) && |v| < BUFFER && EndsName(rest) && Lookup(env, v).None? && AtComma(after)
    requires (forall c :: c in a ==> Ordinary(c)) && |a| <= BUFFER && ',' !in rest
    ensures Continue(line, " " + (a + "$" + v + rest) + after, text, false, params, env) == Panic
  {
    hide Scan, NextToken, Ordinary, Plain, Lookup, Continue, CString;
    OrdinaryPlain(a);
    NameIsPlain(v);
    var tok, post := " " + (a + "$" + v + rest), "$" + v + rest;
    FirstToken(tok, after, ',');
    TokenContinues(line, tok, after, text, params, env);
    ScanBlank(line, tok, env);
    assert tok == " " + a + post == (" " + a) + "$" + v + rest;
    ScanRun(line, " ", a, post, "", false, env);
    assert "" + a == a;
    ScanVariable(line, " " + a, v, rest, a, false, env);
  }

  /** A variable right before the closing quotation mark takes the mark into the text: the quotation stays open. */
  lemma QuotationStaysOpen(line: string, key: string, a: string, v: string, value: string, env: Env)
    requires (forall c :: c in key ==> Ordinary(c)) && (forall c :: c in a ==> Quotable(c) && c != ',')
    requires IsVarName(v) && |v| < BUFFER && StandsFor(env, v, value) && |key| + 1 + |a| + |value| + 1 < BUFFER
    ensures Scan(line, " " + (key + "=") + "\"" + (a + "$" + v + "\""), 0, "", false, env) ==
            Scanned(key + "=" + a + value + "\"", true, false)
  {
    hide Scan, Ordinary, Quotable, Plain, Lookup;
    var pre, post := " " + (key + "=") + "\"", a + "$" + v + "\"";
    ScanKey(line, key, post, env);
    QuotablePlain(a);
    assert pre + post == pre + a + ("$" + v + "\"") == (pre + a) + "$" + v + "\"";
    ScanRun(line, pre, a, "$" + v + "\"", key + "=", true, env);
    assert Lookup(env, v) == Some(value) by { StandsForIs(env, v, value); }
    ScanVariable(line, pre + a, v, "\"", key + "=" + a, true, env);
    MarkIsAdded(key + "=" + a + value);
    ScanOpenEnd(line, pre + post, |pre + a| + |v| + 2, key + "=" + a + value + "\"", env);
  }

  lemma StandsForIs(env: Env, v: string, value: string)
    requires StandsFor(env, v, value)
    ensures Lookup(env, v) == Some(value)
  {
  }

  lemma MarkIsAdded(text: string)
    ensures Add(text, '"', true) == text + "\""
  {
  }

  lemma ScanOpenEnd(line: string, tok: string, i: nat, text: string, env: Env)
    requires |tok| <= i && |text| < BUFFER
    ensures Scan(line, tok, i, text, true, env) == Scanned(text, true, false)
  {
  }

  // ---------- blanks, comments and include directives ----------

  predicate Blank(s: string) {
    forall c :: c in s ==> c in " \t\n\U{b}\U{c}\r"
  }

  /** Blanks outside of quotation marks make no difference. */
  lemma {:induction false} BlanksAreDropped(line: string, pre: string, blanks: string, post: string, text: string,
        env: Env)
    requires Blank(blanks) && |text| <= BUFFER
    ensures Scan(line, pre + blanks + post, |pre|, text, false, env) ==
            Scan(line, pre + blanks + post, |pre| + |blanks|, text, false, env)
    decreases blanks
  {
    if blanks != "" {
      var tok := pre + blanks + post;
      assert tok[|pre|] == blanks[0] && blanks[0] in blanks;
      BlankIsSpace(blanks[0]);
      assert tok == (pre + [blanks[0]]) + blanks[1..] + post;
      BlanksAreDropped(line, pre + [blanks[0]], blanks[1..], post, text, env);
    }
  }

  lemma BlankIsSpace(c: char)
    ensures c in " \t\n\U{b}\U{c}\r" <==> IsSpace(c)
  {
  }

  /** A line that says nothing. */
  lemma BlankLine(line: string, env: Env)
    ensures Tokenize(line, env) == Nothing <==> Blank(line)
  {
    hide IsSpace, NextToken, IncludeAt, Loop;
    forall c ensures c in " \t\n\U{b}\U{c}\r" <==> IsSpace(c) {
      BlankIsSpace(c);
    }
    var next := NextToken(line, if IncludeAt(line, 0) then ' ' else ':');
    if next.Some? {
      LoopSaysSomething(line, next.value.0, next.value.1, "", false, [], env);
    }
  }

  lemma {:induction false} LoopSaysSomething(line: string, tok: string, rest: string, text: string, inQuotes: bool,
        params: seq<string>, env: Env)
    ensures Loop(line, tok, rest, text, inQuotes, params, env) != Nothing
    decreases |rest|
  {
    hide Scan, NextToken, CString;
    var next := NextToken(rest, ',');
    var r := Scan(line, tok, 0, if inQuotes then text + "," else "", inQuotes, env);
    if r.Scanned? && next.Some? {
      LoopSaysSomething(line, next.value.0, next.value.1, r.text, r.inQuotes,
        if r.inQuotes then params else params + [CString(r.text)], env);
    }
  }

  /** A comment ends its token, except where the line has an include directive at the same distance from its start. */
  lemma ScanComment(line: string, pre: string, comment: string, text: string, env: Env)
    requires |text| < BUFFER && !IncludeAt(line, |pre|)
    ensures Scan(line, pre + "#" + comment, |pre|, text, false, env) == Scanned(text, false, true)
  {
    hide IncludeAt;
    assert (pre + "#" + comment)[|pre|] == '#';
  }

  /** A line that is only a comment has no parameters. */
  lemma CommentLine(comment: string, env: Env)
    requires !IncludeAt("#" + comment, 0)
    ensures Tokenize("#" + comment, env) == Params([])
  {
    hide NextToken, Scan, IncludeAt;
    var line := "#" + comment;
    assert line[0] == '#' && line[0] in line;
    var n := Span(comment, ':');
    if n == |comment| {
      assert ':' !in line;
      FirstToken(line, "", ':');
      assert line + "" == line;
      ScanComment(line, "", comment, "", env);
      assert "" + "#" + comment == line;
    } else {
      var a := "#" + comment[..n];
      assert ':' !in a && line == a + comment[n..];
      FirstToken(a, comment[n..], ':');
      ScanComment(line, "", comment[..n], "", env);
      assert "" + "#" + comment[..n] == a;
    }
  }

  /** A comment behind the last parameter, and all that follows, is not read. */
  lemma CommentBehind(name: string, before: seq<Item>, last: string, comment: string, env: Env)
    requires PrintableName(name) && Printable(Bare(last)) && forall i :: 0 <= i < |before| ==> Printable(before[i])
    requires var line := Print(name, before + [Bare(last)]); '#' !in line
    requires |name| < BUFFER && 2 + |before| <= MAX_PARAMS && AllFit(AllReadBack(before)) && |last| < BUFFER
    ensures Tokenize(Print(name, before + [Bare(last + "#" + comment)]), env) ==
            Params([name] + AllReadBack(before) + [last])
  {
    hide Tokenize, PrintableName, Printable, Continue, ItemsText, AllFit, AllReadBack, IncludeAt;
    var xs := before + [Bare(last + "#" + comment)];
    var line, clean := Print(name, xs), Print(name, before + [Bare(last)]);
    LastItem(before, Bare(last));
    LastItem(before, Bare(last + "#" + comment));
    BareTexts(last, last + "#" + comment);
    var front := name + ":" + if before == [] then " " else ItemsText(before) + ", ";
    assert clean == front + last && line == front + (last + "#" + comment);
    assert line == clean + ("#" + comment);
    NoIncludeBefore(line, clean, "#" + comment);
    NameRead(name, xs, env);
    CommentAmong(line, before, last, comment, name, [name], env);
    assert [name] + AllReadBack(before) + [last] == [name] + AllReadBack(before) + [last];
  }

  lemma BareTexts(a: string, b: string)
    ensures ItemText(Bare(a)) == a && ItemText(Bare(b)) == b
  {
  }

  lemma NoIncludeBefore(line: string, clean: string, rest: string)
    requires line == clean + rest && '#' !in clean
    ensures forall i: nat :: i < |clean| ==> !IncludeAt(line, i)
  {
    hide IncludeAt;
    forall i: nat | i < |clean| ensures !IncludeAt(line, i) {
      assert line[i] == clean[i] && clean[i] in clean;
      IncludeMark(line, i);
    }
  }

  lemma IncludeMark(line: string, i: nat)
    ensures IncludeAt(line, i) ==> line[i] == '#'
  {
    assert forall s: string :: s == "#include" ==> s[0] == '#';
  }

  lemma {:induction false} CommentAmong(line: string, before: seq<Item>, last: string, comment: string, text: string,
        params: seq<string>, env: Env)
    requires Printable(Bare(last)) && forall i :: 0 <= i < |before| ==> Printable(before[i])
    requires |params| + |before| + 1 <= MAX_PARAMS && AllFit(AllReadBack(before)) && |last| < BUFFER
    requires !IncludeAt(line, |last| + 1)
    ensures Continue(line, ItemsText(before + [Bare(last + "#" + comment)]), text, false, params, env) ==
            Params(params + AllReadBack(before) + [last])
    decreases before
  {
    hide Printable, ReadBack, Continue, ItemsText, AllFit, AllReadBack, IncludeAt;
    var x := Bare(last + "#" + comment);
    var xs := before + [x];
    if before == [] {
      FirstText(x, []);
      assert xs == [x] + [];
      NoMore(line, text, params, env);
      BareComment(line, last, comment, text, params, env);
      assert params + [] + [last] == params + [last];
      assert " " + (last + "#" + comment) + "" == " " + (last + "#" + comment);
    } else {
      FirstItem(line, xs, text, params, env);
      AllReadBackFirst(before, params);
      var first := ReadBack(before[0]);
      assert xs[1..] == before[1..] + [x];
      CommentAmong(line, before[1..], last, comment, first, params + [first], env);
    }
  }

  lemma BareComment(line: string, last: string, comment: string, text: string, params: seq<string>, env: Env)
    requires Printable(Bare(last)) && |last| < BUFFER && |params| < MAX_PARAMS && !IncludeAt(line, |last| + 1)
    ensures Continue(line, " " + (last + "#" + comment), text, false, params, env) == Params(params + [last])
  {
    hide Scan, NextToken, Ordinary, Plain, Continue, CString, IncludeAt;
    OrdinaryPlain(last);
    NoNulCut(last);
    var n := Span(comment, ',');
    var tok, after := " " + (last + "#" + comment[..n]), comment[n..];
    assert tok + after == " " + (last + "#" + comment);
    assert ',' !in tok;
    FirstToken(tok, after, ',');
    TokenContinues(line, tok, after, text, params, env);
    ScanBlank(line, tok, env);
    assert tok == " " + last + ("#" + comment[..n]) == (" " + last) + "#" + comment[..n];
    ScanRun(line, " ", last, "#" + comment[..n], "", false, env);
    assert "" + last == last;
    ScanComment(line, " " + last, comment[..n], last, env);
  }

  /** The directive that has a blank behind it for a colon. */
  lemma IncludeLine(path: string, env: Env)
    requires Printable(Bare(path)) && |path| < BUFFER
    ensures Tokenize("#include " + path, env) == Params(["#include", path])
  {
    hide Tokenize, Scan, NextToken, Ordinary, Plain, Continue, CString;
    var line := "#include " + path;
    DirectiveRead(line, path, env);
    OrdinaryPlain(path);
    NoNulCut(path);
    FirstToken(path, "", ',');
    TokenContinues(line, path, "", "#include", ["#include"], env);
    assert path + "" == path && ["#include"] + [path] == ["#include", path];
    ScanAll(line, "", path, "", false, env);
    assert "" + path == path;
    NoMore(line, path, ["#include", path], env);
  }

  lemma DirectiveRead(line: string, path: string, env: Env)
    requires line == "#include " + path
    ensures IncludeAt(line, 0) && Tokenize(line, env) == Continue(line, path, "#include", false, ["#include"], env)
  {
    hide Tokenize, Scan, NextToken, Continue, CString, IncludeAt;
    DirectiveSplit(line, path, env);
    ScanDirective(line, env);
    NoNulCut("#include");
    assert [] + ["#include"] == ["#include"];
  }

  lemma DirectiveSplit(line: string, path: string, env: Env)
    requires line == "#include " + path
    ensures IncludeAt(line, 0) && Tokenize(line, env) == Loop(line, "#include", path, "", false, [], env)
  {
    hide NextToken, Loop;
    assert line[..8] == "#include" && line[0] == '#' && line[0] in line && !IsSpace('#');
    hide IsSpace;
    assert line == "#include" + (" " + path) && (" " + path)[1..] == path;
    FirstToken("#include", " " + path, ' ');
  }

  lemma IncludeMeans(line: string)
    ensures IncludeAt(line, 0) <==> "#include" <= line
  {
    if 8 <= |line| {
      assert line[0..8] == line[..8];
    }
  }

  lemma ScanDirective(line: string, env: Env)
    requires IncludeAt(line, 0)
    ensures Scan(line, "#include", 0, "", false, env) == Scanned("#include", false, false)
  {
    hide IncludeAt, Plain;
    DirectiveIsPlain();
    ScanMark(line, "#include", env);
    ScanAll(line, "#", "include", "#", false, env);
    assert "#" + "include" == "#include";
  }

  lemma DirectiveIsPlain()
    ensures forall c :: c in "include" ==> Plain(c, false)
  {
  }

  lemma ScanMark(line: string, tok: string, env: Env)
    requires IncludeAt(line, 0) && tok != "" && tok[0] == '#'
    ensures Scan(line, tok, 0, "", false, env) == Scan(line, tok, 1, "#", false, env)
  {
    hide IncludeAt;
    assert "" + ['#'] == "#";
  }

  // ---------- lines without variables ----------

  lemma {:induction false} ScanStaysInside(line: string, tok: string, i: nat, text: string, inQuotes: bool, env: Env)
    requires i <= |tok| && '$' !in tok && |text| + (|tok| - i) < BUFFER
    ensures var r := Scan(line, tok, i, text, inQuotes, env);
      r.Scanned? && |r.text| <= |text| + (|tok| - i)
    decreases |tok| - i
  {
    hide IsSpace, IncludeAt;
    if i < |tok| {
      assert tok[i] in tok;
      if tok[i] == '"' {
        ScanStaysInside(line, tok, i + 1, text, !inQuotes, env);
      } else if !(tok[i] == '#' && !IncludeAt(line, i) && !inQuotes) {
        ScanStaysInside(line, tok, i + 1, Add(text, tok[i], inQuotes), inQuotes, env);
      }
    }
  }

  /** What strtok finds and leaves is shorter than what it was given by at least the delimiter between them. */
  lemma TokenBounds(s: string, d: char)
    requires NextToken(s, d).Some?
    ensures var (tok, rest) := NextToken(s, d).value;
      && |tok| + Left(rest) <= |s|
      && ('$' !in s ==> '$' !in tok && '$' !in rest)
  {
    SkipKeeps(s, d);
    hide Skip, Span;
  }

  lemma {:induction false} SkipKeeps(s: string, d: char)
    ensures |Skip(s, d)| <= |s| && forall c :: c in Skip(s, d) ==> c in s
    decreases s
  {
    if s != "" && s[0] == d {
      SkipKeeps(s[1..], d);
    }
  }

  /** The room that what is left behind a delimiter may yet take, with the comma before it. */
  function Left(rest: string): nat {
    if rest == "" then 0 else 1 + |rest|
  }

  lemma {:induction false} LoopStaysInside(line: string, tok: string, rest: string, text: string, inQuotes: bool,
                                           params: seq<string>, env: Env)
    requires '$' !in tok && '$' !in rest
    requires (if inQuotes then |text| + 1 else 0) + |tok| + Left(rest) < BUFFER
    ensures var r := Loop(line, tok, rest, text, inQuotes, params, env);
      r != OutOfBounds(TextBuffer) && !r.Panic?
    decreases |rest|
  {
    hide Scan, NextToken, CString;
    var start := if inQuotes then text + "," else "";
    ScanStaysInside(line, tok, 0, start, inQuotes, env);
    var r := Scan(line, tok, 0, start, inQuotes, env);
    var params' := if r.inQuotes then params else params + [CString(r.text)];
    if NextToken(rest, ',').Some? {
      TokenBounds(rest, ',');
      var (tok', rest') := NextToken(rest, ',').value;
      assert rest != "" by { NothingNext(','); }
      LoopStaysInside(line, tok', rest', r.text, r.inQuotes, params', env);
    }
  }

  lemma NothingNext(d: char)
    ensures NextToken("", d).None?
  {
  }

  /** A line of at most 511 characters without a variable neither overruns the text nor names an unknown variable. */
  lemma ShortLineStaysInside(line: string, env: Env)
    requires |line| < BUFFER && '$' !in line
    ensures var r := Tokenize(line, env); r != OutOfBounds(TextBuffer) && !r.Panic?
  {
    hide NextToken, Loop, IsSpace, IncludeAt;
    var d := if IncludeAt(line, 0) then ' ' else ':';
    if NextToken(line, d).Some? {
      TokenBounds(line, d);
      var (tok, rest) := NextToken(line, d).value;
      LoopStaysInside(line, tok, rest, "", false, [], env);
    }
  }

  // ---------- parse_line_unformatted ----------

  lemma {:induction false} SpanFrom(s: string, n: nat, d: char)
    requires n <= |s| && d !in s[..n] && (n == |s| || s[n] == d)
    ensures Span(s, d) == n
  {
    assert s == s[..n] + s[n..];
    SpanOf(s[..n], s[n..], d);
  }

  lemma TokenAt(s: string, i: nat, n: nat, d: char)
    requires i < n <= |s| && Skip(s, d) == s[i..] && d !in s[i..n] && (n == |s| || s[n] == d)
    ensures NextToken(s, d) == Some((s[i..n], if n < |s| then s[n + 1..] else ""))
  {
    hide Skip, Span;
    var t := s[i..];
    assert t[..n - i] == s[i..n];
    SpanFrom(t, n - i, d);
    if n < |s| {
      assert t[n - i + 1..] == s[n + 1..];
    }
  }

  /** strtok: the next token behind leading delimiters, and what is left behind it. */
  method StrTok(s: string, d: char) returns (tok: Option<string>, rest: string)
    ensures tok.None? <==> NextToken(s, d).None?
    ensures tok.Some? ==> NextToken(s, d) == Some((tok.value, rest))
  {
    var i := SkipDelimiters(s, d);
    if i == |s| {
      return None, "";
    }
    hide Skip, NextToken;
    var n := i + 1;
    while n < |s| && s[n] != d
      invariant i < n <= |s| && d !in s[i..n]
    {
      n := n + 1;
    }
    TokenAt(s, i, n, d);
    return Some(s[i..n]), if n < |s| then s[n + 1..] else "";
  }

  method SkipDelimiters(s: string, d: char) returns (i: nat)
    ensures i <= |s| && Skip(s, d) == s[i..] && (i < |s| ==> s[i] != d)
  {
    i := 0;
    while i < |s| && s[i] == d
      invariant 0 <= i <= |s| && Skip(s[i..], d) == Skip(s, d)
    {
      assert s[i..][1..] == s[i + 1..];
      i := i + 1;
    }
  }

  /** The characters of one token, with quotation marks, comments and variables; string[512] is text. */
  method ScanToken(line: string, ptr: string, start: string, quotes: bool, env: Env) returns (r: Scanned)
    ensures r == Scan(line, ptr, 0, start, quotes, env)
  {
    hide IncludeAt, IsSpace;
    var text, inQuotes := start, quotes;
    var i := 0;
    while i < |ptr|
      invariant 0 <= i && Scan(line, ptr, 0, start, quotes, env) == Scan(line, ptr, i, text, inQuotes, env)
      decreases |ptr| - i
    {
      if ptr[i] == '"' {
        inQuotes := !inQuotes;
      } else if ptr[i] == '#' && !IncludeAt(line, i) && !inQuotes {
        return Finish(text, inQuotes, true);
      } else {
        var c := ptr[i];
        if ptr[i] == '$' {
          var value;
          var from := i + 1;
          value, i := Substitute(ptr, i, env);
          if BUFFER <= i - from {
            return Outside;
          }
          if value.None? {
            return Failed;
          }
          text := text + value.value;
          c := if i < |ptr| then ptr[i] else NUL;
        }
        if !IsSpace(c) || inQuotes {
          text := text + [c];
        }
        if BUFFER < |text| {
          return Outside;
        }
      }
      i := i + 1;
    }
    return Finish(text, inQuotes, false);
  }

  /** The variable whose name starts behind the dollar sign at i, and where the name ends. */
  method Substitute(ptr: string, i: nat, env: Env) returns (value: Option<string>, n: nat)
    requires i < |ptr|
    ensures n == VarEnd(ptr, i + 1) && value == Lookup(env, ptr[i + 1..n])
  {
    n := i + 1;
    var name := "";
    while n < |ptr| && (IsAlpha(ptr[n]) || ptr[n] == '_')
      invariant i < n <= |ptr| && name == ptr[i + 1..n] && VarEnd(ptr, i + 1) == VarEnd(ptr, n)
    {
      name := name + [ptr[n]];
      n := n + 1;
    }
    value := Lookup(env, name);
  }

  method ParseLineUnformatted(line: string, env: Env) returns (r: Outcome)
    ensures r == Tokenize(line, env)
  {
    hide Scan, IncludeAt, NextToken, CString, IsSpace;
    var i := 0;
    while i < |line| && IsSpace(line[i])
      invariant 0 <= i <= |line| && forall k :: 0 <= k < i ==> IsSpace(line[k])
    {
      i := i + 1;
    }
    if i == |line| {
      return Nothing;
    }
    assert line[i] in line;
    var ptr, rest := StrTok(line, if IncludeAt(line, 0) then ' ' else ':');
    var params, text, inQuotes, comment := [], "", false, false;
    while ptr.Some? && !comment
      invariant Tokenize(line, env) == if ptr.None? || comment then Params(params)
                                       else Loop(line, ptr.value, rest, text, inQuotes, params, env)
      decreases if ptr.None? then 0 else 1 + |rest|
    {
      var scanned := ScanToken(line, ptr.value, if inQuotes then text + "," else "", inQuotes, env);
      if scanned.Failed? {
        return Panic;
      }
      if scanned.Outside? {
        return OutOfBounds(TextBuffer);
      }
      text, inQuotes, comment := scanned.text, scanned.inQuotes, scanned.comment;
      if text == "" {
        break;
      }
      if !inQuotes {
        if |params| >= MAX_PARAMS {
          return OutOfBounds(ParamSlots);
        }
        params := params + [text[..Span(text, NUL)]];
        assert params[|params| - 1] == CString(text) by { StrDup(text); }
      }
      ptr, rest := StrTok(rest, ',');
    }
    return Params(params);
  }

  lemma StrDup(s: string)
    ensures CString(s) == s[..Span(s, NUL)]
  {
  }
}
