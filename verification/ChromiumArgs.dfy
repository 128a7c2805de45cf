/** Caller-supplied browser switches (src/chromium-args.ts): splitting a quoted string. */
module ChromiumArgs {
  import opened Common

  /** The characters of the regular expression class \s, which are also those trim() removes. */
  predicate IsSpace(c: char) {
    || c in {' ', '\t', '\n', '\r', '\U{000B}', '\U{000C}', '\U{00A0}', '\U{1680}'}
    || '\U{2000}' <= c <= '\U{200A}'
    || c in {'\U{2028}', '\U{2029}', '\U{202F}', '\U{205F}', '\U{3000}', '\U{FEFF}'}
  }

  /** By code unit: tab to carriage return, space, no-break space, and the separators of Unicode. */
  lemma SpaceCodes(c: char)
    ensures IsSpace(c) <==>
      (9 <= c as int <= 13 || 8192 <= c as int <= 8202 || c as int in {32, 160, 5760, 8232, 8233, 8239, 8287, 12288, 65279})
  {
  }

  predicate IsQuote(c: char) {
    c == '"' || c == '\''
  }

  predicate AllSpace(s: string) {
    forall i :: 0 <= i < |s| ==> IsSpace(s[i])
  }

  function TrimStart(s: string): (r: string)
    ensures |r| <= |s| && r == s[|s| - |r|..] && AllSpace(s[..|s| - |r|])
    ensures r == "" || !IsSpace(r[0])
  {
    if s != "" && IsSpace(s[0]) then
      var r := TrimStart(s[1..]);
      assert s[..|s| - |r|] == [s[0]] + s[1..][..|s| - 1 - |r|];
      r
    else s
  }

  function TrimEnd(s: string): (r: string)
    ensures r <= s && AllSpace(s[|r|..])
    ensures r == "" || !IsSpace(r[|r| - 1])
  {
    if s != "" && IsSpace(s[|s| - 1]) then
      var r := TrimEnd(s[..|s| - 1]);
      assert s[|r|..] == s[..|s| - 1][|r|..] + [s[|s| - 1]];
      r
    else s
  }

  function Trim(s: string): string {
    TrimEnd(TrimStart(s))
  }

  // ---- the scanner ----

  datatype Scan = Scan(args: seq<string>, current: string, started: bool, quote: Option<char>)

  const START := Scan([], "", false, None)

  function Next(s: Scan, c: char): Scan {
    if s.quote.Some? then
      if c == s.quote.value then s.(quote := None) else s.(current := s.current + [c])
    else if IsQuote(c) then s.(quote := Some(c), started := true)
    else if IsSpace(c) then Scan(if s.started then s.args + [s.current] else s.args, "", false, None)
    else s.(current := s.current + [c], started := true)
  }

  predicate QuoteIsQuote(s: Scan) {
    s.quote.Some? ==> IsQuote(s.quote.value)
  }

  function Run(s: Scan, text: string): (r: Scan)
    ensures QuoteIsQuote(s) ==> QuoteIsQuote(r)
  {
    if text == "" then s else Next(Run(s, text[..|text| - 1]), text[|text| - 1])
  }

  lemma RunEmpty(s: Scan)
    ensures Run(s, "") == s
  {
  }

  lemma RunStep(s: Scan, text: string, i: nat)
    requires i < |text|
    ensures Run(s, text[..i + 1]) == Next(Run(s, text[..i]), text[i])
  {
    assert text[..i + 1][..i] == text[..i];
  }

  lemma RunOne(s: Scan, c: char)
    ensures Run(s, [c]) == Next(s, c)
  {
    RunEmpty(s);
    assert [c][..0] == "";
  }

  lemma {:induction false} RunConcat(s: Scan, a: string, b: string)
    ensures Run(s, a + b) == Run(Run(s, a), b)
  {
    if b == "" {
      assert a + b == a;
    } else {
      RunConcat(s, a, b[..|b| - 1]);
      assert (a + b)[..|a + b| - 1] == a + b[..|b| - 1];
    }
  }

  /** The arguments of a finished scan; None when a quote is left open. */
  function Result(s: Scan): Option<seq<string>> {
    if s.quote.Some? then None
    else Some(if s.started then s.args + [s.current] else s.args)
  }

  /** What the whole untrimmed text means. */
  function Meaning(text: string): Option<seq<string>> {
    Result(Run(START, text))
  }

  lemma {:induction false} SpaceRun(s: Scan, text: string)
    requires AllSpace(text) && QuoteIsQuote(s)
    ensures s.quote.Some? ==> Run(s, text).quote == s.quote
    ensures Result(Run(s, text)) == Result(s)
    ensures s == START ==> Run(s, text) == START
    decreases |text|
  {
    if text != "" {
      SpaceRun(s, text[..|text| - 1]);
    }
  }

  /** Trimming first changes nothing: outside quotes the spaces separate nothing,
      and inside an open quote the parse fails either way. */
  lemma TrimIsTransparent(text: string)
    ensures Meaning(Trim(text)) == Meaning(text)
  {
    hide Run, Next, TrimStart, TrimEnd, AllSpace;
    var t := TrimStart(text);
    var r := TrimEnd(t);
    var front := text[..|text| - |t|];
    assert text == front + t && t == r + t[|r|..];
    RunConcat(START, front, t);
    SpaceRun(START, front);
    RunConcat(START, r, t[|r|..]);
    SpaceRun(Run(START, r), t[|r|..]);
  }

  /** None stands for the TypeError about an unterminated quote. */
  method ParseChromiumArgs(raw: string) returns (r: Option<seq<string>>)
    ensures r == Meaning(raw)
  {
    var text := Trim(raw);
    TrimIsTransparent(raw);
    if text == "" { return Some([]); }
    var args: seq<string> := [];
    var current := "";
    var started := false;
    var quote: Option<char> := None;
    for i := 0 to |text|
      invariant Scan(args, current, started, quote) == Run(START, text[..i])
    {
      hide Run, IsSpace;
      var c := text[i];
      RunStep(START, text, i);
      if quote.Some? {
        if c == quote.value {
          quote := None;
        } else {
          current := current + [c];
        }
        continue;
      }
      if c == '"' || c == '\'' {
        quote, started := Some(c), true;
        continue;
      }
      if IsSpace(c) {
        if started { args := args + [current]; }
        current, started := "", false;
        continue;
      }
      current, started := current + [c], true;
    }
    assert text[..|text|] == text;
    if quote.Some? { return None; }
    if started { args := args + [current]; }
    return Some(args);
  }

  // ---- parsing fails exactly when a quote is left open ----

  /** Whether a quote is open at the end of the text: it is opened by a quote character
      outside quotes and closed by the next occurrence of that character. */
  function OpenQuote(text: string): Option<char> {
    if text == "" then None
    else
      var before, c := OpenQuote(text[..|text| - 1]), text[|text| - 1];
      if before == None then (if IsQuote(c) then Some(c) else None)
      else if c == before.value then None else before
  }

  lemma {:induction false} FailsIffQuoteOpen(text: string)
    ensures Meaning(text).None? <==> OpenQuote(text).Some?
    ensures Run(START, text).quote == OpenQuote(text)
    decreases |text|
  {
    if text != "" {
      FailsIffQuoteOpen(text[..|text| - 1]);
    }
  }

  // ---- quoting round trip ----

  /** A piece of an argument: bare, or within a quote character it does not contain. */
  datatype Segment = Bare(text: string) | Quoted(quote: char, text: string) {
    predicate Valid() {
      if Bare? then forall c :: c in text ==> !IsQuote(c) && !IsSpace(c)
      else IsQuote(quote) && quote !in text
    }
    function Source(): string {
      if Bare? then text else [quote] + text + [quote]
    }
  }

  predicate ValidArg(segments: seq<Segment>) {
    && (forall i :: 0 <= i < |segments| ==> segments[i].Valid())
    && exists i :: 0 <= i < |segments| && segments[i].Source() != ""
  }

  function Source(segments: seq<Segment>): string {
    if segments == [] then "" else Source(segments[..|segments| - 1]) + segments[|segments| - 1].Source()
  }

  function Value(segments: seq<Segment>): string {
    if segments == [] then "" else Value(segments[..|segments| - 1]) + segments[|segments| - 1].text
  }

  /** Arguments joined by a space. */
  function Join(args: seq<seq<Segment>>): string {
    if args == [] then ""
    else if |args| == 1 then Source(args[0])
    else Join(args[..|args| - 1]) + " " + Source(args[|args| - 1])
  }

  function Values(args: seq<seq<Segment>>): seq<string> {
    seq(|args|, i requires 0 <= i < |args| => Value(args[i]))
  }

  lemma {:induction false} BareRun(s: Scan, text: string)
    requires s.quote == None && Bare(text).Valid()
    ensures Run(s, text) == s.(current := s.current + text, started := s.started || text != "")
    decreases |text|
  {
    if text == "" {
      assert s.current + text == s.current;
    } else {
      var front := text[..|text| - 1];
      assert text[|text| - 1] in text;
      BareRun(s, front);
      assert s.current + front + [text[|text| - 1]] == s.current + text;
    }
  }

  lemma {:induction false} QuotedRun(s: Scan, text: string)
    requires s.quote.Some? && s.quote.value !in text
    ensures Run(s, text) == s.(current := s.current + text)
    decreases |text|
  {
    if text == "" {
      assert s.current + text == s.current;
    } else {
      var front := text[..|text| - 1];
      assert text[|text| - 1] in text;
      QuotedRun(s, front);
      assert s.current + front + [text[|text| - 1]] == s.current + text;
    }
  }

  lemma SegmentRun(s: Scan, seg: Segment)
    requires s.quote == None && seg.Valid()
    ensures Run(s, seg.Source()) == s.(current := s.current + seg.text, started := s.started || seg.Source() != "")
  {
    if seg.Bare? {
      BareRun(s, seg.text);
    } else {
      hide Run;
      var q := [seg.quote];
      var within := Next(s, seg.quote);
      RunOne(s, seg.quote);
      QuotedRun(within, seg.text);
      RunConcat(s, q, seg.text);
      RunConcat(s, q + seg.text, q);
      RunOne(Run(within, seg.text), seg.quote);
    }
  }

  lemma Associate(x: string, y: string, z: string)
    ensures x + y + z == x + (y + z)
  {
  }

  lemma {:induction false} ArgRun(s: Scan, segments: seq<Segment>)
    requires s.quote == None && forall i :: 0 <= i < |segments| ==> segments[i].Valid()
    ensures Run(s, Source(segments)) ==
      s.(current := s.current + Value(segments), started := s.started || Source(segments) != "")
    decreases |segments|
  {
    hide Run, Segment.Valid, Segment.Source;
    if segments == [] {
      RunEmpty(s);
      assert s.current + "" == s.current;
    } else {
      var front, last := segments[..|segments| - 1], segments[|segments| - 1];
      ArgRun(s, front);
      SegmentRun(Run(s, Source(front)), last);
      RunConcat(s, Source(front), last.Source());
      Associate(s.current, Value(front), last.text);
    }
  }

  lemma {:induction false} ValidArgShows(segments: seq<Segment>, i: nat)
    requires i < |segments| && segments[i].Source() != ""
    ensures Source(segments) != ""
    decreases |segments|
  {
    if i < |segments| - 1 { ValidArgShows(segments[..|segments| - 1], i); }
  }

  lemma SpaceEndsArg(s: Scan)
    requires s.started && s.quote == None
    ensures Next(s, ' ') == Scan(s.args + [s.current], "", false, None)
  {
  }

  /** Any way of quoting any list of arguments parses back to exactly that list. */
  lemma {:induction false} ParseInvertsQuoting(args: seq<seq<Segment>>)
    requires forall i :: 0 <= i < |args| ==> ValidArg(args[i])
    ensures Meaning(Join(args)) == Some(Values(args))
    ensures args != [] ==>
      Run(START, Join(args)) == Scan(Values(args)[..|args| - 1], Value(args[|args| - 1]), true, None)
    decreases |args|
  {
    hide Run, Next, Source, Value, Segment.Source, Segment.Valid;
    if args == [] {
      RunEmpty(START);
      return;
    }
    var front, last := args[..|args| - 1], args[|args| - 1];
    var i :| 0 <= i < |last| && last[i].Source() != "";
    ValidArgShows(last, i);
    assert Values(args) == Values(front) + [Value(last)];
    if |args| == 1 {
      ArgRun(START, last);
      assert "" + Value(last) == Value(last);
    } else {
      ParseInvertsQuoting(front);
      var s := Run(START, Join(front));
      RunConcat(START, Join(front), " ");
      RunOne(s, ' ');
      SpaceEndsArg(s);
      var t := Scan(Values(front), "", false, None);
      assert Values(front)[..|front| - 1] + [Value(front[|front| - 1])] == Values(front);
      assert Run(START, Join(front) + " ") == t;
      ArgRun(t, last);
      RunConcat(START, Join(front) + " ", Source(last));
      assert "" + Value(last) == Value(last);
    }
  }

  /** Every string can be quoted: each character in a quote of the other kind, the empty string as "". */
  function QuoteChar(c: char): Segment {
    Quoted(if c == '"' then '\'' else '"', [c])
  }

  function QuoteChars(arg: string): seq<Segment> {
    seq(|arg|, i requires 0 <= i < |arg| => QuoteChar(arg[i]))
  }

  lemma {:induction false} QuoteCharsValue(arg: string)
    ensures Value(QuoteChars(arg)) == arg
  {
    if arg != "" {
      var front := arg[..|arg| - 1];
      QuoteCharsValue(front);
      assert QuoteChars(arg)[..|arg| - 1] == QuoteChars(front);
    }
  }

  function Quote(arg: string): (r: seq<Segment>)
    ensures ValidArg(r) && Value(r) == arg
  {
    if arg == "" then
      var r := [Quoted('"', "")];
      assert Value(r[..0]) == "" && r[0].Source() == "\"\"";
      r
    else
      QuoteCharsValue(arg);
      assert QuoteChars(arg)[0].Source() != "";
      QuoteChars(arg)
  }

  /** For every list of strings, quoting, joining and parsing gives the list back. */
  lemma QuoteRoundTrip(args: seq<string>)
    ensures Meaning(Join(seq(|args|, i requires 0 <= i < |args| => Quote(args[i])))) == Some(args)
  {
    var quoted := seq(|args|, i requires 0 <= i < |args| => Quote(args[i]));
    ParseInvertsQuoting(quoted);
    assert Values(quoted) == args;
  }
}
