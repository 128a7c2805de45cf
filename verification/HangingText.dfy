/** Hanging-indent wrapping of terminal output (src/cli-io.ts, formatHangingText).
    A character here is a code point, the unit in which the source measures lines. */
module HangingText {
  import opened Common
  import opened ChromiumArgs

  function Spaces(n: nat): (s: string)
    ensures |s| == n
  {
    seq(n, _ => ' ')
  }

  // ---- words and paragraphs ----

  function WordLength(s: string): (n: nat)
    ensures n <= |s| && forall i :: 0 <= i < n ==> !IsSpace(s[i])
    ensures s != "" && !IsSpace(s[0]) ==> 0 < n
  {
    if s == "" || IsSpace(s[0]) then 0 else 1 + WordLength(s[1..])
  }

  predicate IsWord(w: string) {
    w != "" && forall i :: 0 <= i < |w| ==> !IsSpace(w[i])
  }

  /** The maximal runs of characters that are not space. */
  function Words(s: string): (r: seq<string>)
    ensures forall i :: 0 <= i < |r| ==> IsWord(r[i])
    decreases |s|
  {
    if s == "" then []
    else if IsSpace(s[0]) then Words(s[1..])
    else [s[..WordLength(s)]] + Words(s[WordLength(s)..])
  }

  /** The pieces between line breaks, each a newline with or without a carriage return before it. */
  function Paragraphs(text: string): (r: seq<string>)
    ensures r != []
    decreases |text|
  {
    if text == "" then [""]
    else if text[0] == '\n' then [""] + Paragraphs(text[1..])
    else if text[0] == '\r' && |text| > 1 && text[1] == '\n' then [""] + Paragraphs(text[2..])
    else
      var rest := Paragraphs(text[1..]);
      [[text[0]] + rest[0]] + rest[1..]
  }

  /** The characters that are not space, in order. */
  function Ink(s: string): string {
    if s == "" then "" else Ink(s[..|s| - 1]) + if IsSpace(s[|s| - 1]) then "" else [s[|s| - 1]]
  }

  function InkOf(parts: seq<string>): string {
    if parts == [] then "" else InkOf(parts[..|parts| - 1]) + Ink(parts[|parts| - 1])
  }

  lemma {:induction false} InkConcat(a: string, b: string)
    ensures Ink(a + b) == Ink(a) + Ink(b)
    decreases |b|
  {
    if b == "" {
      assert a + b == a;
    } else {
      assert (a + b)[..|a + b| - 1] == a + b[..|b| - 1];
      InkConcat(a, b[..|b| - 1]);
    }
  }

  lemma InkOne(c: char)
    ensures Ink([c]) == if IsSpace(c) then "" else [c]
  {
    assert Ink([c][..0]) == "";
  }

  lemma InkNothing()
    ensures Ink("") == "" && InkOf([]) == ""
  {
  }

  lemma {:induction false} InkOfConcat(a: seq<string>, b: seq<string>)
    ensures InkOf(a + b) == InkOf(a) + InkOf(b)
    decreases |b|
  {
    hide Ink;
    if b == [] {
      assert a + b == a;
    } else {
      assert (a + b)[..|a + b| - 1] == a + b[..|b| - 1];
      InkOfConcat(a, b[..|b| - 1]);
      Associate(InkOf(a), InkOf(b[..|b| - 1]), Ink(b[|b| - 1]));
    }
  }

  lemma InkOfOne(s: string)
    ensures InkOf([s]) == Ink(s)
  {
    assert InkOf([s][..0]) == "";
  }

  lemma {:induction false} InkOfWords(s: string)
    ensures InkOf(Words(s)) == Ink(s)
    decreases |s|
  {
    if s == "" {
    } else if IsSpace(s[0]) {
      InkOfWords(s[1..]);
      assert s == [s[0]] + s[1..];
      InkConcat([s[0]], s[1..]);
      InkOne(s[0]);
    } else {
      var n := WordLength(s);
      InkOfWords(s[n..]);
      assert s == s[..n] + s[n..];
      InkConcat(s[..n], s[n..]);
      InkOfConcat([s[..n]], Words(s[n..]));
      InkOfOne(s[..n]);
    }
  }

  lemma {:induction false} InkOfParagraphs(text: string)
    ensures InkOf(Paragraphs(text)) == Ink(text)
    decreases |text|
  {
    hide Ink, InkOf, IsSpace;
    if text == "" {
      InkOfOne("");
    } else if text[0] == '\n' {
      InkOfParagraphs(text[1..]);
      FirstLine("", text[1..], "\n");
      assert text == "\n" + text[1..];
    } else if text[0] == '\r' && |text| > 1 && text[1] == '\n' {
      InkOfParagraphs(text[2..]);
      FirstLine("", text[2..], "\r\n");
      assert text == "\r\n" + text[2..];
    } else {
      InkOfParagraphs(text[1..]);
      var rest := Paragraphs(text[1..]);
      assert text == [text[0]] + text[1..];
      InkConcat([text[0]], text[1..]);
      assert rest == [rest[0]] + rest[1..];
      InkOfConcat([rest[0]], rest[1..]);
      InkOfConcat([[text[0]] + rest[0]], rest[1..]);
      InkOfOne(rest[0]);
      InkOfOne([text[0]] + rest[0]);
      InkConcat([text[0]], rest[0]);
      assert Ink([text[0]]) + Ink(rest[0]) + InkOf(rest[1..]) == Ink([text[0]]) + (Ink(rest[0]) + InkOf(rest[1..]));
    }
  }

  lemma FirstLine(empty: string, rest: string, ending: string)
    requires empty == "" && (ending == "\n" || ending == "\r\n")
    ensures InkOf([empty] + Paragraphs(rest)) == InkOf(Paragraphs(rest)) && Ink(ending + rest) == Ink(rest)
  {
    hide Ink, InkOf, Paragraphs;
    InkOfConcat([empty], Paragraphs(rest));
    InkOfOne(empty);
    InkNothing();
    InkConcat(ending, rest);
    InkOfEnding(ending);
    assert "" + InkOf(Paragraphs(rest)) == InkOf(Paragraphs(rest)) && "" + Ink(rest) == Ink(rest);
  }

  lemma InkOfEnding(ending: string)
    requires ending == "\n" || ending == "\r\n"
    ensures Ink(ending) == ""
  {
    hide Ink;
    InkOne('\n');
    if ending == "\r\n" {
      assert ending == ['\r'] + ['\n'];
      InkConcat(['\r'], ['\n']);
      InkOne('\r');
    }
  }

  /** The words with the gaps before, between and after them. */
  ghost function Spaced(gaps: seq<string>, words: seq<string>): string
    requires |gaps| == |words| + 1
  {
    if words == [] then gaps[0] else gaps[0] + words[0] + Spaced(gaps[1..], words[1..])
  }

  /** All gaps are spaces, and only the outer ones may be empty. */
  ghost predicate AreGaps(gaps: seq<string>) {
    && (forall i :: 0 <= i < |gaps| ==> AllSpace(gaps[i]))
    && forall i :: 0 < i < |gaps| - 1 ==> gaps[i] != ""
  }

  /** The words of a text are separated by spaces and nothing else, and no word is cut. */
  lemma {:induction false} WordsSplit(s: string) returns (gaps: seq<string>)
    ensures |gaps| == |Words(s)| + 1 && s == Spaced(gaps, Words(s)) && AreGaps(gaps)
    ensures s != "" ==> (IsSpace(s[0]) <==> gaps[0] != "")
    decreases |s|
  {
    hide Spaced, AreGaps, WordLength;
    if s == "" {
      gaps := [""];
      NoGaps();
    } else if IsSpace(s[0]) {
      var rest := WordsSplit(s[1..]);
      gaps := [[s[0]] + rest[0]] + rest[1..];
      GapGrows(s[0], rest, Words(s[1..]));
      assert s == [s[0]] + s[1..];
    } else {
      var n := WordLength(s);
      WordEnds(s);
      var rest := WordsSplit(s[n..]);
      gaps := [""] + rest;
      GapBefore(s[..n], rest, Words(s[n..]));
      assert s == s[..n] + s[n..];
    }
  }

  lemma NoGaps()
    ensures AreGaps([""]) && Spaced([""], []) == ""
  {
  }

  lemma FourParts(a: string, b: string, c: string, d: string)
    ensures a + b + c + d == a + (b + c + d)
  {
  }

  lemma SpacedStep(gaps: seq<string>, words: seq<string>)
    requires |gaps| == |words| + 1
    ensures Spaced(gaps, words) == if words == [] then gaps[0] else gaps[0] + words[0] + Spaced(gaps[1..], words[1..])
  {
  }

  lemma GapGrows(c: char, gaps: seq<string>, words: seq<string>)
    requires |gaps| == |words| + 1 && AreGaps(gaps) && IsSpace(c)
    ensures var all := [[c] + gaps[0]] + gaps[1..]; AreGaps(all) && Spaced(all, words) == [c] + Spaced(gaps, words)
  {
    hide IsSpace, AreGaps, Spaced;
    var all := [[c] + gaps[0]] + gaps[1..];
    FirstGapGrows(c, gaps);
    SpacedStep(gaps, words);
    SpacedStep(all, words);
    assert all[1..] == gaps[1..] && all[0] == [c] + gaps[0];
    if words != [] { FourParts([c], gaps[0], words[0], Spaced(gaps[1..], words[1..])); }
  }

  lemma FirstGapGrows(c: char, gaps: seq<string>)
    requires gaps != [] && AreGaps(gaps) && IsSpace(c)
    ensures AreGaps([[c] + gaps[0]] + gaps[1..])
  {
    hide IsSpace;
    var all := [[c] + gaps[0]] + gaps[1..];
    assert AllSpace(gaps[0]) && AllSpace(all[0]);
    hide AllSpace;
    forall i | 0 < i < |all| ensures all[i] == gaps[i] {}
  }

  lemma GapBefore(word: string, gaps: seq<string>, words: seq<string>)
    requires |gaps| == |words| + 1 && AreGaps(gaps) && (words != [] ==> gaps[0] != "")
    ensures AreGaps([""] + gaps) && Spaced([""] + gaps, [word] + words) == word + Spaced(gaps, words)
  {
    hide IsSpace;
    assert ([""] + gaps)[1..] == gaps && ([word] + words)[1..] == words;
    assert "" + word == word;
  }

  lemma {:induction false} WordEnds(s: string)
    ensures WordLength(s) == |s| || IsSpace(s[WordLength(s)])
    ensures s != "" && !IsSpace(s[0]) ==> WordLength(s) > 0 && Words(s) == [s[..WordLength(s)]] + Words(s[WordLength(s)..])
    ensures s != "" && IsSpace(s[0]) ==> Words(s) == Words(s[1..])
  {
    if s != "" && !IsSpace(s[0]) { WordEnds(s[1..]); }
  }

  /** The paragraphs with the line breaks between them. */
  ghost function Broken(paragraphs: seq<string>, breaks: seq<string>): string
    requires |paragraphs| == |breaks| + 1
  {
    if breaks == [] then paragraphs[0] else paragraphs[0] + breaks[0] + Broken(paragraphs[1..], breaks[1..])
  }

  /** Text between newlines: none is left in a paragraph, and none of a carriage return before one. */
  ghost predicate Unbroken(paragraphs: seq<string>, breaks: seq<string>) {
    && |paragraphs| == |breaks| + 1
    && (forall i :: 0 <= i < |breaks| ==> breaks[i] == "\n" || breaks[i] == "\r\n")
    && (forall i :: 0 <= i < |paragraphs| ==> '\n' !in paragraphs[i])
    && (forall i :: 0 <= i < |breaks| && breaks[i] == "\n" ==> !EndsInReturn(paragraphs[i]))
  }

  predicate EndsInReturn(s: string) {
    s != "" && s[|s| - 1] == '\r'
  }

  /** The paragraphs of a text are what stands between its newlines. */
  lemma {:induction false} ParagraphsSplit(text: string) returns (breaks: seq<string>)
    ensures Unbroken(Paragraphs(text), breaks) && text == Broken(Paragraphs(text), breaks)
    decreases |text|
  {
    if text == "" {
      breaks := [];
    } else if text[0] == '\n' {
      var rest := ParagraphsSplit(text[1..]);
      breaks := ["\n"] + rest;
      assert text == "\n" + text[1..];
      BreakFirst(Paragraphs(text[1..]), "\n", rest);
    } else if text[0] == '\r' && |text| > 1 && text[1] == '\n' {
      var rest := ParagraphsSplit(text[2..]);
      breaks := ["\r\n"] + rest;
      assert text == "\r\n" + text[2..];
      BreakFirst(Paragraphs(text[2..]), "\r\n", rest);
    } else {
      breaks := ParagraphsSplit(text[1..]);
      var rest := Paragraphs(text[1..]);
      assert text == [text[0]] + text[1..];
      if breaks != [] && rest[0] == "" { assert text[1..] == breaks[0] + Broken(rest[1..], breaks[1..]); }
      GrowFirst(text[0], rest, breaks);
    }
  }

  lemma BreakFirst(paragraphs: seq<string>, ending: string, breaks: seq<string>)
    requires Unbroken(paragraphs, breaks) && (ending == "\n" || ending == "\r\n")
    ensures Unbroken([""] + paragraphs, [ending] + breaks)
    ensures Broken([""] + paragraphs, [ending] + breaks) == ending + Broken(paragraphs, breaks)
  {
    assert ([""] + paragraphs)[1..] == paragraphs && ([ending] + breaks)[1..] == breaks;
    assert "" + ending == ending;
  }

  lemma UnbrokenLength(paragraphs: seq<string>, breaks: seq<string>)
    requires Unbroken(paragraphs, breaks)
    ensures |paragraphs| == |breaks| + 1
  {
  }

  lemma BrokenStep(paragraphs: seq<string>, breaks: seq<string>)
    requires |paragraphs| == |breaks| + 1
    ensures Broken(paragraphs, breaks) ==
      if breaks == [] then paragraphs[0] else paragraphs[0] + breaks[0] + Broken(paragraphs[1..], breaks[1..])
  {
  }

  lemma GrowsUnbroken(c: char, paragraphs: seq<string>, breaks: seq<string>)
    requires Unbroken(paragraphs, breaks) && c != '\n'
    requires breaks != [] && paragraphs[0] == "" && breaks[0] == "\n" ==> c != '\r'
    ensures Unbroken([[c] + paragraphs[0]] + paragraphs[1..], breaks)
  {
    hide Broken;
    var all := [[c] + paragraphs[0]] + paragraphs[1..];
    assert EndsInReturn(all[0]) ==> EndsInReturn(paragraphs[0]) || (paragraphs[0] == "" && c == '\r');
    hide EndsInReturn;
    forall i | 0 < i < |all| ensures all[i] == paragraphs[i] {}
    assert '\n' !in all[0];
  }

  lemma GrowFirst(c: char, paragraphs: seq<string>, breaks: seq<string>)
    requires Unbroken(paragraphs, breaks) && c != '\n'
    requires breaks != [] && paragraphs[0] == "" && breaks[0] == "\n" ==> c != '\r'
    ensures var all := [[c] + paragraphs[0]] + paragraphs[1..];
      Unbroken(all, breaks) && Broken(all, breaks) == [c] + Broken(paragraphs, breaks)
  {
    hide Unbroken, Broken;
    UnbrokenLength(paragraphs, breaks);
    var all := [[c] + paragraphs[0]] + paragraphs[1..];
    GrowsUnbroken(c, paragraphs, breaks);
    BrokenStep(paragraphs, breaks);
    BrokenStep(all, breaks);
    assert all[1..] == paragraphs[1..] && all[0] == [c] + paragraphs[0];
    if breaks != [] { FourParts([c], paragraphs[0], breaks[0], Broken(paragraphs[1..], breaks[1..])); }
  }

  // ---- the text without its layout ----

  /** Words with one space between neighbours. */
  function JoinWords(words: seq<string>): string {
    if words == [] then ""
    else if |words| == 1 then words[0]
    else JoinWords(words[..|words| - 1]) + " " + words[|words| - 1]
  }

  function Plain(paragraphs: seq<string>): string {
    if paragraphs == [] then ""
    else if |paragraphs| == 1 then JoinWords(Words(paragraphs[0]))
    else Plain(paragraphs[..|paragraphs| - 1]) + "\n" + JoinWords(Words(paragraphs[|paragraphs| - 1]))
  }

  /** The text with every run of spaces made one, and none at the ends of its paragraphs. */
  function Normal(text: string): string { Plain(Paragraphs(text)) }

  lemma WordsStep(words: seq<string>, n: nat)
    requires n < |words|
    ensures JoinWords(words[..n + 1]) == if n == 0 then words[0] else JoinWords(words[..n]) + " " + words[n]
  {
    assert words[..n + 1][..n] == words[..n];
  }

  lemma PlainStep(before: seq<string>, paragraph: string)
    requires before != []
    ensures Plain(before + [paragraph]) == Plain(before) + "\n" + JoinWords(Words(paragraph))
  {
    assert (before + [paragraph])[..|before|] == before;
  }

  lemma {:induction false} InkOfJoin(words: seq<string>)
    ensures Ink(JoinWords(words)) == InkOf(words)
    decreases |words|
  {
    hide Ink;
    if words == [] {
      InkNothing();
    } else if |words| == 1 {
      InkOfOne(words[0]);
      assert words == [words[0]];
    } else {
      var front, last := words[..|words| - 1], words[|words| - 1];
      InkOfJoin(front);
      InkConcat(JoinWords(front) + " ", last);
      InkConcat(JoinWords(front), " ");
      InkOne(' ');
      assert InkOf(front) + "" == InkOf(front);
    }
  }

  lemma {:induction false} InkOfPlain(paragraphs: seq<string>)
    ensures Ink(Plain(paragraphs)) == InkOf(paragraphs)
    decreases |paragraphs|
  {
    hide Ink, Words, JoinWords;
    if paragraphs == [] {
      InkNothing();
    } else {
      var front, last := paragraphs[..|paragraphs| - 1], paragraphs[|paragraphs| - 1];
      InkOfWords(last);
      InkOfJoin(Words(last));
      if front == [] {
        assert paragraphs == [last];
        InkOfOne(last);
      } else {
        InkOfPlain(front);
        InkConcat(Plain(front) + "\n", JoinWords(Words(last)));
        InkConcat(Plain(front), "\n");
        InkOne('\n');
        assert InkOf(front) + "" == InkOf(front);
      }
    }
  }

  /** That keeps exactly the characters that are not space, in order. */
  lemma NormalKeepsInk(text: string)
    ensures Ink(Normal(text)) == Ink(text)
  {
    InkOfPlain(Paragraphs(text));
    InkOfParagraphs(text);
  }

  // ---- lines ----

  /** A line without the prefix or indent of the given width. */
  function Body(line: string, indent: nat): string {
    if |line| >= indent then line[indent..] else ""
  }

  function ChunkWidth(indent: nat, width: nat): nat {
    Max(1, width - indent)
  }

  /** Why a line ended: its paragraph did, the next word did not fit, or a long word was cut. */
  datatype Cause = EndOfParagraph | NoRoomFor(word: string) | Cut

  /** A break inside a paragraph: before a word that does not fit and starts the next line, or
      at the full width inside a word that is longer than a whole line. */
  ghost predicate Justified(line: string, cause: Cause, next: string, indent: nat, width: nat) {
    match cause
    case EndOfParagraph => true
    case NoRoomFor(w) =>
      && IsWord(w) && (if Body(line, indent) == "" then indent + |w| > width else |line| + 1 + |w| > width)
      && Spaces(indent) + w[..Min(|w|, ChunkWidth(indent, width))] <= next
    case Cut =>
      && IsWord(Body(line, indent)) && |Body(line, indent)| == ChunkWidth(indent, width)
      && Spaces(indent) < next && !IsSpace(next[indent])
  }

  /** What a break stands for in the text. */
  function Glue(cause: Cause, body: string): string {
    match cause
    case EndOfParagraph => "\n"
    case NoRoomFor(_) => if body == "" then "" else " "
    case Cut => ""
  }

  /** The bodies of the lines with each break undone; the last line is still open. */
  ghost function Unwrapped(lines: seq<string>, causes: seq<Cause>, indent: nat): string
    requires |lines| == |causes| + 1
  {
    var k := |causes|;
    if k == 0 then Body(lines[0], indent)
    else Unwrapped(lines[..k], causes[..k - 1], indent) + Glue(causes[k - 1], Body(lines[k - 1], indent)) + Body(lines[k], indent)
  }

  lemma UnwrapGrow(lines: seq<string>, line: string, more: string, causes: seq<Cause>, indent: nat)
    requires |causes| == |lines| && indent <= |line|
    ensures Unwrapped(lines + [line + more], causes, indent) == Unwrapped(lines + [line], causes, indent) + more
  {
    assert Body(line + more, indent) == Body(line, indent) + more;
    var k := |causes|;
    if k > 0 {
      assert (lines + [line + more])[..k] == lines == (lines + [line])[..k];
    }
  }

  lemma UnwrapOne(line: string, indent: nat)
    ensures Unwrapped([line], [], indent) == Body(line, indent)
  {
  }

  lemma {:induction false} UnwrapConcat(a: seq<string>, ca: seq<Cause>, cause: Cause, b: seq<string>, cb: seq<Cause>, indent: nat)
    requires |a| == |ca| + 1 && |b| == |cb| + 1
    ensures Unwrapped(a + b, ca + [cause] + cb, indent)
      == Unwrapped(a, ca, indent) + Glue(cause, Body(a[|a| - 1], indent)) + Unwrapped(b, cb, indent)
    decreases |cb|
  {
    hide Glue, Body;
    var lines, causes, k := a + b, ca + [cause] + cb, |cb|;
    var glue := Glue(cause, Body(a[|a| - 1], indent));
    assert lines[..|causes|] == a + b[..k];
    if k == 0 {
      assert causes == ca + [cause] && causes[..|causes| - 1] == ca;
      assert b[..0] == [] && a + [] == a && lines[..|causes|] == a;
    } else {
      UnwrapConcat(a, ca, cause, b[..k], cb[..k - 1], indent);
      assert causes[..|causes| - 1] == ca + [cause] + cb[..k - 1];
      Associate4(Unwrapped(a, ca, indent) + glue, Unwrapped(b[..k], cb[..k - 1], indent),
        Glue(cb[k - 1], Body(b[k - 1], indent)), Body(b[k], indent));
    }
  }

  lemma Associate4(a: string, b: string, c: string, d: string)
    ensures a + b + c + d == a + (b + c + d)
  {
  }

  /** The word of a break is longer than a line. */
  predicate Overlong(cause: Cause, indent: nat, width: nat) {
    cause.NoRoomFor? && |cause.word| > ChunkWidth(indent, width)
  }

  /** A word that is longer than a line is cut at the end of the line it starts. */
  ghost predicate OverlongIsCut(causes: seq<Cause>, indent: nat, width: nat) {
    forall k :: 0 <= k < |causes| && Overlong(causes[k], indent, width) ==> k + 1 < |causes| && causes[k + 1].Cut?
  }

  lemma OverlongConcat(ca: seq<Cause>, cause: Cause, cb: seq<Cause>, indent: nat, width: nat)
    requires OverlongIsCut(ca, indent, width) && OverlongIsCut(cb, indent, width)
    requires Overlong(cause, indent, width) ==> cb != [] && cb[0].Cut?
    ensures OverlongIsCut(ca + [cause] + cb, indent, width)
  {
    var causes := ca + [cause] + cb;
    forall k | 0 <= k < |causes| && Overlong(causes[k], indent, width) ensures k + 1 < |causes| && causes[k + 1].Cut? {
      if k < |ca| {
        assert causes[k] == ca[k] && causes[k + 1] == ca[k + 1];
      } else if k > |ca| {
        var j := k - |ca| - 1;
        assert causes[k] == cb[j] && causes[k + 1] == cb[j + 1];
      } else {
        assert causes[k + 1] == cb[0];
      }
    }
  }

  /** causes[k] justifies the break after line k; the last line is still open. */
  ghost predicate AllJustified(lines: seq<string>, causes: seq<Cause>, indent: nat, width: nat) {
    && |lines| == |causes| + 1 && OverlongIsCut(causes, indent, width)
    && forall k :: 0 <= k < |causes| ==> Justified(lines[k], causes[k], lines[k + 1], indent, width)
  }

  /** Each line starts with the prefix (the first) or the indent; a line without text is what
      trimming leaves of it. */
  ghost predicate Indented(lines: seq<string>, first: string, indent: nat) {
    forall k :: 0 <= k < |lines| ==>
      var start := if k == 0 then first else Spaces(indent);
      if Body(lines[k], indent) == "" then lines[k] == TrimEnd(start) else start <= lines[k]
  }

  ghost predicate Narrow(lines: seq<string>, indent: nat, width: nat) {
    forall k :: 0 <= k < |lines| ==> |Body(lines[k], indent)| <= ChunkWidth(indent, width)
  }

  /** Only a prefix that is not blank may stand alone before a word. It is not followed by a part of
      a word, nor by more than fits. */
  ghost predicate Opens(lines: seq<string>, causes: seq<Cause>, first: string, indent: nat, width: nat)
    requires |lines| == |causes| + 1
  {
    && (forall k :: 0 <= k < |causes| && causes[k].NoRoomFor? && Body(lines[k], indent) == "" ==>
          k == 0 && first != Spaces(indent))
    && (first != Spaces(indent) && Body(lines[0], indent) != "" ==>
          |lines[0]| <= width && (causes != [] ==> !causes[0].Cut?))
  }

  ghost predicate Shape(lines: seq<string>, causes: seq<Cause>, first: string, indent: nat, width: nat) {
    && |lines| == |causes| + 1
    && Indented(lines, first, indent) && Narrow(lines, indent, width) && Opens(lines, causes, first, indent, width)
  }

  lemma ShapeConcat(a: seq<string>, ca: seq<Cause>, cause: Cause, b: seq<string>, cb: seq<Cause>,
                    first: string, indent: nat, width: nat)
    requires Shape(a, ca, first, indent, width) && Shape(b, cb, Spaces(indent), indent, width)
    requires !cause.Cut? && (cause.NoRoomFor? && Body(a[|a| - 1], indent) == "" ==> |a| == 1 && first != Spaces(indent))
    ensures Shape(a + b, ca + [cause] + cb, first, indent, width)
  {
    hide Body, TrimEnd;
    var all, causes := a + b, ca + [cause] + cb;
    forall k | 0 <= k < |all| ensures all[k] == if k < |a| then a[k] else b[k - |a|] {}
    forall k | 0 <= k < |causes| ensures
      causes[k] == if k < |ca| then ca[k] else if k == |ca| then cause else cb[k - |a|] {}
  }

  lemma ShapeSwap(start: string, lines: seq<string>, line: string, line': string, causes: seq<Cause>, indent: nat, width: nat)
    requires Shape(lines + [line], causes, start, indent, width) && Body(line, indent) != "" && Body(line', indent) != ""
    requires (if lines == [] then start else Spaces(indent)) <= line'
    requires |Body(line', indent)| <= ChunkWidth(indent, width) && |line'| <= width
    ensures Shape(lines + [line'], causes, start, indent, width)
  {
    hide TrimEnd, Body, ChunkWidth, Spaces;
    var before, after, n := lines + [line], lines + [line'], |lines|;
    assert before[n] == line && after[n] == line' && |causes| == n;
    forall k | 0 <= k < n ensures after[k] == before[k] {}
    assert Indented(after, start, indent);
    assert Narrow(after, indent, width);
    assert Opens(after, causes, start, indent, width);
  }

  lemma ShapeLast(start: string, lines: seq<string>, line: string, line': string, causes: seq<Cause>, indent: nat, width: nat)
    requires |start| == indent && Shape(lines + [line], causes, start, indent, width)
    requires (if lines == [] then start else Spaces(indent)) < line <= line' && |line'| <= width
    ensures Shape(lines + [line'], causes, start, indent, width)
  {
    hide Shape;
    assert |line| > indent && |line'| > indent;
    ShapeSwap(start, lines, line, line', causes, indent, width);
  }

  lemma ShapeFirst(start: string, line: string, width: nat)
    requires start < line && |line| <= width
    ensures Shape([line], [], start, |start|, width)
  {
  }

  lemma BareBody(start: string)
    ensures Body(TrimEnd(start), |start|) == ""
  {
    hide TrimEnd;
  }

  lemma IndentedBare(start: string)
    ensures Indented([TrimEnd(start)], start, |start|)
  {
    BareBody(start);
    hide Body, TrimEnd, IsSpace, AllSpace;
    forall k | 0 <= k < 1 ensures [TrimEnd(start)][k] == TrimEnd(start) {}
  }

  lemma ShapeEmpty(line: string, first: string, indent: nat, width: nat)
    requires Body(line, indent) == "" && Indented([line], first, indent)
    ensures Shape([line], [], first, indent, width)
  {
    hide Body, Indented, Spaces;
  }

  lemma ShapeBare(start: string, width: nat)
    ensures Shape([TrimEnd(start)], [], start, |start|, width)
  {
    hide *;
    BareBody(start);
    IndentedBare(start);
    ShapeEmpty(TrimEnd(start), start, |start|, width);
  }

  lemma ShapeWithin(lines: seq<string>, causes: seq<Cause>, first: string, indent: nat, width: nat)
    requires Shape(lines, causes, first, indent, width) && indent < width
    ensures Within(lines, width)
  {
  }

  ghost predicate Within(lines: seq<string>, width: nat) {
    forall k :: 0 <= k < |lines| ==> |lines[k]| <= width
  }

  lemma LongerNext(line: string, cause: Cause, next: string, next': string, indent: nat, width: nat)
    requires Justified(line, cause, next, indent, width) && next <= next'
    ensures Justified(line, cause, next', indent, width)
  {
  }

  lemma LastGrows(lines: seq<string>, line: string, line': string, causes: seq<Cause>, indent: nat, width: nat)
    requires AllJustified(lines + [line], causes, indent, width) && line <= line'
    ensures AllJustified(lines + [line'], causes, indent, width)
  {
    hide Justified;
    forall k | 0 <= k < |causes| ensures Justified((lines + [line'])[k], causes[k], (lines + [line'])[k + 1], indent, width) {
      LongerNext((lines + [line])[k], causes[k], (lines + [line])[k + 1], (lines + [line'])[k + 1], indent, width);
    }
  }

  lemma Concatenate(a: seq<string>, ca: seq<Cause>, cause: Cause, b: seq<string>, cb: seq<Cause>, indent: nat, width: nat)
    requires AllJustified(a, ca, indent, width) && AllJustified(b, cb, indent, width)
    requires Justified(a[|a| - 1], cause, b[0], indent, width)
    requires Overlong(cause, indent, width) ==> cb != [] && cb[0].Cut?
    ensures AllJustified(a + b, ca + [cause] + cb, indent, width)
  {
    OverlongConcat(ca, cause, cb, indent, width);
    hide Justified, OverlongIsCut;
    var all, causes := a + b, ca + [cause] + cb;
    forall k | 0 <= k < |causes| ensures Justified(all[k], causes[k], all[k + 1], indent, width) {
      if k < |ca| {
        assert Justified(a[k], ca[k], a[k + 1], indent, width);
      } else if k > |ca| {
        var j := k - |a|;
        assert Justified(b[j], cb[j], b[j + 1], indent, width);
      }
    }
  }

  lemma OneJustified(line: string, indent: nat, width: nat)
    ensures AllJustified([line], [], indent, width)
  {
  }

  // ---- one long word ----

  /** The line a word's remaining characters start: all of them, or one full line. */
  function Opening(remaining: string, indent: nat, width: nat): string {
    Spaces(indent) + remaining[..Min(|remaining|, ChunkWidth(indent, width))]
  }

  /** Full lines of a long word so far, and the characters that remain. */
  ghost predicate CutState(word: string, pieces: seq<string>, causes: seq<Cause>, remaining: string, indent: nat, width: nat) {
    && IsWord(remaining) && |remaining| <= |word|
    && AllJustified(pieces + [Opening(remaining, indent, width)], causes, indent, width)
    && (if pieces == [] then remaining == word else pieces[0] == Opening(word, indent, width))
    && (forall k :: 0 <= k < |causes| ==> causes[k].Cut?)
    && (forall k :: 0 <= k < |pieces| ==> |pieces[k]| == indent + ChunkWidth(indent, width) && Spaces(indent) <= pieces[k])
    && |pieces| == |causes| && Unwrapped(pieces + [Spaces(indent) + remaining], causes, indent) == word
  }

  lemma BodyOfIndented(s: string, indent: nat)
    ensures Body(Spaces(indent) + s, indent) == s
  {
  }

  lemma CutStart(word: string, indent: nat, width: nat)
    requires IsWord(word)
    ensures CutState(word, [], [], word, indent, width)
  {
    hide IsWord;
    assert [] + [Opening(word, indent, width)] == [Opening(word, indent, width)];
    OneJustified(Opening(word, indent, width), indent, width);
    assert [] + [Spaces(indent) + word] == [Spaces(indent) + word];
    BodyOfIndented(word, indent);
  }

  lemma CutJustified(remaining: string, rest: string, indent: nat, width: nat)
    requires IsWord(remaining) && ChunkWidth(indent, width) < |remaining| && rest == remaining[ChunkWidth(indent, width)..]
    ensures Justified(Opening(remaining, indent, width), Cut, Opening(rest, indent, width), indent, width)
    ensures IsWord(rest)
  {
    BodyOfIndented(remaining[..ChunkWidth(indent, width)], indent);
    assert rest[0] == remaining[ChunkWidth(indent, width)];
    assert Opening(rest, indent, width)[indent] == rest[0];
  }

  /** Cutting the open line in two and undoing the cut gives the open line. */
  lemma CutUnwraps(pieces: seq<string>, causes: seq<Cause>, remaining: string, n: nat, indent: nat)
    requires |pieces| == |causes| && n <= |remaining|
    ensures Unwrapped(pieces + [Spaces(indent) + remaining[..n]] + [Spaces(indent) + remaining[n..]], causes + [Cut], indent)
      == Unwrapped(pieces + [Spaces(indent) + remaining], causes, indent)
  {
    hide Unwrapped, Body;
    var piece, last := Spaces(indent) + remaining[..n], Spaces(indent) + remaining[n..];
    assert remaining == remaining[..n] + remaining[n..];
    assert Spaces(indent) + remaining == piece + remaining[n..];
    UnwrapGrow(pieces, piece, remaining[n..], causes, indent);
    UnwrapConcat(pieces + [piece], causes, Cut, [last], [], indent);
    assert causes + [Cut] + [] == causes + [Cut];
    UnwrapOne(last, indent);
    BodyOfIndented(remaining[n..], indent);
    assert Unwrapped(pieces + [piece], causes, indent) + "" == Unwrapped(pieces + [piece], causes, indent);
  }

  lemma CutStep(word: string, pieces: seq<string>, causes: seq<Cause>, remaining: string, indent: nat, width: nat)
    requires CutState(word, pieces, causes, remaining, indent, width) && |remaining| > ChunkWidth(indent, width)
    ensures CutState(word, pieces + [Opening(remaining, indent, width)], causes + [Cut],
                     remaining[ChunkWidth(indent, width)..], indent, width)
  {
    hide AllJustified, Justified, Unwrapped, IsWord;
    var n := ChunkWidth(indent, width);
    var rest := remaining[n..];
    var piece, next := Opening(remaining, indent, width), Opening(rest, indent, width);
    CutJustified(remaining, rest, indent, width);
    OneJustified(next, indent, width);
    assert (pieces + [piece])[|pieces|] == piece;
    Concatenate(pieces + [piece], causes, Cut, [next], [], indent, width);
    assert causes + [Cut] + [] == causes + [Cut];
    CutUnwraps(pieces, causes, remaining, n, indent);
  }

  /** The finished lines of a word: justified, complete, and as wide as they must be. */
  ghost predicate WordLines(word: string, pieces: seq<string>, causes: seq<Cause>, indent: nat, width: nat) {
    && AllJustified(pieces, causes, indent, width) && Unwrapped(pieces, causes, indent) == word
    && Opening(word, indent, width) <= pieces[0]
    && (|word| > ChunkWidth(indent, width) ==> causes != []) && (forall k :: 0 <= k < |causes| ==> causes[k].Cut?)
    && (forall k :: 0 <= k < |pieces| ==> Spaces(indent) < pieces[k] && |pieces[k]| <= indent + ChunkWidth(indent, width))
  }

  lemma CutEnd(word: string, pieces: seq<string>, causes: seq<Cause>, remaining: string, indent: nat, width: nat)
    requires CutState(word, pieces, causes, remaining, indent, width) && |remaining| <= ChunkWidth(indent, width)
    ensures WordLines(word, pieces + [Spaces(indent) + remaining], causes, indent, width)
    ensures remaining != ""
  {
    hide Justified, Unwrapped;
    assert Spaces(indent) + remaining == Opening(remaining, indent, width);
  }

  /** Start a word on a fresh line, cutting it into full lines while it is too long. */
  method CutWord(word: string, indent: nat, width: nat) returns (pieces: seq<string>, ghost causes: seq<Cause>)
    requires IsWord(word)
    ensures WordLines(word, pieces, causes, indent, width)
    ensures pieces != [] && |pieces[|pieces| - 1]| > indent
  {
    hide CutState, WordLines;
    var chunkWidth := Max(1, width - indent);
    var remaining := word;
    pieces, causes := [], [];
    CutStart(word, indent, width);
    while |remaining| > chunkWidth
      invariant CutState(word, pieces, causes, remaining, indent, width)
      decreases |remaining|
    {
      CutStep(word, pieces, causes, remaining, indent, width);
      pieces, causes := pieces + [Spaces(indent) + remaining[..chunkWidth]], causes + [Cut];
      remaining := remaining[chunkWidth..];
    }
    CutEnd(word, pieces, causes, remaining, indent, width);
    pieces := pieces + [Spaces(indent) + remaining];
  }

  // ---- one paragraph ----

  /** After the first n words: the lines pushed so far and the open line. */
  ghost predicate WrapState(start: string, words: seq<string>, n: nat, lines: seq<string>, line: string,
                            causes: seq<Cause>, indent: nat, width: nat)
    requires n <= |words|
  {
    var prefix := if lines == [] then start else Spaces(indent);
    && prefix <= line && (n == 0 ==> lines == [] && line == start) && (n > 0 ==> prefix < line)
    && AllJustified(lines + [line], causes, indent, width)
    && Unwrapped(lines + [line], causes, indent) == JoinWords(words[..n])
    && (n > 0 ==> Shape(lines + [line], causes, start, indent, width))
  }

  lemma WrapStart(start: string, words: seq<string>, width: nat)
    ensures WrapState(start, words, 0, [], start, [], |start|, width)
  {
    assert [] + [start] == [start] && words[..0] == [];
    OneJustified(start, |start|, width);
    assert Body(start, |start|) == "";
  }

  /** The open line grows by a separator and a word that fits. */
  lemma FitStep(start: string, words: seq<string>, n: nat, lines: seq<string>, line: string, separator: string,
                causes: seq<Cause>, indent: nat, width: nat)
    requires |start| == indent && n < |words| && IsWord(words[n])
    requires WrapState(start, words, n, lines, line, causes, indent, width)
    requires separator == (if n == 0 then "" else " ") && |line| + |separator| + |words[n]| <= width
    ensures WrapState(start, words, n + 1, lines, line + separator + words[n], causes, indent, width)
  {
    hide AllJustified, Unwrapped, JoinWords, Shape;
    var line' := line + separator + words[n];
    JustifiedLength(lines + [line], causes, indent, width);
    LastGrows(lines, line, line', causes, indent, width);
    WordsStep(words, n);
    UnwrapGrow(lines, line, separator + words[n], causes, indent);
    assert line' == line + (separator + words[n]);
    if n == 0 {
      assert words[..0] == [] && [] + [line'] == [line'];
      JoinNothing();
      JustifiedLength(lines + [line], causes, indent, width);
      ShapeFirst(start, line', width);
    } else {
      ShapeLast(start, lines, line, line', causes, indent, width);
    }
  }

  lemma JoinNothing()
    ensures JoinWords([]) == ""
  {
  }

  lemma JustifiedLength(lines: seq<string>, causes: seq<Cause>, indent: nat, width: nat)
    requires AllJustified(lines, causes, indent, width)
    ensures |lines| == |causes| + 1
  {
  }

  /** Closed lines `done` that end before a word, ready for the word's own lines. */
  ghost predicate Closed(start: string, words: seq<string>, n: nat, done: seq<string>, causes: seq<Cause>,
                         pieces: seq<string>, indent: nat, width: nat)
    requires n < |words| && pieces != []
  {
    if done == [] then n == 0 && start == Spaces(indent)
    else
      && AllJustified(done, causes, indent, width)
      && Justified(done[|done| - 1], NoRoomFor(words[n]), pieces[0], indent, width)
      && Unwrapped(done, causes, indent) == JoinWords(words[..n])
      && (n == 0 <==> Body(done[|done| - 1], indent) == "") && (n == 0 ==> |done| == 1 && start != Spaces(indent))
      && Shape(done, causes, start, indent, width)
  }

  lemma CloseLine(start: string, words: seq<string>, n: nat, lines: seq<string>, line: string,
                  causes: seq<Cause>, pieces: seq<string>, pieceCauses: seq<Cause>, indent: nat, width: nat)
    requires |start| == indent && 0 < n < |words| && IsWord(words[n])
    requires WrapState(start, words, n, lines, line, causes, indent, width)
    requires WordLines(words[n], pieces, pieceCauses, indent, width) && |line| + 1 + |words[n]| > width
    ensures pieces != [] && Closed(start, words, n, lines + [line], causes, pieces, indent, width)
  {
    JustifiedLength(pieces, pieceCauses, indent, width);
    hide AllJustified, Unwrapped, JoinWords, Shape;
    assert Body(line, indent) != "";
  }

  /** The first word does not fit: the prefix stands alone, without trailing space. */
  lemma ClosePrefix(start: string, words: seq<string>, pieces: seq<string>, pieceCauses: seq<Cause>, indent: nat, width: nat)
    requires |start| == indent && 0 < |words| && IsWord(words[0]) && WordLines(words[0], pieces, pieceCauses, indent, width)
    requires indent + |words[0]| > width && start != Spaces(indent)
    ensures pieces != [] && Closed(start, words, 0, [TrimEnd(start)], [], pieces, indent, width)
  {
    JustifiedLength(pieces, pieceCauses, indent, width);
    var line := TrimEnd(start);
    ShapeBare(start, width);
    hide AllJustified, TrimEnd, Unwrapped, JoinWords, Shape;
    OneJustified(line, indent, width);
    UnwrapOne(line, indent);
    assert Body(line, indent) == "";
    assert words[..0] == [];
    JoinNothing();
  }

  lemma CloseNothing(start: string, words: seq<string>, causes: seq<Cause>, pieces: seq<string>, indent: nat, width: nat)
    requires start == Spaces(indent) && 0 < |words| && pieces != []
    ensures Closed(start, words, 0, [], causes, pieces, indent, width)
  {
  }

  /** The text of the closed lines, the undone break, and the word. */
  lemma BreakUnwraps(words: seq<string>, n: nat, done: seq<string>, causes: seq<Cause>,
                     pieces: seq<string>, pieceCauses: seq<Cause>, indent: nat)
    requires n < |words| && |done| == |causes| + 1 && |pieces| == |pieceCauses| + 1
    requires Unwrapped(done, causes, indent) == JoinWords(words[..n]) && Unwrapped(pieces, pieceCauses, indent) == words[n]
    requires n == 0 <==> Body(done[|done| - 1], indent) == ""
    ensures Unwrapped(done + pieces, causes + [NoRoomFor(words[n])] + pieceCauses, indent) == JoinWords(words[..n + 1])
  {
    hide Unwrapped, JoinWords, Body;
    UnwrapConcat(done, causes, NoRoomFor(words[n]), pieces, pieceCauses, indent);
    WordsStep(words, n);
    if n == 0 {
      assert words[..0] == [];
      JoinNothing();
      assert "" + "" + words[0] == words[0];
    }
  }

  lemma ShapeWord(word: string, pieces: seq<string>, causes: seq<Cause>, indent: nat, width: nat)
    requires WordLines(word, pieces, causes, indent, width)
    ensures Shape(pieces, causes, Spaces(indent), indent, width)
  {
    hide Unwrapped, TrimEnd, Justified;
  }

  /** The last line of a word's lines is the open one. */
  lemma OpenLast(start: string, words: seq<string>, n: nat, all: seq<string>, causes: seq<Cause>, indent: nat, width: nat)
    requires 0 < n <= |words| && all != [] && AllJustified(all, causes, indent, width)
    requires Unwrapped(all, causes, indent) == JoinWords(words[..n])
    requires (if |all| == 1 then start else Spaces(indent)) < all[|all| - 1]
    requires Shape(all, causes, start, indent, width)
    ensures WrapState(start, words, n, all[..|all| - 1], all[|all| - 1], causes, indent, width)
  {
    hide AllJustified, Unwrapped, JoinWords, Shape;
    assert all[..|all| - 1] + [all[|all| - 1]] == all;
  }

  lemma FirstWordLines(start: string, words: seq<string>, pieces: seq<string>, pieceCauses: seq<Cause>, indent: nat, width: nat)
    requires |start| == indent && start == Spaces(indent) && words != [] && pieces != []
    requires WordLines(words[0], pieces, pieceCauses, indent, width)
    ensures WrapState(start, words, 1, pieces[..|pieces| - 1], pieces[|pieces| - 1], pieceCauses, indent, width)
  {
    WordLinesAre(words[0], pieces, pieceCauses, indent, width);
    ShapeWord(words[0], pieces, pieceCauses, indent, width);
    hide WordLines, Opening, AllJustified, Justified, Unwrapped, JoinWords, IsWord, Body, Shape, WrapState;
    WordsStep(words, 0);
    OpenLast(start, words, 1, pieces, pieceCauses, indent, width);
  }

  lemma ClosedLines(start: string, words: seq<string>, n: nat, done: seq<string>, causes: seq<Cause>,
                    pieces: seq<string>, pieceCauses: seq<Cause>, indent: nat, width: nat)
    requires n < |words| && pieces != [] && WordLines(words[n], pieces, pieceCauses, indent, width)
    requires done != [] && Closed(start, words, n, done, causes, pieces, indent, width)
    ensures AllJustified(done + pieces, causes + [NoRoomFor(words[n])] + pieceCauses, indent, width)
    ensures Unwrapped(done + pieces, causes + [NoRoomFor(words[n])] + pieceCauses, indent) == JoinWords(words[..n + 1])
  {
    WordLinesAre(words[n], pieces, pieceCauses, indent, width);
    hide WordLines, AllJustified, Justified, Unwrapped, JoinWords, IsWord, Body, Shape;
    JustifiedLength(done, causes, indent, width);
    Concatenate(done, causes, NoRoomFor(words[n]), pieces, pieceCauses, indent, width);
    JustifiedLength(done + pieces, causes + [NoRoomFor(words[n])] + pieceCauses, indent, width);
    BreakUnwraps(words, n, done, causes, pieces, pieceCauses, indent);
  }

  lemma NextWordLines(start: string, words: seq<string>, n: nat, done: seq<string>, causes: seq<Cause>,
                      pieces: seq<string>, pieceCauses: seq<Cause>, indent: nat, width: nat, all: seq<string>, allCauses: seq<Cause>)
    requires |start| == indent && n < |words| && pieces != [] && WordLines(words[n], pieces, pieceCauses, indent, width)
    requires done != [] && Closed(start, words, n, done, causes, pieces, indent, width)
    requires all == done + pieces && allCauses == causes + [NoRoomFor(words[n])] + pieceCauses
    ensures WrapState(start, words, n + 1, all[..|all| - 1], all[|all| - 1], allCauses, indent, width)
  {
    WordLinesAre(words[n], pieces, pieceCauses, indent, width);
    ClosedLines(start, words, n, done, causes, pieces, pieceCauses, indent, width);
    ShapeWord(words[n], pieces, pieceCauses, indent, width);
    hide WordLines, AllJustified, Justified, Unwrapped, JoinWords, IsWord, Body, Shape;
    ShapeConcat(done, causes, NoRoomFor(words[n]), pieces, pieceCauses, start, indent, width);
    hide *;
    assert all[|all| - 1] == pieces[|pieces| - 1] && |all| > 1;
    OpenLast(start, words, n + 1, all, allCauses, indent, width);
  }

  lemma BreakStep(start: string, words: seq<string>, n: nat, done: seq<string>, causes: seq<Cause>,
                  pieces: seq<string>, pieceCauses: seq<Cause>, indent: nat, width: nat)
    requires |start| == indent && n < |words| && WordLines(words[n], pieces, pieceCauses, indent, width) && pieces != []
    requires Closed(start, words, n, done, causes, pieces, indent, width)
    ensures WrapState(start, words, n + 1, done + pieces[..|pieces| - 1], pieces[|pieces| - 1],
      if done == [] then pieceCauses else causes + [NoRoomFor(words[n])] + pieceCauses, indent, width)
  {
    if done == [] {
      hide WordLines, WrapState;
      FirstWordLines(start, words, pieces, pieceCauses, indent, width);
      assert done + pieces[..|pieces| - 1] == pieces[..|pieces| - 1];
    } else {
      hide WordLines, WrapState, Closed;
      var all := done + pieces;
      NextWordLines(start, words, n, done, causes, pieces, pieceCauses, indent, width,
        all, causes + [NoRoomFor(words[n])] + pieceCauses);
      assert all[..|all| - 1] == done + pieces[..|pieces| - 1] && all[|all| - 1] == pieces[|pieces| - 1];
    }
  }

  lemma WordLinesAre(word: string, pieces: seq<string>, causes: seq<Cause>, indent: nat, width: nat)
    requires WordLines(word, pieces, causes, indent, width)
    ensures |pieces| == |causes| + 1 && AllJustified(pieces, causes, indent, width)
    ensures |word| > ChunkWidth(indent, width) ==> causes != [] && causes[0].Cut?
    ensures pieces != [] && Unwrapped(pieces, causes, indent) == word && Spaces(indent) < pieces[|pieces| - 1]
  {
  }

  /** The finished lines of a paragraph. */
  ghost predicate Wrapped(start: string, words: seq<string>, lines: seq<string>, causes: seq<Cause>, indent: nat, width: nat) {
    && AllJustified(lines, causes, indent, width) && Unwrapped(lines, causes, indent) == JoinWords(words)
    && Shape(lines, causes, start, indent, width)
    && (indent >= width ==> words != [] && |lines[|lines| - 1]| > width)
  }

  lemma WrapEnd(start: string, words: seq<string>, lines: seq<string>, line: string, causes: seq<Cause>, indent: nat, width: nat)
    requires |start| == indent && words != [] && WrapState(start, words, |words|, lines, line, causes, indent, width)
    ensures Wrapped(start, words, lines + [line], causes, indent, width)
  {
    JustifiedLength(lines + [line], causes, indent, width);
    hide AllJustified, Unwrapped, JoinWords, Shape;
    assert words[..|words|] == words;
  }

  lemma WordIsNotEmpty(w: string)
    requires IsWord(w)
    ensures w != ""
  {
  }

  /** The word does not fit: push what the line holds (or the bare prefix) and start the word afresh. */
  method StartAfresh(start: string, words: seq<string>, i: nat, lines: seq<string>, line: string, ghost causes: seq<Cause>,
                     indent: nat, width: nat)
    returns (lines': seq<string>, line': string, ghost causes': seq<Cause>)
    requires |start| == indent && i < |words| && IsWord(words[i])
    requires WrapState(start, words, i, lines, line, causes, indent, width)
    requires i == 0 ==> lines == [] && causes == [] && indent + |words[i]| > width
    requires i > 0 ==> |line| + 1 + |words[i]| > width
    ensures WrapState(start, words, i + 1, lines', line', causes', indent, width) && |line'| > indent
  {
    hide *;
    var pieces, pieceCauses := CutWord(words[i], indent, width);
    lines' := lines;
    if i > 0 {
      CloseLine(start, words, i, lines, line, causes, pieces, pieceCauses, indent, width);
      lines' := lines + [line];
    } else if start != Spaces(indent) {
      ClosePrefix(start, words, pieces, pieceCauses, indent, width);
      lines' := [TrimEnd(start)];
    } else {
      CloseNothing(start, words, causes, pieces, indent, width);
    }
    BreakStep(start, words, i, lines', causes, pieces, pieceCauses, indent, width);
    causes' := if lines' == [] then pieceCauses else causes + [NoRoomFor(words[i])] + pieceCauses;
    lines', line' := lines' + pieces[..|pieces| - 1], pieces[|pieces| - 1];
  }

  method WrapParagraph(start: string, words: seq<string>, width: nat) returns (lines: seq<string>, ghost causes: seq<Cause>)
    requires words != [] && forall i :: 0 <= i < |words| ==> IsWord(words[i])
    ensures Wrapped(start, words, lines, causes, |start|, width)
  {
    var indent := |start|;
    var line, contentLength := start, 0;
    lines, causes := [], [];
    WrapStart(start, words, width);
    for i := 0 to |words|
      invariant WrapState(start, words, i, lines, line, causes, indent, width)
      invariant 0 <= contentLength && |line| == indent + contentLength && (contentLength == 0 <==> i == 0)
      invariant i == 0 ==> lines == [] && causes == []
    {
      hide *;
      var word := words[i];
      var separator := if contentLength > 0 then " " else "";
      var available := width - indent - contentLength;
      if |separator| + |word| <= available {
        FitStep(start, words, i, lines, line, separator, causes, indent, width);
        WordIsNotEmpty(word);
        line := line + separator + word;
        contentLength := contentLength + |separator| + |word|;
      } else {
        lines, line, causes := StartAfresh(start, words, i, lines, line, causes, indent, width);
        contentLength := |line| - indent;
      }
    }
    hide *;
    WrapEnd(start, words, lines, line, causes, indent, width);
    lines := lines + [line];
  }

  // ---- the whole text ----

  function WidthOf(columns: int): (w: nat)
    ensures columns == 0 ==> w == 79
    ensures columns >= 40 ==> w == columns - 1
    ensures columns != 0 && columns < 40 ==> w == 39
  {
    Max(40, if columns == 0 then 80 else columns) - 1
  }

  ghost predicate HasWords(paragraphs: seq<string>) {
    exists i :: 0 <= i < |paragraphs| && Words(paragraphs[i]) != []
  }

  /** The text of each line is of one line. */
  ghost predicate NoNewline(lines: seq<string>, indent: nat) {
    forall k :: 0 <= k < |lines| ==> '\n' !in Body(lines[k], indent)
  }

  lemma {:induction false} BodyInUnwrapped(lines: seq<string>, causes: seq<Cause>, indent: nat, k: nat)
    requires |lines| == |causes| + 1 && k < |lines|
    ensures forall c :: c in Body(lines[k], indent) ==> c in Unwrapped(lines, causes, indent)
    decreases |causes|
  {
    hide Body, Glue;
    var n := |causes|;
    if k < n { BodyInUnwrapped(lines[..n], causes[..n - 1], indent, k); }
  }

  lemma {:induction false} JoinHasNoNewline(words: seq<string>)
    requires forall i :: 0 <= i < |words| ==> IsWord(words[i])
    ensures '\n' !in JoinWords(words)
    decreases |words|
  {
    if words != [] { JoinHasNoNewline(words[..|words| - 1]); }
  }

  lemma WordsHaveNoNewline(words: seq<string>, lines: seq<string>, causes: seq<Cause>, indent: nat)
    requires forall i :: 0 <= i < |words| ==> IsWord(words[i])
    requires |lines| == |causes| + 1 && Unwrapped(lines, causes, indent) == JoinWords(words)
    ensures NoNewline(lines, indent)
  {
    JoinHasNoNewline(words);
    hide Unwrapped, JoinWords, Body, IsWord;
    forall k | 0 <= k < |lines| ensures '\n' !in Body(lines[k], indent) { BodyInUnwrapped(lines, causes, indent, k); }
  }

  /** Lines of the first paragraphs of a text. */
  ghost predicate Formatted(prefix: string, paragraphs: seq<string>, lines: seq<string>, causes: seq<Cause>, width: nat) {
    && AllJustified(lines, causes, |prefix|, width) && Unwrapped(lines, causes, |prefix|) == Plain(paragraphs)
    && Shape(lines, causes, prefix, |prefix|, width) && NoNewline(lines, |prefix|)
    && (|prefix| >= width && HasWords(paragraphs) ==> !Within(lines, width))
    && (!HasWords(paragraphs) ==> Within(lines, Max(width, |TrimEnd(prefix)|)) && |lines[0]| == |TrimEnd(prefix)|)
  }

  /** The lines of one paragraph. */
  ghost predicate ParagraphLines(start: string, paragraph: string, lines: seq<string>, causes: seq<Cause>, width: nat) {
    && AllJustified(lines, causes, |start|, width) && Unwrapped(lines, causes, |start|) == JoinWords(Words(paragraph))
    && Shape(lines, causes, start, |start|, width) && NoNewline(lines, |start|)
    && (Words(paragraph) == [] ==> lines == [TrimEnd(start)])
    && (Words(paragraph) != [] && |start| >= width ==> |lines[|lines| - 1]| > width)
  }

  method FormatParagraph(start: string, paragraph: string, width: nat) returns (lines: seq<string>, ghost causes: seq<Cause>)
    ensures ParagraphLines(start, paragraph, lines, causes, width)
  {
    var words := Words(paragraph);
    if words == [] {
      lines, causes := [TrimEnd(start)], [];
      OneJustified(TrimEnd(start), |start|, width);
      UnwrapOne(TrimEnd(start), |start|);
      assert Body(TrimEnd(start), |start|) == "";
      ShapeBare(start, width);
    } else {
      lines, causes := WrapParagraph(start, words, width);
      hide Unwrapped, AllJustified, JoinWords, Shape;
      assert Wrapped(start, words, lines, causes, |start|, width);
      JustifiedLength(lines, causes, |start|, width);
      WordsHaveNoNewline(words, lines, causes, |start|);
    }
  }

  lemma NoNewlineConcat(a: seq<string>, b: seq<string>, indent: nat)
    requires NoNewline(a, indent) && NoNewline(b, indent)
    ensures NoNewline(a + b, indent)
  {
    hide Body;
  }

  lemma ShortLine(lines: seq<string>, width: nat)
    ensures lines == [""] ==> forall w: nat :: Within(lines, w)
  {
  }

  lemma LongLine(lines: seq<string>, width: nat)
    requires lines != []
    ensures |lines[|lines| - 1]| > width ==> !Within(lines, width)
  {
  }

  lemma JoinParagraph(prefix: string, before: seq<string>, paragraph: string, lines: seq<string>, causes: seq<Cause>,
                      more: seq<string>, moreCauses: seq<Cause>, width: nat)
    requires before != [] && Formatted(prefix, before, lines, causes, width)
    requires ParagraphLines(Spaces(|prefix|), paragraph, more, moreCauses, width)
    ensures Formatted(prefix, before + [paragraph], lines + more, causes + [EndOfParagraph] + moreCauses, width)
  {
    JustifiedLength(lines, causes, |prefix|, width);
    JustifiedLength(more, moreCauses, |prefix|, width);
    JustifiedEnd(lines, causes, more, moreCauses, |prefix|, width);
    hide AllJustified, Unwrapped, Plain, JoinWords, Body, Words, TrimEnd, IsSpace, Shape, NoNewline, Within, HasWords;
    UnwrapConcat(lines, causes, EndOfParagraph, more, moreCauses, |prefix|);
    PlainStep(before, paragraph);
    WidthsConcat(lines, more, width);
    WidthsConcat(lines, more, Max(width, |TrimEnd(prefix)|));
    ShapeConcat(lines, causes, EndOfParagraph, more, moreCauses, prefix, |prefix|, width);
    NoNewlineConcat(lines, more, |prefix|);
    if Words(paragraph) == [] { ShortLine(more, width); } else { LongLine(more, width); }
    HasWordsConcat(before, paragraph);
    if Words(paragraph) == [] { TrimmedIndent(|prefix|); }
  }

  lemma WidthsConcat(a: seq<string>, b: seq<string>, width: nat)
    ensures Within(a + b, width) <==> Within(a, width) && Within(b, width)
  {
    if Within(a + b, width) {
      forall k | 0 <= k < |a| ensures |a[k]| <= width { assert (a + b)[k] == a[k]; }
      forall k | 0 <= k < |b| ensures |b[k]| <= width { assert (a + b)[|a| + k] == b[k]; }
    }
  }

  lemma JustifiedEnd(a: seq<string>, ca: seq<Cause>, b: seq<string>, cb: seq<Cause>, indent: nat, width: nat)
    requires AllJustified(a, ca, indent, width) && AllJustified(b, cb, indent, width)
    ensures AllJustified(a + b, ca + [EndOfParagraph] + cb, indent, width)
  {
    Concatenate(a, ca, EndOfParagraph, b, cb, indent, width);
  }

  lemma HasWordsConcat(before: seq<string>, paragraph: string)
    ensures HasWords(before + [paragraph]) <==> HasWords(before) || Words(paragraph) != []
  {
    hide Words;
    var all := before + [paragraph];
    assert all[|before|] == paragraph;
    if i :| 0 <= i < |before| && Words(before[i]) != [] { assert all[i] == before[i]; }
  }

  /** An indent trimmed is nothing. */
  lemma TrimmedIndent(n: nat)
    ensures TrimEnd(Spaces(n)) == ""
  {
  }

  lemma FirstParagraph(prefix: string, paragraph: string, lines: seq<string>, causes: seq<Cause>, width: nat)
    requires ParagraphLines(prefix, paragraph, lines, causes, width)
    ensures Formatted(prefix, [paragraph], lines, causes, width)
  {
    JustifiedLength(lines, causes, |prefix|, width);
    hide AllJustified, Unwrapped, JoinWords, Words, TrimEnd, Shape, NoNewline;
    assert HasWords([paragraph]) <==> Words(paragraph) != [] by {
      HasWordsConcat([], paragraph);
      assert [] + [paragraph] == [paragraph];
    }
  }

  /** Lines joined by newlines. */
  function JoinLines(lines: seq<string>): string {
    if lines == [] then "" else if |lines| == 1 then lines[0] else lines[0] + "\n" + JoinLines(lines[1..])
  }

  /** Lines are separated by newlines. */
  lemma {:induction false} JoinLinesConcat(a: seq<string>, b: seq<string>)
    requires a != [] && b != []
    ensures JoinLines(a + b) == JoinLines(a) + "\n" + JoinLines(b)
    ensures |a| == 1 ==> JoinLines(a) == a[0]
    decreases |a|
  {
    if |a| == 1 {
      assert (a + b)[1..] == b;
    } else {
      JoinLinesConcat(a[1..], b);
      assert (a + b)[1..] == a[1..] + b;
    }
  }

  /** The length of the word of the text that continues at the start of line k: over the line,
      and over the next one if the line was cut. */
  ghost function WordFrom(lines: seq<string>, causes: seq<Cause>, k: nat, indent: nat): nat
    requires |lines| == |causes| + 1 && k < |lines|
    decreases |lines| - k
  {
    WordLength(Body(lines[k], indent)) + if k < |causes| && causes[k].Cut? then WordFrom(lines, causes, k + 1, indent) else 0
  }

  /** Inside a paragraph the break after line k stands before a word that does not fit on the
      line, or at the full width inside a word. */
  ghost predicate Needed(lines: seq<string>, causes: seq<Cause>, k: nat, indent: nat, width: nat)
    requires |lines| == |causes| + 1 && k < |causes|
  {
    var body, n := Body(lines[k], indent), WordFrom(lines, causes, k + 1, indent);
    match causes[k]
    case EndOfParagraph => true
    case NoRoomFor(_) => 0 < n && if body == "" then indent + n > width else |lines[k]| + 1 + n > width
    case Cut => 0 < n && IsWord(body) && |body| == ChunkWidth(indent, width)
  }

  ghost predicate AllNeeded(lines: seq<string>, causes: seq<Cause>, indent: nat, width: nat) {
    |lines| == |causes| + 1 && forall k :: 0 <= k < |causes| ==> Needed(lines, causes, k, indent, width)
  }

  lemma {:induction false} WordLengthIs(s: string, w: string)
    requires w <= s && forall i :: 0 <= i < |w| ==> !IsSpace(w[i])
    ensures |w| <= WordLength(s)
    decreases |w|
  {
    if w != "" { WordLengthIs(s[1..], w[1..]); }
  }

  /** After a break the next line begins with the word, cut to the line's width if need be. */
  lemma NextBegins(line: string, cause: Cause, next: string, indent: nat, width: nat)
    requires Justified(line, cause, next, indent, width)
    ensures cause.NoRoomFor? ==> cause.word != ""
    ensures cause.NoRoomFor? ==> Min(|cause.word|, ChunkWidth(indent, width)) <= WordLength(Body(next, indent))
    ensures cause.Cut? ==> 0 < WordLength(Body(next, indent)) && WordLength(Body(line, indent)) == ChunkWidth(indent, width)
  {
    if cause.NoRoomFor? {
      var w := cause.word[..Min(|cause.word|, ChunkWidth(indent, width))];
      assert (Spaces(indent) + w)[indent..] == w;
      assert w <= Body(next, indent);
      WordLengthIs(Body(next, indent), w);
    }
    if cause.Cut? {
      WordLengthIs(Body(line, indent), Body(line, indent));
      assert Body(next, indent)[0] == next[indent];
    }
  }

  lemma WordFromStep(lines: seq<string>, causes: seq<Cause>, k: nat, indent: nat)
    requires |lines| == |causes| + 1 && k < |lines|
    ensures WordLength(Body(lines[k], indent)) <= WordFrom(lines, causes, k, indent)
    ensures k < |causes| && causes[k].Cut? ==>
      WordFrom(lines, causes, k, indent) == WordLength(Body(lines[k], indent)) + WordFrom(lines, causes, k + 1, indent)
  {
  }

  lemma JustifiedIsNeeded(lines: seq<string>, causes: seq<Cause>, indent: nat, width: nat)
    requires AllJustified(lines, causes, indent, width)
    ensures AllNeeded(lines, causes, indent, width)
  {
    hide WordLength;
    forall k | 0 <= k < |causes| ensures Needed(lines, causes, k, indent, width) {
      assert Justified(lines[k], causes[k], lines[k + 1], indent, width);
      NextBegins(lines[k], causes[k], lines[k + 1], indent, width);
      WordFromStep(lines, causes, k + 1, indent);
      if Overlong(causes[k], indent, width) {
        assert Justified(lines[k + 1], causes[k + 1], lines[k + 2], indent, width);
        NextBegins(lines[k + 1], causes[k + 1], lines[k + 2], indent, width);
        WordFromStep(lines, causes, k + 2, indent);
      }
    }
  }

  /** A layout of the text: every break is needed, undoing the breaks gives the text, each line
      has its prefix or indent and text without a newline, and whether the lines fit the width depends
      on the prefix alone. */
  ghost predicate IsLayout(prefix: string, text: string, lines: seq<string>, causes: seq<Cause>, width: nat) {
    && AllNeeded(lines, causes, |prefix|, width)
    && Unwrapped(lines, causes, |prefix|) == Normal(text)
    && Shape(lines, causes, prefix, |prefix|, width) && NoNewline(lines, |prefix|)
    && (Within(lines, width) <==>
         |prefix| < width || (!HasWords(Paragraphs(text)) && |TrimEnd(prefix)| <= width))
  }

  lemma FormattedText(prefix: string, text: string, lines: seq<string>, causes: seq<Cause>, width: nat)
    requires Formatted(prefix, Paragraphs(text), lines, causes, width)
    ensures IsLayout(prefix, text, lines, causes, width)
  {
    JustifiedLength(lines, causes, |prefix|, width);
    JustifiedIsNeeded(lines, causes, |prefix|, width);
    if |prefix| < width { ShapeWithin(lines, causes, prefix, |prefix|, width); }
    hide AllJustified, AllNeeded, Unwrapped, Words, TrimEnd, Paragraphs, Plain, Shape, NoNewline;
  }

  // ---- a text has one layout ----

  /** How a line ends: with the text, with its paragraph, before a word, inside a word, or, when it
      holds nothing, before the first word. */
  datatype End = Stop | Para | Gap | Inside | Blank

  /** A line with the given body takes the start of `text` and leaves `rest`. */
  ghost predicate Takes(text: string, body: string, end: End, rest: string, indent: nat, width: nat) {
    && '\n' !in body && |body| <= ChunkWidth(indent, width)
    && match end
       case Stop => text == body && rest == ""
       case Para => text == body + "\n" + rest
       case Gap => body != "" && text == body + " " + rest && 0 < WordLength(rest) && indent + |body| + 1 + WordLength(rest) > width
       case Inside => IsWord(body) && |body| == ChunkWidth(indent, width) && text == body + rest && 0 < WordLength(rest)
       case Blank => body == "" && text == rest && 0 < WordLength(rest) && indent + WordLength(rest) > width
  }

  lemma NonSpace(s: string, i: nat)
    requires i < |s|
    ensures i < WordLength(s) ==> !IsSpace(s[i])
  {
  }

  /** What follows the body tells how the line ends. */
  lemma EndsHere(text: string, b: string, e: End, r: string, indent: nat, width: nat)
    requires Takes(text, b, e, r, indent, width) && !e.Blank?
    ensures b <= text
    ensures (e.Stop? <==> |b| == |text|) && (e.Inside? ==> IsWord(b))
    ensures |b| < |text| ==> (e.Para? <==> text[|b|] == '\n') && (e.Gap? <==> text[|b|] == ' ') && (e.Inside? <==> !IsSpace(text[|b|]))
  {
    if e.Inside? { NonSpace(r, 0); assert text[|b|] == r[0]; }
    if e.Gap? { assert text[|b|] == ' '; }
    if e.Para? { assert text[|b|] == '\n'; }
  }

  /** A longer start of the text that does not end inside a later word reaches past the word that
      did not fit. */
  lemma GapReaches(text: string, b: string, r: string, b': string, indent: nat, width: nat)
    requires Takes(text, b, Gap, r, indent, width) && |b| < |b'| && b' <= text
    requires |b'| < |text| && !IsSpace(text[|b'|]) ==> IsWord(b')
    ensures |b'| >= |b| + 1 + WordLength(r)
  {
    var from, n := |b| + 1, WordLength(r);
    EndsHere(text, b, Gap, r, indent, width);
    assert b'[|b|] == text[|b|] == ' ';
    assert forall i :: from <= i < from + n ==> i < |text| && text[i] == r[i - from] && !IsSpace(text[i]);
  }

  /** No line stops short of another. */
  lemma TakesNoLess(text: string, b: string, e: End, r: string, b': string, e': End, r': string, indent: nat, width: nat)
    requires Takes(text, b, e, r, indent, width) && Takes(text, b', e', r', indent, width) && !e.Blank? && !e'.Blank?
    ensures |b| >= |b'|
  {
    EndsHere(text, b, e, r, indent, width);
    EndsHere(text, b', e', r', indent, width);
    if |b| < |b'| {
      assert text[|b|] == b'[|b|] && b'[|b|] in b';
      if e.Gap? { GapReaches(text, b, r, b', indent, width); }
    }
  }

  /** So a line that holds something is determined by the text. */
  lemma TakesUnique(text: string, b: string, e: End, r: string, b': string, e': End, r': string, indent: nat, width: nat)
    requires Takes(text, b, e, r, indent, width) && Takes(text, b', e', r', indent, width) && !e.Blank? && !e'.Blank?
    ensures b == b' && e == e' && r == r'
  {
    TakesNoLess(text, b, e, r, b', e', r', indent, width);
    TakesNoLess(text, b', e', r', b, e, r, indent, width);
    EndsHere(text, b, e, r, indent, width);
    EndsHere(text, b', e', r', indent, width);
    assert b == b' && e == e';
    assert !e.Stop? ==> r == text[|text| - |r|..] && r' == text[|text| - |r'|..];
  }

  /** A line that holds something, no part of a cut word and no more than fits, is no place for a
      bare prefix. */
  lemma NotBare(text: string, b: string, e: End, r: string, indent: nat, width: nat)
    requires Takes(text, b, e, r, indent, width) && !e.Blank? && !e.Inside? && (b != "" ==> indent + |b| <= width)
    ensures WordLength(text) == 0 || indent + WordLength(text) <= width
  {
    EndsHere(text, b, e, r, indent, width);
    if |b| < |text| { NonSpace(text, |b|); }
  }

  /** The text from line k on. */
  ghost function Rest(lines: seq<string>, causes: seq<Cause>, k: nat, indent: nat): string
    requires |lines| == |causes| + 1 && k < |lines|
  {
    Unwrapped(lines[k..], causes[k..], indent)
  }

  lemma RestSplits(lines: seq<string>, causes: seq<Cause>, k: nat, indent: nat)
    requires |lines| == |causes| + 1 && k < |lines|
    ensures var body := Body(lines[k], indent);
      Rest(lines, causes, k, indent) ==
        if k == |causes| then body else body + Glue(causes[k], body) + Rest(lines, causes, k + 1, indent)
  {
    hide Body, Glue;
    if k == |causes| {
      assert lines[k..] == [lines[k]] && causes[k..] == [];
    } else {
      hide Unwrapped;
      UnwrapConcat([lines[k]], [], causes[k], lines[k + 1..], causes[k + 1..], indent);
      UnwrapOne(lines[k], indent);
      assert [lines[k]] + lines[k + 1..] == lines[k..] && [] + [causes[k]] + causes[k + 1..] == causes[k..];
    }
  }

  lemma {:induction false} WordLengthConcat(w: string, s: string)
    requires forall i :: 0 <= i < |w| ==> !IsSpace(w[i])
    ensures WordLength(w + s) == |w| + WordLength(s)
    decreases |w|
  {
    if w == "" {
      assert w + s == s;
    } else {
      WordLengthConcat(w[1..], s);
      assert (w + s)[1..] == w[1..] + s;
    }
  }

  /** The word counted over the lines is a word of the text. */
  lemma {:induction false} WordFromIsWord(lines: seq<string>, causes: seq<Cause>, k: nat, indent: nat, width: nat)
    requires AllNeeded(lines, causes, indent, width) && k < |lines|
    ensures WordFrom(lines, causes, k, indent) <= WordLength(Rest(lines, causes, k, indent))
    decreases |lines| - k
  {
    RestSplits(lines, causes, k, indent);
    var body := Body(lines[k], indent);
    hide Unwrapped, Rest, Body;
    if k < |causes| {
      var after := Rest(lines, causes, k + 1, indent);
      if causes[k].Cut? {
        assert Needed(lines, causes, k, indent, width);
        WordFromIsWord(lines, causes, k + 1, indent, width);
        WordLengthConcat(body, after);
        WordLengthConcat(body, "");
        assert body + "" == body;
      } else {
        WordLengthIs(body + Glue(causes[k], body) + after, body[..WordLength(body)]);
      }
    }
  }

  function EndOf(cause: Cause, body: string): End {
    match cause
    case EndOfParagraph => Para
    case NoRoomFor(_) => if body == "" then Blank else Gap
    case Cut => Inside
  }

  ghost function EndAt(lines: seq<string>, causes: seq<Cause>, k: nat, indent: nat): End
    requires |lines| == |causes| + 1 && k < |lines|
  {
    if k == |causes| then Stop else EndOf(causes[k], Body(lines[k], indent))
  }

  ghost function RestAfter(lines: seq<string>, causes: seq<Cause>, k: nat, indent: nat): string
    requires |lines| == |causes| + 1 && k < |lines|
  {
    if k == |causes| then "" else Rest(lines, causes, k + 1, indent)
  }

  lemma BodyTakes(body: string, cause: Cause, after: string, n: nat, indent: nat, width: nat)
    requires '\n' !in body && |body| <= ChunkWidth(indent, width) && n <= WordLength(after)
    requires !cause.EndOfParagraph? ==> 0 < n
    requires cause.NoRoomFor? ==> if body == "" then indent + n > width else indent + |body| + 1 + n > width
    requires cause.Cut? ==> IsWord(body) && |body| == ChunkWidth(indent, width)
    ensures Takes(body + Glue(cause, body) + after, body, EndOf(cause, body), after, indent, width)
  {
    hide WordLength, IsWord, ChunkWidth;
    assert body + "" == body && "" + after == after;
  }

  lemma LineShape(lines: seq<string>, causes: seq<Cause>, k: nat, first: string, indent: nat, width: nat)
    requires Shape(lines, causes, first, indent, width) && NoNewline(lines, indent) && k < |lines|
    ensures var body := Body(lines[k], indent);
      '\n' !in body && |body| <= ChunkWidth(indent, width) && (body != "" ==> |lines[k]| == indent + |body|)
  {
    hide Indented, Opens, ChunkWidth;
  }

  lemma LineNeeded(lines: seq<string>, causes: seq<Cause>, k: nat, indent: nat, width: nat)
    requires AllNeeded(lines, causes, indent, width) && k < |causes|
    ensures Needed(lines, causes, k, indent, width)
  {
    hide Needed;
  }

  lemma LineTakes(lines: seq<string>, causes: seq<Cause>, k: nat, first: string, indent: nat, width: nat)
    requires AllNeeded(lines, causes, indent, width) && Shape(lines, causes, first, indent, width) && NoNewline(lines, indent)
    requires k < |lines|
    ensures Takes(Rest(lines, causes, k, indent), Body(lines[k], indent), EndAt(lines, causes, k, indent),
                  RestAfter(lines, causes, k, indent), indent, width)
  {
    RestSplits(lines, causes, k, indent);
    LineShape(lines, causes, k, first, indent, width);
    if k < |causes| {
      LineNeeded(lines, causes, k, indent, width);
      WordFromIsWord(lines, causes, k + 1, indent, width);
      hide AllNeeded, Shape, NoNewline, Rest, Body, WordLength, IsWord, Glue, EndOf, ChunkWidth, WordFrom, Takes;
      BodyTakes(Body(lines[k], indent), causes[k], Rest(lines, causes, k + 1, indent), WordFrom(lines, causes, k + 1, indent),
        indent, width);
    } else {
      hide AllNeeded, Shape, NoNewline, Rest, Body, WordLength, IsWord;
    }
  }

  /** Two layouts of one text that agree up to line k agree in line k and in how it ends. */
  lemma SameEnd(la: seq<string>, ca: seq<Cause>, lb: seq<string>, cb: seq<Cause>, k: nat, first: string, indent: nat, width: nat)
    requires AllNeeded(la, ca, indent, width) && Shape(la, ca, first, indent, width) && NoNewline(la, indent)
    requires AllNeeded(lb, cb, indent, width) && Shape(lb, cb, first, indent, width) && NoNewline(lb, indent)
    requires k < |la| && k < |lb| && Rest(la, ca, k, indent) == Rest(lb, cb, k, indent)
    ensures EndAt(la, ca, k, indent).Blank? ==> EndAt(lb, cb, k, indent).Blank?
  {
    LineTakes(la, ca, k, first, indent, width);
    LineTakes(lb, cb, k, first, indent, width);
    var a, b, body := EndAt(la, ca, k, indent), EndAt(lb, cb, k, indent), Body(lb[k], indent);
    assert a.Blank? ==> k == 0 && first != Spaces(indent);
    assert k == 0 && first != Spaces(indent) && body != "" ==> indent + |body| <= width && !b.Inside?;
    assert b.Inside? ==> body != "";
    hide AllNeeded, Shape, NoNewline, Rest, EndAt, RestAfter, Body;
    if a.Blank? && !b.Blank? {
      NotBare(Rest(lb, cb, k, indent), body, b, RestAfter(lb, cb, k, indent), indent, width);
    }
  }

  lemma SameLine(a: string, b: string, start: string, indent: nat)
    requires |start| == indent && Body(a, indent) == Body(b, indent)
    requires if Body(a, indent) == "" then a == TrimEnd(start) else start <= a
    requires if Body(b, indent) == "" then b == TrimEnd(start) else start <= b
    ensures a == b
  {
    hide TrimEnd;
    if Body(a, indent) != "" {
      assert a == start + Body(a, indent) && b == start + Body(b, indent);
    }
  }

  /** So they agree in line k, in how it ends and in what follows it. */
  lemma SameTaken(la: seq<string>, ca: seq<Cause>, lb: seq<string>, cb: seq<Cause>, k: nat, first: string, indent: nat, width: nat)
    requires AllNeeded(la, ca, indent, width) && Shape(la, ca, first, indent, width) && NoNewline(la, indent)
    requires AllNeeded(lb, cb, indent, width) && Shape(lb, cb, first, indent, width) && NoNewline(lb, indent)
    requires k < |la| && k < |lb| && Rest(la, ca, k, indent) == Rest(lb, cb, k, indent)
    ensures Body(la[k], indent) == Body(lb[k], indent) && EndAt(la, ca, k, indent) == EndAt(lb, cb, k, indent)
    ensures RestAfter(la, ca, k, indent) == RestAfter(lb, cb, k, indent)
  {
    SameEnd(la, ca, lb, cb, k, first, indent, width);
    SameEnd(lb, cb, la, ca, k, first, indent, width);
    LineTakes(la, ca, k, first, indent, width);
    LineTakes(lb, cb, k, first, indent, width);
    hide AllNeeded, Shape, NoNewline, Rest, EndAt, RestAfter, Body;
    var a, b := EndAt(la, ca, k, indent), EndAt(lb, cb, k, indent);
    if !a.Blank? {
      TakesUnique(Rest(la, ca, k, indent), Body(la[k], indent), a, RestAfter(la, ca, k, indent),
        Body(lb[k], indent), b, RestAfter(lb, cb, k, indent), indent, width);
    }
  }

  lemma StopsAtEnd(lines: seq<string>, causes: seq<Cause>, k: nat, indent: nat)
    requires |lines| == |causes| + 1 && k < |lines|
    ensures EndAt(lines, causes, k, indent).Stop? <==> k == |causes|
    ensures k < |causes| ==> RestAfter(lines, causes, k, indent) == Rest(lines, causes, k + 1, indent)
  {
    hide Rest, Body;
  }

  lemma SameLineAt(la: seq<string>, lb: seq<string>, k: nat, first: string, indent: nat)
    requires |first| == indent && Indented(la, first, indent) && Indented(lb, first, indent)
    requires k < |la| && k < |lb| && Body(la[k], indent) == Body(lb[k], indent)
    ensures la[k] == lb[k]
  {
    hide TrimEnd, Body;
    SameLine(la[k], lb[k], if k == 0 then first else Spaces(indent), indent);
  }

  lemma {:induction false} SameFrom(la: seq<string>, ca: seq<Cause>, lb: seq<string>, cb: seq<Cause>, k: nat,
                                    first: string, indent: nat, width: nat)
    requires |first| == indent
    requires AllNeeded(la, ca, indent, width) && Shape(la, ca, first, indent, width) && NoNewline(la, indent)
    requires AllNeeded(lb, cb, indent, width) && Shape(lb, cb, first, indent, width) && NoNewline(lb, indent)
    requires k < |la| && k < |lb| && Rest(la, ca, k, indent) == Rest(lb, cb, k, indent)
    ensures la[k..] == lb[k..]
    decreases |la| - k
  {
    hide AllNeeded, Rest, EndAt, RestAfter, Body, Needed, Indented, Narrow, Opens, NoNewline;
    SameTaken(la, ca, lb, cb, k, first, indent, width);
    StopsAtEnd(la, ca, k, indent);
    StopsAtEnd(lb, cb, k, indent);
    SameLineAt(la, lb, k, first, indent);
    if k < |ca| {
      SameFrom(la, ca, lb, cb, k + 1, first, indent, width);
    }
    assert la[k..] == [la[k]] + la[k + 1..] && lb[k..] == [lb[k]] + lb[k + 1..];
  }

  /** A text has one layout: two layouts under one prefix and width have the same lines. */
  lemma LayoutIsUnique(prefix: string, text: string, la: seq<string>, ca: seq<Cause>, lb: seq<string>, cb: seq<Cause>, width: nat)
    requires IsLayout(prefix, text, la, ca, width) && IsLayout(prefix, text, lb, cb, width)
    ensures la == lb
  {
    assert la[0..] == la && lb[0..] == lb && ca[0..] == ca && cb[0..] == cb;
    SameFrom(la, ca, lb, cb, 0, prefix, |prefix|, width);
  }

  /** Wrap a text under a prefix: the result is the one layout of the text. */
  method FormatHangingText(prefix: string, text: string, columns: int) returns (r: string)
    ensures exists lines, causes :: r == JoinLines(lines) && IsLayout(prefix, text, lines, causes, WidthOf(columns))
    ensures forall lines, causes :: IsLayout(prefix, text, lines, causes, WidthOf(columns)) ==> r == JoinLines(lines)
  {
    var width := WidthOf(columns);
    var paragraphs := Paragraphs(text);
    hide *;
    var output, outputCauses := FormatParagraph(prefix, paragraphs[0], width);
    FirstParagraph(prefix, paragraphs[0], output, outputCauses, width);
    assert paragraphs[..1] == [paragraphs[0]];
    for i := 1 to |paragraphs|
      invariant Formatted(prefix, paragraphs[..i], output, outputCauses, width)
    {
      assert paragraphs[..i + 1] == paragraphs[..i] + [paragraphs[i]];
      var more, moreCauses := FormatParagraph(Spaces(|prefix|), paragraphs[i], width);
      JoinParagraph(prefix, paragraphs[..i], paragraphs[i], output, outputCauses, more, moreCauses, width);
      output, outputCauses := output + more, outputCauses + [EndOfParagraph] + moreCauses;
    }
    assert paragraphs[..|paragraphs|] == paragraphs;
    FormattedText(prefix, text, output, outputCauses, width);
    forall lines, causes | IsLayout(prefix, text, lines, causes, width) ensures lines == output {
      LayoutIsUnique(prefix, text, output, outputCauses, lines, causes, width);
    }
    r := JoinLines(output);
  }
}
