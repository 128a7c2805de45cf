/** The bucketed secret matcher and the plain scan it replaces
    (src/credential-constants.ts, createSecretsRedactor). A char stands for a code unit that is not a
    surrogate. */
module Redactor {
  import opened Common

  const PLACEHOLDER: string := "[REDACTED_PASSWORD]"

  /** The secret occurs in the text at the index. */
  predicate StartsWith(text: string, secret: string, index: nat) {
    index + |secret| <= |text| && text[index..index + |secret|] == secret
  }

  // ---- the plain scan ----

  ghost predicate Matches(secrets: set<string>, text: string, index: nat) {
    exists s :: s in secrets && StartsWith(text, s, index)
  }

  ghost predicate IsLongest(secrets: set<string>, text: string, index: nat, m: string) {
    && m in secrets && StartsWith(text, m, index)
    && forall s :: s in secrets && StartsWith(text, s, index) ==> |s| <= |m|
  }

  lemma {:induction false} LongestExists(secrets: set<string>, text: string, index: nat, s: string)
    requires s in secrets && StartsWith(text, s, index)
    ensures exists m :: IsLongest(secrets, text, index, m)
    decreases |text| - |s|
  {
    if t :| t in secrets && StartsWith(text, t, index) && |s| < |t| {
      LongestExists(secrets, text, index, t);
    } else {
      assert IsLongest(secrets, text, index, s);
    }
  }

  ghost function Longest(secrets: set<string>, text: string, index: nat): (m: string)
    requires Matches(secrets, text, index)
    ensures IsLongest(secrets, text, index, m)
  {
    var s :| s in secrets && StartsWith(text, s, index);
    LongestExists(secrets, text, index, s);
    var m :| IsLongest(secrets, text, index, m);
    m
  }

  /** Per index, the length of the longest secret matching there, or 0. */
  ghost function MatchLength(secrets: set<string>, text: string, index: nat): (n: nat)
    ensures index <= |text| ==> index + n <= |text|
  {
    if Matches(secrets, text, index) then |Longest(secrets, text, index)| else 0
  }

  ghost function MatchLengths(secrets: set<string>, text: string): (lens: seq<nat>)
    ensures Fits(lens, text)
  {
    seq(|text|, i requires 0 <= i < |text| => MatchLength(secrets, text, i))
  }

  ghost predicate Fits(lens: seq<nat>, text: string) {
    |lens| == |text| && forall i :: 0 <= i < |lens| ==> i + lens[i] <= |text|
  }

  lemma MatchLengthIs(secrets: set<string>, text: string, index: nat, m: string)
    requires "" !in secrets && index < |text| && IsLongest(secrets, text, index, m)
    ensures MatchLengths(secrets, text)[index] == |m| > 0
  {
  }

  lemma LengthIsLongest(secrets: set<string>, text: string, index: nat)
    requires index < |text| && MatchLengths(secrets, text)[index] > 0
    ensures IsLongest(secrets, text, index, text[index..index + MatchLengths(secrets, text)[index]])
  {
  }

  lemma NoMatchAt(secrets: set<string>, text: string, index: nat, s: string)
    requires "" !in secrets && s in secrets && index < |text| && MatchLengths(secrets, text)[index] == 0
    ensures !StartsWith(text, s, index)
  {
  }

  /** At each index replace the match (the longest secret there), else copy one unit. */
  ghost function PlainScan(mark: string, lens: seq<nat>, text: string, index: nat): string
    requires Fits(lens, text) && index <= |text|
    decreases |text| - index
  {
    if index == |text| then ""
    else if lens[index] > 0 then mark + PlainScan(mark, lens, text, index + lens[index])
    else [text[index]] + PlainScan(mark, lens, text, index + 1)
  }

  /** The reference: scan left to right with the longest secret at each index. */
  ghost function Redacted(mark: string, secrets: set<string>, text: string): string {
    PlainScan(mark, MatchLengths(secrets, text), text, 0)
  }

  // ---- the matcher ----

  type Buckets = map<string, seq<string>>

  predicate Descending(values: seq<string>) {
    forall i, j :: 0 <= i < j < |values| ==> |values[i]| >= |values[j]|
  }

  /** The bucket sort: longest first. */
  function Insert(value: string, sorted: seq<string>): (r: seq<string>)
    requires Descending(sorted)
    ensures Descending(r) && forall s :: s in r <==> s == value || s in sorted
  {
    if sorted == [] then [value]
    else if |value| > |sorted[0]| then [value] + sorted
    else
      var rest := Insert(value, sorted[1..]);
      assert forall i :: 0 <= i < |rest| ==> rest[i] in rest;
      assert forall s :: s in sorted <==> s == sorted[0] || s in sorted[1..];
      [sorted[0]] + rest
  }

  function SortByLength(values: seq<string>): (r: seq<string>)
    ensures Descending(r) && forall s :: s in r <==> s in values
  {
    if values == [] then []
    else
      var last, front := values[|values| - 1], values[..|values| - 1];
      assert forall s :: s in values <==> s == last || s in front;
      Insert(last, SortByLength(front))
  }

  function KeyOf(secret: string): string
    requires secret != ""
  {
    if |secret| < 4 then secret[..1] else secret[..4]
  }

  function Candidates(buckets: Buckets, key: string): seq<string> {
    if key in buckets then buckets[key] else []
  }

  predicate Filed(secrets: set<string>, long: bool, key: string, s: string) {
    s in secrets && s != "" && (long <==> |s| >= 4) && KeyOf(s) == key
  }

  /** A bucket holds exactly the secrets of its length class that have its key. */
  ghost predicate Holds(buckets: Buckets, long: bool, secrets: set<string>) {
    forall key, s :: s in Candidates(buckets, key) <==> Filed(secrets, long, key, s)
  }

  function Added(buckets: Buckets, secret: string): Buckets
    requires secret != ""
  {
    buckets[KeyOf(secret) := Candidates(buckets, KeyOf(secret)) + [secret]]
  }

  lemma AddToBucket(buckets: Buckets, long: bool, secrets: set<string>, secret: string)
    requires Holds(buckets, long, secrets) && secret != ""
    ensures Holds(if long <==> |secret| >= 4 then Added(buckets, secret) else buckets, long, secrets + {secret})
  {
    var b := if long <==> |secret| >= 4 then Added(buckets, secret) else buckets;
    forall key, s ensures s in Candidates(b, key) <==> Filed(secrets + {secret}, long, key, s) {
      assert s in Candidates(buckets, key) <==> Filed(secrets, long, key, s);
    }
  }

  /** The secrets given, without repeats and empty strings. */
  ghost function Distinct(given: seq<string>): set<string> {
    set s | s in given && s != ""
  }

  /** File each distinct non-empty secret under its key. */
  method FillBuckets(given: seq<string>) returns (short: Buckets, long: Buckets)
    ensures Holds(short, false, Distinct(given)) && Holds(long, true, Distinct(given))
  {
    short, long := map[], map[];
    var added: set<string> := {};
    for i := 0 to |given|
      invariant added == Distinct(given[..i])
      invariant Holds(short, false, added) && Holds(long, true, added)
    {
      var secret := given[i];
      assert given[..i + 1] == given[..i] + [secret];
      if secret != "" && secret !in added {
        AddToBucket(short, false, added, secret);
        AddToBucket(long, true, added, secret);
        if |secret| < 4 {
          short := Added(short, secret);
        } else {
          long := Added(long, secret);
        }
        added := added + {secret};
      }
    }
    assert given[..|given|] == given;
  }

  /** A secret that matches at an index is filed under the text's next four units, or its next one. */
  lemma MatchHasKey(text: string, index: nat, s: string)
    requires s != "" && StartsWith(text, s, index)
    ensures |s| >= 4 ==> index + 4 <= |text| && KeyOf(s) == text[index..index + 4]
    ensures |s| < 4 ==> index < |text| && KeyOf(s) == text[index..index + 1]
  {
    if |s| >= 4 {
      assert text[index..index + |s|][..4] == text[index..index + 4];
    } else {
      assert text[index..index + |s|][..1] == text[index..index + 1];
    }
  }

  /** The first of the values that occurs in the text at the index. */
  method Find(values: seq<string>, text: string, index: nat) returns (r: Option<string>)
    ensures r.None? ==> forall s :: s in values ==> !StartsWith(text, s, index)
    ensures r.Some? ==> r.value in values && StartsWith(text, r.value, index)
    ensures r.Some? && Descending(values) ==>
      forall s :: s in values && StartsWith(text, s, index) ==> |s| <= |r.value|
  {
    for k := 0 to |values|
      invariant forall i :: 0 <= i < k ==> !StartsWith(text, values[i], index)
    {
      if StartsWith(text, values[k], index) {
        return Some(values[k]);
      }
    }
    return None;
  }

  class SecretsRedactor {
    ghost const secrets: set<string>
    const mark: string
    var short: Buckets
    var long: Buckets

    ghost predicate Valid()
      reads this
    {
      && "" !in secrets
      && Holds(short, false, secrets) && Holds(long, true, secrets)
      && (forall key :: Descending(Candidates(short, key)))
      && (forall key :: Descending(Candidates(long, key)))
    }

    /** `given` may repeat secrets and contain empty strings; both are dropped. */
    constructor (given: seq<string>)
      ensures Valid() && secrets == Distinct(given) && mark == PLACEHOLDER
    {
      var shortBuckets, longBuckets := FillBuckets(given);
      secrets, mark := Distinct(given), PLACEHOLDER;
      short := map key | key in shortBuckets :: SortByLength(shortBuckets[key]);
      long := map key | key in longBuckets :: SortByLength(longBuckets[key]);
      new;
      SortKeepsMembers(shortBuckets, short);
      SortKeepsMembers(longBuckets, long);
    }

    /** The longest secret at an index: long candidates by their first four units, then short ones by their first. */
    method MatchAt(text: string, index: nat) returns (r: Option<string>)
      requires Valid() && index < |text|
      ensures MatchLengths(secrets, text)[index] == if r.Some? then |r.value| else 0
      ensures r.Some? ==> 0 < |r.value| && index + |r.value| <= |text|
    {
      var stop := if index + 4 <= |text| then index + 4 else |text|;
      r := Find(Candidates(long, text[index..stop]), text, index);
      if r.None? {
        r := Find(Candidates(short, text[index..index + 1]), text, index);
      }
      forall s | s in secrets && StartsWith(text, s, index)
        ensures if |s| < 4 then s in Candidates(short, text[index..index + 1]) else s in Candidates(long, text[index..stop])
      {
        MatchHasKey(text, index, s);
      }
      if r.Some? {
        assert IsLongest(secrets, text, index, r.value);
        MatchLengthIs(secrets, text, index, r.value);
      }
    }

    method RedactText(text: string) returns (r: string)
      requires Valid()
      ensures r == Redacted(mark, secrets, text)
    {
      hide *;
      var output, copiedThrough, index := "", 0, 0;
      ghost var lens := MatchLengths(secrets, text);
      PendingStart(mark, lens, text);
      while index < |text|
        invariant 0 <= copiedThrough <= index <= |text| && (copiedThrough == 0 ==> output == "")
        invariant Pending(mark, lens, output, text, copiedThrough, index)
        decreases |text| - index
      {
        var found := MatchAt(text, index);
        if found.None? {
          PendingCopy(mark, lens, output, text, copiedThrough, index);
          index := index + 1;
          continue;
        }
        PendingReplace(mark, lens, output, text, copiedThrough, index);
        output := output + text[copiedThrough..index] + mark;
        index := index + |found.value|;
        copiedThrough := index;
      }
      r := if copiedThrough > 0 then output + text[copiedThrough..] else text;
      PendingEnd(mark, secrets, output, text, copiedThrough);
    }
  }

  /** Flushed output, the pending copy and the scan from index on make up the whole result. */
  ghost predicate Pending(mark: string, lens: seq<nat>, output: string, text: string, copiedThrough: nat, index: nat)
    requires Fits(lens, text) && copiedThrough <= index <= |text|
  {
    output + text[copiedThrough..index] + PlainScan(mark, lens, text, index) == PlainScan(mark, lens, text, 0)
  }

  lemma PendingStart(mark: string, lens: seq<nat>, text: string)
    requires Fits(lens, text)
    ensures Pending(mark, lens, "", text, 0, 0)
  {
  }

  lemma PendingEnd(mark: string, secrets: set<string>, output: string, text: string, copiedThrough: nat)
    requires copiedThrough <= |text| && (copiedThrough == 0 ==> output == "")
    requires Pending(mark, MatchLengths(secrets, text), output, text, copiedThrough, |text|)
    ensures Redacted(mark, secrets, text) == if copiedThrough > 0 then output + text[copiedThrough..] else text
  {
    hide MatchLengths;
    assert text[copiedThrough..|text|] == text[copiedThrough..] && text[0..] == text;
  }

  lemma PendingCopy(mark: string, lens: seq<nat>, output: string, text: string, copiedThrough: nat, index: nat)
    requires Fits(lens, text) && copiedThrough <= index < |text| && lens[index] == 0
    requires Pending(mark, lens, output, text, copiedThrough, index)
    ensures Pending(mark, lens, output, text, copiedThrough, index + 1)
  {
    var rest := PlainScan(mark, lens, text, index + 1);
    assert text[copiedThrough..index + 1] == text[copiedThrough..index] + [text[index]];
    assert output + text[copiedThrough..index] + ([text[index]] + rest) == output + text[copiedThrough..index + 1] + rest;
  }

  lemma PendingReplace(mark: string, lens: seq<nat>, output: string, text: string, copiedThrough: nat, index: nat)
    requires Fits(lens, text) && copiedThrough <= index < |text| && lens[index] > 0
    requires Pending(mark, lens, output, text, copiedThrough, index)
    ensures Pending(mark, lens, output + text[copiedThrough..index] + mark, text, index + lens[index], index + lens[index])
  {
    var rest := PlainScan(mark, lens, text, index + lens[index]);
    var output' := output + text[copiedThrough..index];
    assert output' + (mark + rest) == output' + mark + rest;
    assert text[index + lens[index]..index + lens[index]] == "";
  }

  lemma SortKeepsMembers(before: Buckets, after: Buckets)
    requires after == map key | key in before :: SortByLength(before[key])
    ensures forall key, s :: s in Candidates(after, key) <==> s in Candidates(before, key)
    ensures forall key :: Descending(Candidates(after, key))
  {
  }

  // ---- what the scan guarantees ----

  datatype Span = Span(lo: nat, hi: nat)

  ghost predicate InOrder(spans: seq<Span>, from: nat, n: nat) {
    && (forall k :: 0 <= k < |spans| ==> from <= spans[k].lo < spans[k].hi <= n)
    && (forall j, k :: 0 <= j < k < |spans| ==> spans[j].hi <= spans[k].lo)
  }

  /** The replaced spans of the text, left to right. */
  ghost function Spans(lens: seq<nat>, text: string, index: nat): (r: seq<Span>)
    requires Fits(lens, text) && index <= |text|
    ensures InOrder(r, index, |text|)
    decreases |text| - index
  {
    if index == |text| then []
    else if lens[index] > 0 then [Span(index, index + lens[index])] + Spans(lens, text, index + lens[index])
    else Spans(lens, text, index + 1)
  }

  /** Copy the text from `from` on, with each span replaced by the mark. */
  ghost function Render(mark: string, text: string, spans: seq<Span>, from: nat): string
    requires from <= |text| && InOrder(spans, from, |text|)
  {
    if spans == [] then text[from..]
    else text[from..spans[0].lo] + mark + Render(mark, text, spans[1..], spans[0].hi)
  }

  lemma RenderStep(mark: string, text: string, spans: seq<Span>, from: nat)
    requires from < |text| && InOrder(spans, from + 1, |text|)
    ensures Render(mark, text, spans, from) == [text[from]] + Render(mark, text, spans, from + 1)
  {
    if spans == [] {
      assert text[from..] == [text[from]] + text[from + 1..];
    } else {
      var rest := Render(mark, text, spans[1..], spans[0].hi);
      assert text[from..spans[0].lo] == [text[from]] + text[from + 1..spans[0].lo];
      assert [text[from]] + text[from + 1..spans[0].lo] + mark + rest
          == [text[from]] + (text[from + 1..spans[0].lo] + mark + rest);
    }
  }

  lemma RenderNothing(mark: string, text: string)
    ensures Render(mark, text, [], |text|) == ""
  {
  }

  lemma RenderSpan(mark: string, text: string, span: Span, rest: seq<Span>)
    requires span.lo < span.hi <= |text| && InOrder(rest, span.hi, |text|)
    ensures InOrder([span] + rest, span.lo, |text|)
    ensures Render(mark, text, [span] + rest, span.lo) == mark + Render(mark, text, rest, span.hi)
  {
    assert text[span.lo..span.lo] == "" && ([span] + rest)[1..] == rest;
  }

  /** The output is the input with exactly the spans replaced. */
  lemma {:induction false} ScanRendersSpans(mark: string, lens: seq<nat>, text: string, index: nat)
    requires Fits(lens, text) && index <= |text|
    ensures PlainScan(mark, lens, text, index) == Render(mark, text, Spans(lens, text, index), index)
    decreases |text| - index
  {
    hide Render, InOrder;
    if index == |text| {
      RenderNothing(mark, text);
    } else if lens[index] > 0 {
      var next := index + lens[index];
      ScanRendersSpans(mark, lens, text, next);
      RenderSpan(mark, text, Span(index, next), Spans(lens, text, next));
    } else {
      ScanRendersSpans(mark, lens, text, index + 1);
      RenderStep(mark, text, Spans(lens, text, index + 1), index);
    }
  }

  /** Some span overlaps the units lo..hi. */
  ghost predicate Hit(spans: seq<Span>, lo: int, hi: int) {
    exists k :: 0 <= k < |spans| && spans[k].lo < hi && lo < spans[k].hi
  }

  lemma HitCons(span: Span, rest: seq<Span>, lo: int, hi: int)
    ensures Hit([span] + rest, lo, hi) <==> (span.lo < hi && lo < span.hi) || Hit(rest, lo, hi)
  {
    var all := [span] + rest;
    if span.lo < hi && lo < span.hi { assert all[0] == span; }
    if k :| 0 <= k < |rest| && rest[k].lo < hi && lo < rest[k].hi { assert all[k + 1] == rest[k]; }
  }

  lemma {:induction false} MatchIsHit(lens: seq<nat>, text: string, index: nat, at: nat, n: nat)
    requires Fits(lens, text) && index <= at < |text| && 0 < n <= lens[at]
    ensures Hit(Spans(lens, text, index), at, at + n)
    decreases |text| - index
  {
    if lens[index] > 0 {
      var next := index + lens[index];
      HitCons(Span(index, next), Spans(lens, text, next), at, at + n);
      if next <= at { MatchIsHit(lens, text, next, at, n); }
    } else {
      MatchIsHit(lens, text, index + 1, at, n);
    }
  }

  /** Every occurrence of a secret in the input overlaps a replaced span, so
      no text copied between placeholders contains a secret. */
  lemma EveryOccurrenceIsHit(secrets: set<string>, text: string, s: string, at: nat, lo: nat, hi: nat)
    requires "" !in secrets && s in secrets && StartsWith(text, s, at)
    requires lo <= at && at + |s| <= hi
    ensures Hit(Spans(MatchLengths(secrets, text), text, 0), lo, hi)
  {
    var lens := MatchLengths(secrets, text);
    assert Matches(secrets, text, at) && lens[at] >= |s|;
    MatchIsHit(lens, text, 0, at, |s|);
  }

  /** Conversely a replaced span is an occurrence of a secret, the longest at its place. */
  lemma {:induction false} SpansAreSecrets(secrets: set<string>, text: string, index: nat, k: nat)
    requires index <= |text| && k < |Spans(MatchLengths(secrets, text), text, index)|
    ensures var span := Spans(MatchLengths(secrets, text), text, index)[k];
      IsLongest(secrets, text, span.lo, text[span.lo..span.hi])
    decreases |text| - index
  {
    hide MatchLengths, InOrder, Matches;
    var lens := MatchLengths(secrets, text);
    if lens[index] > 0 {
      LengthIsLongest(secrets, text, index);
      if k > 0 { SpansAreSecrets(secrets, text, index + lens[index], k - 1); }
    } else {
      SpansAreSecrets(secrets, text, index + 1, k);
    }
  }

  ghost predicate Contains(text: string, s: string) {
    exists at :: StartsWith(text, s, at)
  }

  /** The output itself may contain a secret: one that occurs in the placeholder. */
  lemma PlaceholderMayShowASecret()
    ensures Contains(Redacted(PLACEHOLDER, {"RED"}, "RED"), "RED")
  {
    var secrets, text := {"RED"}, "RED";
    assert StartsWith(text, "RED", 0);
    assert IsLongest(secrets, text, 0, "RED");
    MatchLengthIs(secrets, text, 0, "RED");
    hide MatchLengths;
    var lens := MatchLengths(secrets, text);
    assert PlainScan(PLACEHOLDER, lens, text, 3) == "";
    assert Redacted(PLACEHOLDER, secrets, text) == PLACEHOLDER + "" == PLACEHOLDER;
    assert |PLACEHOLDER| == 19 && PLACEHOLDER[1] == 'R' && PLACEHOLDER[2] == 'E' && PLACEHOLDER[3] == 'D';
    assert PLACEHOLDER[1..4] == ['R', 'E', 'D'];
    assert StartsWith(PLACEHOLDER, "RED", 1);
  }

  /** The secret laid over the mark, its first unit at position d of the mark, agrees with it
      wherever both have a unit. */
  ghost predicate Agrees(s: string, mark: string, d: int) {
    forall i :: 0 <= i < |s| && 0 <= d + i < |mark| ==> s[i] == mark[d + i]
  }

  lemma AgreesAt(mark: string, rest: string, s: string, at: nat)
    requires StartsWith(mark + rest, s, at)
    ensures Agrees(s, mark, at)
  {
    forall i | 0 <= i < |s| && at + i < |mark| ensures s[i] == mark[at + i] {
      assert (mark + rest)[at..at + |s|][i] == (mark + rest)[at + i];
    }
  }

  lemma ShiftMatch(front: string, rest: string, s: string, at: nat)
    requires |front| <= at
    ensures StartsWith(front + rest, s, at) <==> StartsWith(rest, s, at - |front|)
  {
    if at + |s| <= |front| + |rest| {
      assert (front + rest)[at..at + |s|] == rest[at - |front|..at - |front| + |s|];
    }
  }

  /** An occurrence in the output starts inside a placeholder or with a copied unit. */
  lemma {:induction false} Occurrence(mark: string, lens: seq<nat>, text: string, index: nat, s: string, at: nat)
    returns (inMark: bool, d: nat, pos: nat)
    requires Fits(lens, text) && index <= |text| && s != ""
    requires StartsWith(PlainScan(mark, lens, text, index), s, at)
    ensures inMark ==> d < |mark| && Agrees(s, mark, d)
    ensures !inMark ==> index <= pos < |text| && lens[pos] == 0 && StartsWith(PlainScan(mark, lens, text, pos), s, 0)
    decreases |text| - index
  {
    inMark, d, pos := false, 0, index;
    if lens[index] > 0 {
      var rest := PlainScan(mark, lens, text, index + lens[index]);
      if at < |mark| {
        AgreesAt(mark, rest, s, at);
        inMark, d := true, at;
      } else {
        ShiftMatch(mark, rest, s, at);
        inMark, d, pos := Occurrence(mark, lens, text, index + lens[index], s, at - |mark|);
      }
    } else if at > 0 {
      ShiftMatch([text[index]], PlainScan(mark, lens, text, index + 1), s, at);
      inMark, d, pos := Occurrence(mark, lens, text, index + 1, s, at - 1);
    }
  }

  lemma FirstCopied(first: char, rest: string, s: string)
    requires s != "" && StartsWith([first] + rest, s, 0)
    ensures s[0] == first && StartsWith(rest, s[1..], 0)
  {
    var output := [first] + rest;
    assert output[0..|s|][0] == s[0];
    assert rest[0..|s| - 1] == output[0..|s|][1..] == s[1..];
  }

  lemma PrefixGrows(text: string, index: nat, s: string, k: nat)
    requires k < |s| && index < |text| && s[0] == text[index] && StartsWith(text, s[1..][..k], index + 1)
    ensures StartsWith(text, s[..k + 1], index)
  {
    assert s[..k + 1] == [s[0]] + s[1..][..k];
    assert text[index..index + k + 1] == [text[index]] + text[index + 1..index + k + 1];
  }

  /** A prefix s of the output is j copied units, then, if j < |s|, a placeholder. */
  lemma {:induction false} CopiedThenMark(mark: string, lens: seq<nat>, text: string, index: nat, s: string)
    returns (j: nat)
    requires Fits(lens, text) && index <= |text| && StartsWith(PlainScan(mark, lens, text, index), s, 0)
    ensures j <= |s| && StartsWith(text, s[..j], index) && forall i :: index <= i < index + j ==> lens[i] == 0
    ensures j < |s| ==> index + j < |text| && lens[index + j] > 0 && Agrees(s[j..], mark, 0)
    decreases |s|
  {
    j := 0;
    if s != "" && lens[index] > 0 {
      AgreesAt(mark, PlainScan(mark, lens, text, index + lens[index]), s, 0);
      assert s[0..] == s;
    } else if s != "" {
      FirstCopied(text[index], PlainScan(mark, lens, text, index + 1), s);
      var k := CopiedThenMark(mark, lens, text, index + 1, s[1..]);
      hide PlainScan, Agrees;
      j := k + 1;
      PrefixGrows(text, index, s, k);
      assert s[j..] == s[1..][k..];
    }
  }

  /** A secret that agrees with the placeholder at no offset occurs in no output, whatever the
      other secrets are. */
  lemma OutputHasNoSecret(mark: string, secrets: set<string>, text: string, s: string)
    requires "" !in secrets && s in secrets
    requires forall d :: -|s| < d < |mark| ==> !Agrees(s, mark, d)
    ensures !Contains(Redacted(mark, secrets, text), s)
  {
    hide MatchLengths, PlainScan;
    var lens := MatchLengths(secrets, text);
    if at :| StartsWith(Redacted(mark, secrets, text), s, at) {
      var inMark, d, pos := Occurrence(mark, lens, text, 0, s, at);
      if !inMark {
        var j := CopiedThenMark(mark, lens, text, pos, s);
        if j < |s| {
          assert forall i :: 0 <= i < |s[j..]| ==> s[j..][i] == s[j + i];
          assert Agrees(s, mark, -j);
        } else {
          assert s[..j] == s;
          NoMatchAt(secrets, text, pos, s);
        }
      }
    }
  }

  // ---- one secret: exactly when it can show ----

  /** The secret agrees with the placeholder from one of its positions on. */
  ghost predicate ShowsInMark(mark: string, s: string) {
    exists d :: 0 <= d < |mark| && Agrees(s, mark, d)
  }

  /** k units of the secret can be copied before the secret itself is replaced, and the rest of
      it agrees with the placeholder. */
  ghost predicate ShowsAcross(mark: string, s: string, k: nat)
    requires k <= |s|
  {
    Agrees(s[k..], mark, 0) && forall i :: 0 <= i < k ==> !StartsWith(s[..k] + s, s, i)
  }

  ghost predicate CanShow(mark: string, s: string) {
    ShowsInMark(mark, s) || exists k :: 0 < k < |s| && ShowsAcross(mark, s, k)
  }

  lemma OneMatch(s: string, text: string, index: nat)
    requires s != "" && index < |text|
    ensures MatchLengths({s}, text)[index] == if StartsWith(text, s, index) then |s| else 0
  {
    if StartsWith(text, s, index) {
      assert IsLongest({s}, text, index, s);
      MatchLengthIs({s}, text, index, s);
    }
  }

  lemma ShownMeansCanShow(mark: string, s: string, text: string)
    requires s != "" && Contains(Redacted(mark, {s}, text), s)
    ensures CanShow(mark, s)
  {
    hide MatchLengths, PlainScan;
    var lens := MatchLengths({s}, text);
    var at :| StartsWith(Redacted(mark, {s}, text), s, at);
    var inMark, d, pos := Occurrence(mark, lens, text, 0, s, at);
    if !inMark {
      var j := CopiedThenMark(mark, lens, text, pos, s);
      assert s[..|s|] == s;
      OneMatch(s, text, pos);
      if j < |s| {
        OneMatch(s, text, pos + j);
        ReplacedAfter(s, text, pos, j);
        assert ShowsAcross(mark, s, j);
      }
    }
  }

  /** Matching within a part of the text is matching in the text. */
  lemma MatchesWithin(text: string, part: string, pos: nat, s: string, i: nat)
    requires StartsWith(text, part, pos) && i + |s| <= |part|
    ensures StartsWith(part, s, i) <==> StartsWith(text, s, pos + i)
  {
    var within := text[pos + i..pos + i + |s|];
    forall k | 0 <= k < |s| ensures part[i + k] == within[k] {
      assert text[pos..pos + |part|][i + k] == text[pos + i + k];
    }
    assert part[i..i + |s|] == within;
  }

  /** Where j units of the secret were copied and then the secret replaced, the text has both. */
  lemma ReplacedAfter(s: string, text: string, pos: nat, j: nat)
    requires s != "" && j < |s| && StartsWith(text, s[..j], pos) && StartsWith(text, s, pos + j)
    requires forall i :: pos <= i < pos + j ==> MatchLengths({s}, text)[i] == 0
    ensures forall i :: 0 <= i < j ==> !StartsWith(s[..j] + s, s, i)
  {
    var both := s[..j] + s;
    assert text[pos..pos + |both|] == both;
    hide MatchLengths, StartsWith;
    forall i | 0 <= i < j ensures !StartsWith(both, s, i) {
      OneMatch(s, text, pos + i);
      MatchesWithin(text, both, pos, s, i);
    }
  }

  /** Units at which nothing matches are copied. */
  lemma {:induction false} Copies(mark: string, lens: seq<nat>, text: string, index: nat, n: nat)
    requires Fits(lens, text) && index + n <= |text| && forall i :: index <= i < index + n ==> lens[i] == 0
    ensures PlainScan(mark, lens, text, index) == text[index..index + n] + PlainScan(mark, lens, text, index + n)
    decreases n
  {
    var rest := PlainScan(mark, lens, text, index + n);
    if n == 0 {
      assert text[index..index + n] == "" && "" + rest == rest;
    } else {
      Copies(mark, lens, text, index + 1, n - 1);
      CopyOne(mark, lens, text, index);
      hide PlainScan;
      assert text[index..index + n] == [text[index]] + text[index + 1..index + n];
      assert [text[index]] + text[index + 1..index + n] + rest == [text[index]] + (text[index + 1..index + n] + rest);
    }
  }

  lemma CopyOne(mark: string, lens: seq<nat>, text: string, index: nat)
    requires Fits(lens, text) && index < |text| && lens[index] == 0
    ensures PlainScan(mark, lens, text, index) == [text[index]] + PlainScan(mark, lens, text, index + 1)
  {
  }

  lemma CopiesAll(mark: string, lens: seq<nat>, text: string, index: nat)
    requires Fits(lens, text) && index <= |text| && forall i :: index <= i < |text| ==> lens[i] == 0
    ensures PlainScan(mark, lens, text, index) == text[index..]
  {
    Copies(mark, lens, text, index, |text| - index);
    assert PlainScan(mark, lens, text, |text|) == "";
    assert text[index..|text|] + "" == text[index..];
  }

  /** The scan of front, a match of n units, and tail. */
  lemma ScansOnce(mark: string, lens: seq<nat>, text: string, front: string, n: nat, tail: string)
    requires Fits(lens, text) && 0 < n && |text| == |front| + n + |tail| && front == text[..|front|] && tail == text[|front| + n..]
    requires (forall i :: 0 <= i < |front| ==> lens[i] == 0) && lens[|front|] == n
    requires forall i :: |front| + n <= i < |text| ==> lens[i] == 0
    ensures PlainScan(mark, lens, text, 0) == front + mark + tail
  {
    var f := |front|;
    CopiesAll(mark, lens, text, f + n);
    assert PlainScan(mark, lens, text, f) == mark + tail;
    hide PlainScan;
    Copies(mark, lens, text, 0, f);
    assert text[0..0 + f] == front && front + (mark + tail) == front + mark + tail;
  }

  /** What the one-secret redactor makes of front + s + tail, if s starts nowhere in front and
      tail is too short for it. */
  lemma RedactsOnce(mark: string, s: string, front: string, tail: string)
    requires s != "" && |tail| < |s| && forall i :: 0 <= i < |front| ==> !StartsWith(front + s, s, i)
    ensures Redacted(mark, {s}, front + s + tail) == front + mark + tail
  {
    var text, n := front + s + tail, |front|;
    var lens := MatchLengths({s}, text);
    assert StartsWith(text, front + s, 0) && StartsWith(text, s, n);
    assert text[..n] == front && text[n + |s|..] == tail;
    assert forall i :: n + |s| <= i ==> !StartsWith(text, s, i);
    hide MatchLengths, StartsWith;
    forall i | 0 <= i < n ensures lens[i] == 0 {
      OneMatch(s, text, i);
      MatchesWithin(text, front + s, 0, s, i);
    }
    OneMatch(s, text, n);
    forall i | n + |s| <= i < |text| ensures lens[i] == 0 { OneMatch(s, text, i); }
    ScansOnce(mark, lens, text, front, |s|, tail);
  }

  /** The units of s that reach past a mark laid under it from position d of the mark. */
  function Past(s: string, mark: string, d: int): string {
    if 0 <= |mark| - d < |s| then s[|mark| - d..] else ""
  }

  lemma InMarkShows(mark: string, s: string, d: nat) returns (text: string)
    requires s != "" && d < |mark| && Agrees(s, mark, d)
    ensures Contains(Redacted(mark, {s}, text), s)
  {
    var tail := Past(s, mark, d);
    RedactsOnce(mark, s, "", tail);
    text := "" + s + tail;
    var output := "" + mark + tail;
    assert |output| >= d + |s|;
    assert forall i :: 0 <= i < |s| ==> output[d + i] == s[i];
    assert output[d..d + |s|] == s;
    assert StartsWith(output, s, d);
  }

  lemma AcrossShows(mark: string, s: string, k: nat) returns (text: string)
    requires 0 < k < |s| && ShowsAcross(mark, s, k)
    ensures Contains(Redacted(mark, {s}, text), s)
  {
    var d: int := k;
    var front, tail := s[..k], Past(s, mark, -d);
    RedactsOnce(mark, s, front, tail);
    text := front + s + tail;
    var output := front + mark + tail;
    assert |output| >= |s|;
    forall i | 0 <= i < |s| ensures output[i] == s[i] {
      if k <= i < k + |mark| { assert s[k..][i - k] == mark[0 + (i - k)]; }
    }
    assert output[0..|s|] == s;
    assert StartsWith(output, s, 0);
  }

  /** Some output of the redactor of one secret contains the secret exactly when the secret agrees
      with the placeholder from one of its positions on, or a proper prefix of it can be copied
      before it and the rest agrees with the placeholder. */
  lemma ShowsIff(mark: string, s: string)
    requires s != ""
    ensures (exists text :: Contains(Redacted(mark, {s}, text), s)) <==> CanShow(mark, s)
  {
    hide Contains, Redacted, ShowsAcross;
    if text :| Contains(Redacted(mark, {s}, text), s) {
      ShownMeansCanShow(mark, s, text);
    }
    if ShowsInMark(mark, s) {
      var d: nat :| d < |mark| && Agrees(s, mark, d);
      var text := InMarkShows(mark, s, d);
    } else if k :| 0 < k < |s| && ShowsAcross(mark, s, k) {
      var text := AcrossShows(mark, s, k);
    }
  }

  /** A unit outside s, redacted as a secret of its own between a prefix and the end of s. */
  lemma UnitBetween(mark: string, s: string, k: nat, unit: char, tail: string)
    requires 0 < k < |s| && unit !in s && |tail| <= |s| - k && forall c :: c in tail ==> c in s
    ensures Redacted(mark, {s, [unit]}, s[..k] + [unit] + tail) == s[..k] + mark + tail
  {
    var text, secrets := s[..k] + [unit] + tail, {s, [unit]};
    var lens := MatchLengths(secrets, text);
    assert text[..k] == s[..k] && text[k..k + 1] == [unit] && text[k + 1..] == tail;
    assert IsLongest(secrets, text, k, [unit]) by {
      MatchedUnit(text, s, k, k);
    }
    MatchLengthIs(secrets, text, k, [unit]);
    forall i | 0 <= i < |text| && i != k ensures lens[i] == 0 { NothingAt(s, k, unit, tail, text, i); }
    hide MatchLengths;
    ScansOnce(mark, lens, text, s[..k], 1, tail);
  }

  lemma MatchedUnit(text: string, s: string, i: nat, p: nat)
    ensures StartsWith(text, s, i) && i <= p < i + |s| ==> text[p] in s
  {
    assert StartsWith(text, s, i) && i <= p < i + |s| ==> text[i..i + |s|][p - i] == text[p];
  }

  lemma NothingAt(s: string, k: nat, unit: char, tail: string, text: string, i: nat)
    requires 0 < k < |s| && unit !in s && |tail| <= |s| - k && forall c :: c in tail ==> c in s
    requires text == s[..k] + [unit] + tail && i < |text| && i != k
    ensures MatchLengths({s, [unit]}, text)[i] == 0
  {
    assert text[i] in s by {
      if i < k { assert text[i] == s[i]; } else { assert text[i] == tail[i - k - 1] && tail[i - k - 1] in tail; }
    }
    MatchedUnit(text, [unit], i, i);
    MatchedUnit(text, s, i, k);
    assert !Matches({s, [unit]}, text, i);
  }

  /** The condition of OutputHasNoSecret is exact when the other secrets may be any: if it fails,
      some redactor with s among its secrets shows s. */
  lemma SomeRedactorShowsIff(mark: string, s: string, unit: char)
    requires s != "" && unit !in s
    ensures (exists secrets, text :: "" !in secrets && s in secrets && Contains(Redacted(mark, secrets, text), s))
       <==> (exists d :: -|s| < d < |mark| && Agrees(s, mark, d))
  {
    hide Contains, Redacted, Agrees;
    if secrets, text :| "" !in secrets && s in secrets && Contains(Redacted(mark, secrets, text), s) {
      if forall d :: -|s| < d < |mark| ==> !Agrees(s, mark, d) {
        OutputHasNoSecret(mark, secrets, text, s);
      }
    }
    if d :| -|s| < d < |mark| && Agrees(s, mark, d) {
      var secrets: set<string>, text: string;
      if d >= 0 {
        secrets := {s};
        text := InMarkShows(mark, s, d);
      } else {
        secrets := {s, [unit]};
        text := UnitShows(mark, s, -d, unit);
      }
      assert Contains(Redacted(mark, secrets, text), s);
    }
  }

  lemma UnitShows(mark: string, s: string, k: nat, unit: char) returns (text: string)
    requires 0 < k < |s| && unit !in s && Agrees(s, mark, 0 - k)
    ensures Contains(Redacted(mark, {s, [unit]}, text), s)
  {
    var d: int := k;
    var tail := Past(s, mark, -d);
    UnitBetween(mark, s, k, unit, tail);
    text := s[..k] + [unit] + tail;
    var output := s[..k] + mark + tail;
    assert forall i :: 0 <= i < |s| ==> output[i] == s[i];
    assert output[0..|s|] == s;
    assert StartsWith(output, s, 0);
  }
}
