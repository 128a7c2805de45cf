/** Printing and resolving model selectors (src/agent.ts). `lower` is toLowerCase(); all that is
    assumed of it is that it leaves the source names, which are lower case, alone. */
module ModelSelector {
  import opened Common
  import opened ChromiumArgs

  const NATIVE_SOURCES := {"claude", "codex", "grok"}
  const ENDPOINT_SOURCES := {"cerebras", "openrouter", "ollama", "vllm", "custom"}

  datatype Entry = Entry(source: string, model: string)

  ghost predicate KeepsSources(lower: string -> string) {
    forall s :: s in NATIVE_SOURCES + ENDPOINT_SOURCES ==> lower(s) == s
  }

  // ---- strings ----

  /** Where the first slash is, or -1. */
  function FirstSlash(s: string): (r: int)
    ensures -1 <= r < |s|
    ensures 0 <= r ==> s[r] == '/'
    ensures forall k :: 0 <= k < (if r == -1 then |s| else r) ==> s[k] != '/'
  {
    if s == "" then -1
    else if s[0] == '/' then 0
    else
      var r := FirstSlash(s[1..]);
      if r == -1 then -1 else r + 1
  }

  /** Where the last slash is, or -1. */
  function LastSlash(s: string): (r: int)
    ensures -1 <= r < |s|
    ensures 0 <= r ==> s[r] == '/'
    ensures forall k :: r < k < |s| ==> s[k] != '/'
  {
    if s == "" then -1
    else if s[|s| - 1] == '/' then |s| - 1
    else LastSlash(s[..|s| - 1])
  }

  predicate NoSpace(s: string) {
    s != "" && forall i :: 0 <= i < |s| ==> !IsSpace(s[i])
  }

  lemma TrimNoSpace(s: string)
    requires NoSpace(s)
    ensures Trim(s) == s
  {
    assert TrimStart(s) == s;
  }

  /** source/model, when the part before the first slash names a source. */
  function Qualified(lower: string -> string, value: string): Option<Entry> {
    var selector := Trim(value);
    var slash := FirstSlash(selector);
    if slash <= 0 || slash == |selector| - 1 then None
    else
      var source := lower(selector[..slash]);
      if source !in NATIVE_SOURCES + ENDPOINT_SOURCES then None
      else Some(Entry(source, selector[slash + 1..]))
  }

  function Distinct(s: seq<string>): (r: seq<string>)
    ensures forall x :: x in r <==> x in s
  {
    if s == [] then []
    else
      var front, last := s[..|s| - 1], s[|s| - 1];
      assert forall x :: x in s <==> x in front || x == last;
      if last in Distinct(front) then Distinct(front) else Distinct(front) + [last]
  }

  function NonEmpty(s: seq<string>): (r: seq<string>)
    ensures forall x :: x in r <==> x in s && x != ""
  {
    if s == [] then []
    else
      assert forall x :: x in s <==> x in s[..|s| - 1] || x == s[|s| - 1];
      NonEmpty(s[..|s| - 1]) + if s[|s| - 1] != "" then [s[|s| - 1]] else []
  }

  /** The whole id, what follows its first slash and what follows its last. */
  function AliasValues(value: string): seq<string> {
    var id := Trim(value);
    var first, last := FirstSlash(id), LastSlash(id);
    NonEmpty(Distinct([id] + (if first != -1 then [id[first + 1..]] else [])
                           + (if last != -1 then [id[last + 1..]] else [])))
  }

  /** What follows the first slash, or the last one, of an id. */
  ghost predicate Follows(id: string, alias: string) {
    exists before: string :: id == before + "/" + alias && ('/' !in before || '/' !in alias)
  }

  lemma FirstFollows(id: string, before: string, alias: string)
    requires id == before + "/" + alias && '/' !in before
    ensures FirstSlash(id) == |before| && id[|before| + 1..] == alias
  {
    assert forall k :: 0 <= k < |before| ==> id[k] == before[k] && before[k] in before;
    assert id[|before|] == '/';
  }

  lemma LastFollows(id: string, before: string, alias: string)
    requires id == before + "/" + alias && '/' !in alias
    ensures LastSlash(id) == |before| && id[|before| + 1..] == alias
  {
    assert forall k :: |before| < k < |id| ==> id[k] == alias[k - |before| - 1] && alias[k - |before| - 1] in alias;
    assert id[|before|] == '/';
  }

  lemma SlashesFollow(id: string)
    ensures FirstSlash(id) != -1 ==> Follows(id, id[FirstSlash(id) + 1..])
    ensures LastSlash(id) != -1 ==> Follows(id, id[LastSlash(id) + 1..])
  {
    var first, last := FirstSlash(id), LastSlash(id);
    if first != -1 { assert id == id[..first] + "/" + id[first + 1..] && '/' !in id[..first]; }
    if last != -1 { assert id == id[..last] + "/" + id[last + 1..] && '/' !in id[last + 1..]; }
  }

  /** The aliases of a model id are the id itself and what follows its first and its last slash. */
  lemma AliasesAre(value: string, alias: string)
    ensures alias in AliasValues(value) <==> alias != "" && (alias == Trim(value) || Follows(Trim(value), alias))
  {
    hide Trim, Distinct, NonEmpty, FirstSlash, LastSlash;
    var id := Trim(value);
    SlashesFollow(id);
    if Follows(id, alias) {
      var before :| id == before + "/" + alias && ('/' !in before || '/' !in alias);
      if '/' !in before { FirstFollows(id, before, alias); } else { LastFollows(id, before, alias); }
    }
    hide Follows;
  }

  /** modelIdAliases(model).has(lowered) */
  predicate HasAlias(lower: string -> string, model: string, lowered: string) {
    exists a | a in AliasValues(model) :: lower(a) == lowered
  }

  /** The native source inferred from a model id. */
  function NativeSource(id: string): Option<string> {
    if id in NATIVE_SOURCES then None
    else if "claude" <= id then Some("claude")
    else if "grok" <= id then Some("grok")
    else if "gpt" <= id || (|id| >= 2 && id[0] == 'o' && '0' <= id[1] <= '9') || "chatgpt" <= id || "codex" <= id then
      Some("codex")
    else None
  }

  /** A model id speaks for a native source by its prefix, unless it is the name of one. */
  lemma NativeIff(id: string)
    ensures id in {"claude", "codex", "grok"} ==> NativeSource(id) == None
    ensures id !in {"claude", "codex", "grok"} ==>
      && (NativeSource(id) == Some("claude") <==> StartsWith(id, "claude"))
      && (NativeSource(id) == Some("grok") <==> StartsWith(id, "grok"))
      && (NativeSource(id) == Some("codex") <==>
            StartsWith(id, "gpt") || StartsWith(id, "chatgpt") || StartsWith(id, "codex") || IsSeries(id))
  {
    forall start: string ensures StartsWith(id, start) <==> start <= id {
      if start <= id { assert id == start + id[|start|..]; }
    }
    SeriesIff(id);
    hide StartsWith, IsSeries;
    assert "claude" <= id ==> id[0] == 'c' && id[1] == 'l';
    assert "grok" <= id ==> id[0] == 'g' && id[1] == 'r';
    assert "gpt" <= id ==> id[0] == 'g' && id[1] == 'p';
    assert "chatgpt" <= id ==> id[0] == 'c' && id[1] == 'h';
    assert "codex" <= id ==> id[0] == 'c' && id[1] == 'o';
  }

  /** An o and a digit, then anything. */
  ghost predicate IsSeries(id: string) {
    exists digit: char, rest: string :: '0' <= digit <= '9' && id == "o" + [digit] + rest
  }

  lemma SeriesIff(id: string)
    ensures IsSeries(id) <==> |id| >= 2 && id[0] == 'o' && '0' <= id[1] <= '9'
  {
    if |id| >= 2 && id[0] == 'o' { assert id == "o" + [id[1]] + id[2..]; }
  }

  ghost predicate StartsWith(s: string, start: string) {
    exists rest :: s == start + rest
  }

  // ---- printing ----

  /** Stable sort by length. */
  function InsertByLength(s: string, sorted: seq<string>): (r: seq<string>)
    requires forall i, j :: 0 <= i < j < |sorted| ==> |sorted[i]| <= |sorted[j]|
    ensures forall i, j :: 0 <= i < j < |r| ==> |r[i]| <= |r[j]|
    ensures forall x :: x in r <==> x == s || x in sorted
  {
    if sorted == [] then [s]
    else
      var front, last := sorted[..|sorted| - 1], sorted[|sorted| - 1];
      assert forall x :: x in sorted <==> x in front || x == last;
      if |last| <= |s| then
        assert forall i :: 0 <= i < |sorted| ==> |sorted[i]| <= |last|;
        sorted + [s]
      else
        var r := InsertByLength(s, front);
        assert forall i :: 0 <= i < |r| ==> r[i] in r;
        assert forall x :: x in r ==> |x| <= |last| by {
          assert forall i :: 0 <= i < |front| ==> |front[i]| <= |last|;
        }
        r + [last]
  }

  function SortByLength(s: seq<string>): (r: seq<string>)
    ensures forall i, j :: 0 <= i < j < |r| ==> |r[i]| <= |r[j]|
    ensures forall x :: x in r <==> x in s
  {
    if s == [] then []
    else
      assert forall x :: x in s <==> x in s[..|s| - 1] || x == s[|s| - 1];
      InsertByLength(s[|s| - 1], SortByLength(s[..|s| - 1]))
  }

  /** The members of one length, in order. */
  ghost function OfLength(s: seq<string>, n: nat): seq<string> {
    if s == [] then []
    else OfLength(s[..|s| - 1], n) + if |s[|s| - 1]| == n then [s[|s| - 1]] else []
  }

  lemma {:induction false} InsertIsStable(s: string, sorted: seq<string>, n: nat)
    requires forall i, j :: 0 <= i < j < |sorted| ==> |sorted[i]| <= |sorted[j]|
    ensures OfLength(InsertByLength(s, sorted), n) == OfLength(sorted, n) + if |s| == n then [s] else []
    decreases |sorted|
  {
    InsertStep(s, sorted);
    hide InsertByLength;
    if sorted == [] {
      OneMore([], s, n);
      assert [] + [s] == [s];
    } else {
      var front, last := sorted[..|sorted| - 1], sorted[|sorted| - 1];
      OneMore(front, last, n);
      assert front + [last] == sorted;
      if |last| <= |s| {
        OneMore(sorted, s, n);
      } else {
        InsertIsStable(s, front, n);
        OneMore(InsertByLength(s, front), last, n);
      }
    }
  }

  lemma OneMore(s: seq<string>, x: string, n: nat)
    ensures OfLength(s + [x], n) == OfLength(s, n) + if |x| == n then [x] else []
  {
    assert (s + [x])[..|s|] == s;
  }

  lemma InsertStep(s: string, sorted: seq<string>)
    requires forall i, j :: 0 <= i < j < |sorted| ==> |sorted[i]| <= |sorted[j]|
    ensures InsertByLength(s, sorted) ==
      if sorted == [] then [s]
      else if |sorted[|sorted| - 1]| <= |s| then sorted + [s]
      else InsertByLength(s, sorted[..|sorted| - 1]) + [sorted[|sorted| - 1]]
  {
  }

  /** Sorting keeps the order among aliases of one length, and loses or repeats none. */
  lemma {:induction false} SortIsStable(s: seq<string>, n: nat)
    ensures OfLength(SortByLength(s), n) == OfLength(s, n)
    decreases |s|
  {
    if s != [] {
      SortIsStable(s[..|s| - 1], n);
      InsertIsStable(s[|s| - 1], SortByLength(s[..|s| - 1]), n);
    }
  }

  /** The entries with an alias that lowers to the given one. */
  function Having(lower: string -> string, models: seq<Entry>, lowered: string): (r: seq<Entry>)
    ensures forall e :: e in r <==> e in models && HasAlias(lower, e.model, lowered)
  {
    if models == [] then []
    else
      var front, last := models[..|models| - 1], models[|models| - 1];
      assert forall e :: e in models <==> e in front || e == last;
      Having(lower, front, lowered) + if HasAlias(lower, last.model, lowered) then [last] else []
  }

  /** A bare alias that names this entry and nothing else. */
  predicate Usable(lower: string -> string, models: seq<Entry>, entry: Entry, alias: string) {
    && Qualified(lower, alias).None?
    && (var native := NativeSource(lower(alias)); native.None? || native.value == entry.source)
    && |Having(lower, models, lower(alias))| == 1
  }

  /** A prefix that speaks for the entry's own source is no obstacle; one that speaks for another is. */
  lemma OwnPrefixIsUsable(lower: string -> string, models: seq<Entry>, entry: Entry, alias: string)
    requires Qualified(lower, alias).None? && NativeSource(lower(alias)).Some?
    ensures Usable(lower, models, entry, alias) ==> NativeSource(lower(alias)) == Some(entry.source)
    ensures NativeSource(lower(alias)) == Some(entry.source) && Having(lower, models, lower(alias)) == [entry] ==>
      Usable(lower, models, entry, alias)
  {
    hide Qualified, NativeSource, Having;
  }

  function FirstUsable(lower: string -> string, models: seq<Entry>, entry: Entry, aliases: seq<string>): Option<string> {
    if aliases == [] then None
    else if Usable(lower, models, entry, aliases[0]) then Some(aliases[0])
    else FirstUsable(lower, models, entry, aliases[1..])
  }

  ghost predicate IsFirstUsable(lower: string -> string, models: seq<Entry>, entry: Entry, aliases: seq<string>, k: nat)
    requires k < |aliases|
  {
    Usable(lower, models, entry, aliases[k]) && forall i :: 0 <= i < k ==> !Usable(lower, models, entry, aliases[i])
  }

  /** The first usable alias in order, if there is one. */
  lemma {:induction false} FirstUsableIs(lower: string -> string, models: seq<Entry>, entry: Entry, aliases: seq<string>)
    ensures var r := FirstUsable(lower, models, entry, aliases);
      && (r.Some? ==> exists k :: 0 <= k < |aliases| && aliases[k] == r.value && IsFirstUsable(lower, models, entry, aliases, k))
      && (r.None? ==> forall k :: 0 <= k < |aliases| ==> !Usable(lower, models, entry, aliases[k]))
    decreases |aliases|
  {
    hide Usable;
    if aliases != [] && Usable(lower, models, entry, aliases[0]) {
      assert IsFirstUsable(lower, models, entry, aliases, 0);
    } else if aliases != [] {
      var rest := aliases[1..];
      FirstUsableIs(lower, models, entry, rest);
      var r := FirstUsable(lower, models, entry, rest);
      if r.Some? {
        var k :| 0 <= k < |rest| && rest[k] == r.value && IsFirstUsable(lower, models, entry, rest, k);
        assert aliases[k + 1] == r.value;
        forall i | 0 <= i < k + 1 ensures !Usable(lower, models, entry, aliases[i]) {
          if i > 0 { assert aliases[i] == rest[i - 1]; }
        }
        assert IsFirstUsable(lower, models, entry, aliases, k + 1);
      } else {
        forall k | 0 <= k < |aliases| ensures !Usable(lower, models, entry, aliases[k]) {
          if k > 0 { assert aliases[k] == rest[k - 1]; }
        }
      }
    }
  }

  function QualifiedName(e: Entry): string { e.source + "/" + e.model }

  /** The selector printed for an entry of a catalog without repeats. */
  function Selector(lower: string -> string, models: seq<Entry>, entry: Entry): string {
    match FirstUsable(lower, models, entry, SortByLength(AliasValues(entry.model)))
    case Some(alias) => alias
    case None => QualifiedName(entry)
  }

  // ---- resolving ----

  datatype Resolution = Local | Endpoint(source: string, model: string) | Native(source: string, model: string)
    | Several | Unknown

  predicate IsLocal(lower: string -> string, selector: string) {
    lower(Trim(selector)) in {"local", "local/local"}
  }

  function AdapterOf(e: Entry): Resolution {
    if e.source in NATIVE_SOURCES then Native(e.source, e.model) else Endpoint(e.source, e.model)
  }

  function Unique(s: seq<Entry>): (r: seq<Entry>)
    ensures forall e :: e in r <==> e in s
    ensures forall i, j :: 0 <= i < j < |r| ==> r[i] != r[j]
  {
    if s == [] then []
    else
      var front, last := s[..|s| - 1], s[|s| - 1];
      assert forall e :: e in s <==> e in front || e == last;
      if last in Unique(front) then Unique(front) else Unique(front) + [last]
  }

  /** resolveModelSelection without model options, against discovered catalogs. */
  function Resolve(lower: string -> string, catalog: seq<Entry>, given: string): Resolution {
    var selector := Trim(given);
    if IsLocal(lower, selector) then Local
    else
      match Qualified(lower, selector)
      case Some(e) => AdapterOf(e)
      case None =>
        var native := NativeSource(lower(selector));
        var candidates := (if native.Some? then [Entry(native.value, selector)] else [])
          + Having(lower, catalog, lower(selector));
        var unique := Unique(candidates);
        if |unique| == 1 then AdapterOf(unique[0]) else if |unique| > 1 then Several else Unknown
  }

  /** What a selector without a source may mean: a native model by its prefix, or a discovered one by an alias. */
  ghost predicate IsCandidate(lower: string -> string, catalog: seq<Entry>, selector: string, e: Entry) {
    || (NativeSource(lower(selector)) == Some(e.source) && e.model == selector)
    || (e in catalog && HasAlias(lower, e.model, lower(selector)))
  }

  /** It resolves to its only meaning; with several it is refused, and with none it is unknown. */
  lemma ResolvesTo(lower: string -> string, catalog: seq<Entry>, given: string)
    requires !IsLocal(lower, Trim(given)) && Qualified(lower, Trim(given)).None?
    ensures var selector, r := Trim(given), Resolve(lower, catalog, given);
      && (forall e :: IsCandidate(lower, catalog, selector, e) && (forall d :: IsCandidate(lower, catalog, selector, d) ==> d == e) ==>
           r == if e.source in {"claude", "codex", "grok"} then Native(e.source, e.model) else Endpoint(e.source, e.model))
      && (r.Several? <==> exists d, e :: d != e && IsCandidate(lower, catalog, selector, d) && IsCandidate(lower, catalog, selector, e))
      && (r.Unknown? <==> forall e :: !IsCandidate(lower, catalog, selector, e))
  {
    var selector := Trim(given);
    hide Trim, Qualified, IsLocal, HasAlias, NativeSource, Having, Unique;
    var native := NativeSource(lower(selector));
    var having := Having(lower, catalog, lower(selector));
    var all := (if native.Some? then [Entry(native.value, selector)] else []) + having;
    var unique := Unique(all);
    forall e ensures e in unique <==> IsCandidate(lower, catalog, selector, e) {
      assert e in all <==> (native.Some? && e == Entry(native.value, selector)) || e in having;
    }
    if |unique| > 1 {
      assert unique[0] != unique[1] && unique[0] in unique && unique[1] in unique;
    } else if |unique| == 1 {
      assert unique == [unique[0]];
    }
  }

  /** A selector with a source resolves to that source's model of that name. */
  lemma QualifiedResolves(lower: string -> string, catalog: seq<Entry>, given: string, e: Entry)
    requires Qualified(lower, Trim(given)) == Some(e)
    ensures Resolve(lower, catalog, given) ==
      if IsLocal(lower, Trim(given)) then Local
      else if e.source in {"claude", "codex", "grok"} then Native(e.source, e.model) else Endpoint(e.source, e.model)
  {
    hide Trim, Qualified, IsLocal, HasAlias, NativeSource, Having, Unique;
  }

  // ---- the two undo each other ----

  /** Endpoint entries with whitespace-free ids, each once. */
  ghost predicate IsCatalog(models: seq<Entry>) {
    && (forall e :: e in models ==> e.source in ENDPOINT_SOURCES && NoSpace(e.model))
    && forall i, j :: 0 <= i < j < |models| ==> models[i] != models[j]
  }

  lemma AliasHasNoSpace(model: string, alias: string)
    requires NoSpace(model) && alias in AliasValues(model)
    ensures NoSpace(alias)
  {
    TrimNoSpace(model);
  }

  lemma SourcesHaveNoSlash(source: string)
    requires source in ENDPOINT_SOURCES
    ensures '/' !in source && NoSpace(source)
  {
    hide Trim, Qualified;
  }

  lemma SlashAt(s: string, n: nat)
    requires n < |s| && s[n] == '/' && forall k :: 0 <= k < n ==> s[k] != '/'
    ensures FirstSlash(s) == n
  {
  }

  /** source/model is read back as exactly that pair. */
  lemma QualifiedRoundTrip(lower: string -> string, e: Entry)
    requires KeepsSources(lower) && e.source in ENDPOINT_SOURCES && NoSpace(e.model)
    ensures NoSpace(QualifiedName(e)) && Qualified(lower, QualifiedName(e)) == Some(e)
  {
    hide Trim, FirstSlash, IsSpace;
    var q, n := QualifiedName(e), |e.source|;
    SourcesHaveNoSlash(e.source);
    SlashIsNoSpace();
    forall k | 0 <= k < n ensures q[k] != '/' { assert q[k] == e.source[k] && e.source[k] in e.source; }
    forall k | 0 <= k < |q| ensures !IsSpace(q[k]) {
      assert q[k] == if k < n then e.source[k] else if k == n then '/' else e.model[k - n - 1];
    }
    TrimNoSpace(q);
    assert q[n] == '/' && q[..n] == e.source && q[n + 1..] == e.model;
    SlashAt(q, n);
  }

  lemma SlashIsNoSpace()
    ensures !IsSpace('/')
  {
  }

  /** A printed bare selector: an alias of its entry that is usable. */
  lemma SelectorIs(lower: string -> string, models: seq<Entry>, entry: Entry)
    ensures var s := Selector(lower, models, entry);
      s == QualifiedName(entry) || (s in AliasValues(entry.model) && Usable(lower, models, entry, s))
  {
    hide Usable, AliasValues;
    FirstUsableIs(lower, models, entry, SortByLength(AliasValues(entry.model)));
  }

  /** The single catalog entry with an alias. */
  lemma OnlyHaving(lower: string -> string, models: seq<Entry>, entry: Entry, alias: string)
    requires entry in models && alias in AliasValues(entry.model) && |Having(lower, models, lower(alias))| == 1
    ensures Having(lower, models, lower(alias)) == [entry]
  {
    hide Having, AliasValues, NativeSource, Qualified;
    var having := Having(lower, models, lower(alias));
    assert HasAlias(lower, entry.model, lower(alias));
    assert entry in having;
    hide HasAlias;
    assert having == [having[0]];
  }

  lemma UniqueOne(e: Entry)
    ensures Unique([e]) == [e]
  {
    assert Unique([e][..0]) == [];
  }

  lemma BareResolves(lower: string -> string, models: seq<Entry>, entry: Entry, s: string)
    requires IsCatalog(models) && entry in models && s in AliasValues(entry.model) && Usable(lower, models, entry, s)
    ensures Resolve(lower, models, s) == (if IsLocal(lower, s) then Local else Endpoint(entry.source, entry.model))
  {
    hide Trim, Having, AliasValues, NativeSource, Unique, HasAlias, Qualified, NoSpace;
    AliasHasNoSpace(entry.model, s);
    TrimNoSpace(s);
    OnlyHaving(lower, models, entry, s);
    NativeIsNative(lower(s));
    UniqueOne(entry);
    assert [] + [entry] == [entry];
  }

  lemma NativeIsNative(id: string)
    ensures NativeSource(id).Some? ==> NativeSource(id).value in NATIVE_SOURCES
  {
  }

  /** A printed selector, and its qualified form, resolve to their entry exactly when they do not
      spell a name of the managed local model. */
  lemma SelectorResolves(lower: string -> string, models: seq<Entry>, entry: Entry)
    requires KeepsSources(lower) && IsCatalog(models) && entry in models
    ensures var s := Selector(lower, models, entry);
      Resolve(lower, models, s) == Endpoint(entry.source, entry.model) <==> lower(s) != "local" && lower(s) != "local/local"
    ensures var q := QualifiedName(entry);
      Resolve(lower, models, q) == Endpoint(entry.source, entry.model) <==> lower(q) != "local" && lower(q) != "local/local"
  {
    hide Trim, Having, Selector, Usable, NativeSource, Unique, Qualified, NoSpace;
    var s, q := Selector(lower, models, entry), QualifiedName(entry);
    QualifiedRoundTrip(lower, entry);
    TrimNoSpace(q);
    SelectorIs(lower, models, entry);
    if s != q {
      BareResolves(lower, models, entry, s);
      AliasHasNoSpace(entry.model, s);
      TrimNoSpace(s);
    }
  }

  lemma UsableIsBare(lower: string -> string, models: seq<Entry>, entry: Entry, alias: string)
    requires Usable(lower, models, entry, alias)
    ensures Qualified(lower, alias).None? && |Having(lower, models, lower(alias))| == 1
  {
  }

  /** Printed selectors of different entries are different. */
  lemma SelectorsAreDistinct(lower: string -> string, models: seq<Entry>, a: Entry, b: Entry)
    requires KeepsSources(lower) && IsCatalog(models) && a in models && b in models && a != b
    ensures Selector(lower, models, a) != Selector(lower, models, b)
  {
    hide Having, Selector, Usable, Qualified, NoSpace, QualifiedName, AliasValues;
    var s, t := Selector(lower, models, a), Selector(lower, models, b);
    QualifiedRoundTrip(lower, a);
    QualifiedRoundTrip(lower, b);
    SelectorIs(lower, models, a);
    SelectorIs(lower, models, b);
    if s != QualifiedName(a) {
      UsableIsBare(lower, models, a, s);
      if t == s && t != QualifiedName(b) {
        OnlyHaving(lower, models, a, s);
        OnlyHaving(lower, models, b, s);
      }
    } else if t != QualifiedName(b) {
      UsableIsBare(lower, models, b, t);
    }
  }

  /** A bare selector is the shortest usable alias; the source prefix appears only if none is usable. */
  lemma SelectorIsShortest(lower: string -> string, models: seq<Entry>, entry: Entry, alias: string)
    requires alias in AliasValues(entry.model) && Usable(lower, models, entry, alias)
    ensures |Selector(lower, models, entry)| <= |alias| && Selector(lower, models, entry) in AliasValues(entry.model)
  {
    hide Usable, AliasValues;
    var sorted := SortByLength(AliasValues(entry.model));
    FirstUsableIs(lower, models, entry, sorted);
    assert alias in sorted;
    hide SortByLength;
    var j :| 0 <= j < |sorted| && sorted[j] == alias;
    assert Usable(lower, models, entry, sorted[j]);
  }
}
