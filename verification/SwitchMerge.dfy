/** Merging caller switches into the managed list (src/chromium-args.ts, mergeChromiumArgs). */
module SwitchMerge {
  import opened Common
  import opened ChromiumArgs

  const ENABLE_FEATURES := "--enable-features"

  /** Switches dropped with a warning. */
  predicate IsDropped(name: string) {
    name == "--disable-software-rasterizer" || name == "--host-resolver-rules"
  }

  /** Where the first c is, or -1. */
  function IndexOf(s: string, c: char): (r: int)
    ensures -1 <= r < |s|
    ensures r == -1 <==> c !in s
    ensures 0 <= r ==> s[r] == c && forall k :: 0 <= k < r ==> s[k] != c
  {
    if s == "" then -1
    else if s[0] == c then 0
    else
      var r := IndexOf(s[1..], c);
      if r == -1 then -1 else r + 1
  }

  function SwitchName(arg: string): string {
    var equals := IndexOf(arg, '=');
    if equals == -1 then arg else arg[..equals]
  }

  function SwitchValue(arg: string): Option<string> {
    var equals := IndexOf(arg, '=');
    if equals == -1 then None else Some(arg[equals + 1..])
  }

  // ---- feature lists ----

  function Split(s: string): (r: seq<string>)
    ensures r != []
    decreases |s|
  {
    var comma := IndexOf(s, ',');
    if comma == -1 then [s] else [s[..comma]] + Split(s[comma + 1..])
  }

  function JoinComma(parts: seq<string>): string {
    if parts == [] then ""
    else if |parts| == 1 then parts[0]
    else parts[0] + "," + JoinComma(parts[1..])
  }

  /** Add each trimmed, non-empty, new name. */
  function AddNames(features: seq<string>, values: seq<string>): (r: seq<string>)
    decreases |values|
  {
    if values == [] then features
    else
      var before, name := AddNames(features, values[..|values| - 1]), Trim(values[|values| - 1]);
      if name != "" && name !in before then before + [name] else before
  }

  /** The comma-separated parts of a switch's value; a switch without one has the empty part only. */
  function Parts(arg: string): seq<string> {
    Split(match SwitchValue(arg) case None => "" case Some(v) => v)
  }

  /** The feature names of a switch, in order, without repeats. */
  function Features(arg: string): seq<string> {
    AddNames([], Parts(arg))
  }

  predicate IsName(s: string) {
    s != "" && ',' !in s && !IsSpace(s[0]) && !IsSpace(s[|s| - 1])
  }

  predicate AreNames(names: seq<string>) {
    && (forall n :: n in names ==> IsName(n))
    && (forall i, j :: 0 <= i < j < |names| ==> names[i] != names[j])
  }

  lemma NameIsTrimmed(s: string)
    requires IsName(s)
    ensures Trim(s) == s
  {
    assert TrimStart(s) == s;
  }

  lemma NameIsNotEmpty(s: string)
    requires IsName(s)
    ensures s != ""
  {
  }

  lemma {:induction false} SplitJoin(names: seq<string>)
    requires names != [] && forall n :: n in names ==> ',' !in n
    ensures Split(JoinComma(names)) == names
  {
    var first := names[0];
    assert first in names;
    if |names| == 1 {
      assert Split(first) == [first];
    } else {
      SplitJoin(names[1..]);
      var rest := JoinComma(names[1..]);
      hide Split, IndexOf;
      SplitFirst(first, rest);
      assert names == [first] + names[1..];
    }
  }

  lemma SplitFirst(first: string, rest: string)
    requires ',' !in first
    ensures Split(first + "," + rest) == [first] + Split(rest)
  {
    var s := first + "," + rest;
    assert s[|first|] == ',';
    FirstIndexOf(s, ',', |first|);
    assert s[..|first|] == first && s[|first| + 1..] == rest;
  }

  lemma FirstIndexOf(s: string, c: char, i: nat)
    requires i < |s| && s[i] == c && forall k :: 0 <= k < i ==> s[k] != c
    ensures IndexOf(s, c) == i
  {
    assert s[i] in s;
  }

  lemma {:induction false} AddOwnNames(names: seq<string>)
    requires AreNames(names)
    ensures AddNames([], names) == names
    decreases |names|
  {
    if names != [] {
      var front, last := names[..|names| - 1], names[|names| - 1];
      hide IsName, Trim;
      assert forall n :: n in front ==> n in names;
      AddOwnNames(front);
      assert last in names && last !in front;
      NameIsTrimmed(last);
      NameIsNotEmpty(last);
    }
  }

  lemma {:induction false} AddedAreNames(features: seq<string>, values: seq<string>)
    requires AreNames(features) && NoCommas(values)
    ensures AreNames(AddNames(features, values))
    decreases |values|
  {
    hide IsName, Trim;
    if values != [] {
      var front, last := values[..|values| - 1], values[|values| - 1];
      assert forall v :: v in front ==> v in values;
      AddedAreNames(features, front);
      assert last in values;
      TrimmedIsName(last);
      hide AreNames;
      if Trim(last) != "" && Trim(last) !in AddNames(features, front) { OneMoreName(AddNames(features, front), Trim(last)); }
    }
  }

  lemma OneMoreName(names: seq<string>, name: string)
    requires AreNames(names) && IsName(name) && name !in names
    ensures AreNames(names + [name])
  {
    hide IsName;
  }

  lemma TrimmedIsName(s: string)
    requires ',' !in s
    ensures Trim(s) == "" || IsName(Trim(s))
  {
    hide TrimStart, TrimEnd, IsSpace, AllSpace;
    var t := TrimStart(s);
    var r := TrimEnd(t);
    assert forall c :: c in r ==> c in t;
    assert forall c :: c in t ==> c in s;
    if r != "" { assert r[0] == t[0]; }
  }

  /** Split one step. */
  lemma SplitStep(s: string)
    ensures ',' !in s ==> Split(s) == [s]
    ensures ',' in s ==> var comma := IndexOf(s, ',');
      comma >= 0 && Split(s) == [s[..comma]] + Split(s[comma + 1..]) && ',' !in s[..comma]
  {
    hide IndexOf;
    if ',' in s { NotBefore(s, IndexOf(s, ',')); }
  }

  lemma NotBefore(s: string, i: nat)
    requires i <= |s| && forall k :: 0 <= k < i ==> s[k] != ','
    ensures ',' !in s[..i]
  {
  }

  ghost predicate NoCommas(parts: seq<string>) {
    forall p :: p in parts ==> ',' !in p
  }

  lemma NoCommasCons(first: string, rest: seq<string>)
    requires ',' !in first && NoCommas(rest)
    ensures NoCommas([first] + rest)
  {
  }

  lemma NoCommasOne(s: string)
    requires ',' !in s
    ensures NoCommas([s])
  {
  }

  lemma {:induction false} SplitHasNoComma(s: string)
    ensures NoCommas(Split(s))
    decreases |s|
  {
    hide Split, IndexOf, NoCommas;
    SplitStep(s);
    if ',' in s {
      var comma := IndexOf(s, ',');
      SplitHasNoComma(s[comma + 1..]);
      NoCommasCons(s[..comma], Split(s[comma + 1..]));
    } else {
      NoCommasOne(s);
    }
  }

  lemma {:induction false} AddConcat(features: seq<string>, a: seq<string>, b: seq<string>)
    ensures AddNames(features, a + b) == AddNames(AddNames(features, a), b)
    decreases |b|
  {
    if b == [] {
      assert a + b == a;
    } else {
      AddConcat(features, a, b[..|b| - 1]);
      assert (a + b)[..|a + b| - 1] == a + b[..|b| - 1];
    }
  }

  // ---- one composition of --enable-features ----

  function WithFeatures(names: seq<string>): string {
    ENABLE_FEATURES + "=" + JoinComma(names)
  }

  /** The entry prints the names, in order, each once and trimmed. */
  predicate Printed(entry: string, names: seq<string>) {
    AreNames(names) && entry == WithFeatures(names)
  }

  lemma FeaturesRoundTrip(names: seq<string>)
    requires AreNames(names)
    ensures SwitchName(WithFeatures(names)) == ENABLE_FEATURES && Features(WithFeatures(names)) == names
  {
    var arg := WithFeatures(names);
    FirstIndexOf(arg, '=', |ENABLE_FEATURES|);
    assert arg[..|ENABLE_FEATURES|] == ENABLE_FEATURES;
    assert arg[|ENABLE_FEATURES| + 1..] == JoinComma(names);
    if names == [] {
      assert Split("") == [""];
      assert Trim("") == "";
      assert AddNames([], [""]) == [];
    } else {
      SplitJoin(names);
      AddOwnNames(names);
    }
  }

  /** null when the incoming switch has no value. */
  method MergeEnabledFeatures(current: string, incoming: string) returns (r: Option<string>)
    ensures r.None? <==> SwitchValue(incoming).None?
    ensures r.Some? ==>
      SwitchName(r.value) == ENABLE_FEATURES && Features(r.value) == AddNames(Features(current), Parts(incoming))
    ensures r.Some? ==> Printed(r.value, AddNames(Features(current), Parts(incoming)))
  {
    var incomingValue := SwitchValue(incoming);
    if incomingValue.None? { return None; }
    var features := AddNames([], Parts(current));
    SplitHasNoComma(match SwitchValue(current) case None => "" case Some(v) => v);
    AddedAreNames([], Parts(current));
    features := AddNames(features, Parts(incoming));
    SplitHasNoComma(incomingValue.value);
    AddedAreNames(Features(current), Parts(incoming));
    FeaturesRoundTrip(features);
    return Some(WithFeatures(features));
  }

  // ---- the merge ----

  ghost predicate HasName(args: seq<string>, name: string) {
    exists i :: 0 <= i < |args| && SwitchName(args[i]) == name
  }

  /** The name is managed, or an earlier caller switch of that name was kept. */
  ghost predicate Taken(managed: seq<string>, earlier: seq<string>, name: string) {
    HasName(managed, name) || (HasName(earlier, name) && !IsDropped(name))
  }

  datatype Fate = Placed | Folded | Ignored

  /** What becomes of a caller switch that comes after the switches `earlier`. */
  ghost function FateOf(managed: seq<string>, earlier: seq<string>, arg: string): Fate {
    var name := SwitchName(arg);
    if name == ENABLE_FEATURES && Taken(managed, earlier, name) && SwitchValue(arg).Some? then Folded
    else if IsDropped(name) || Taken(managed, earlier, name) then Ignored
    else Placed
  }

  /** A caller switch is placed exactly if its name is new and not one of the two that are dropped; one
      without a value is never folded. */
  lemma PlacedIff(managed: seq<string>, earlier: seq<string>, arg: string)
    ensures FateOf(managed, earlier, arg).Placed? <==>
      (SwitchName(arg) !in {"--disable-software-rasterizer", "--host-resolver-rules"}
       && !HasName(managed, SwitchName(arg)) && !HasName(earlier, SwitchName(arg)))
    ensures FateOf(managed, earlier, arg).Folded? <==>
      ("--enable-features=" <= arg
       && (HasName(managed, "--enable-features") || HasName(earlier, "--enable-features")))
  {
    var dropped := {"--disable-software-rasterizer", "--host-resolver-rules"};
    FeatureSwitch(arg);
    hide SwitchName, SwitchValue, HasName;
    assert ENABLE_FEATURES !in dropped;
  }

  lemma FeatureSwitch(arg: string)
    ensures SwitchName(arg) == ENABLE_FEATURES && SwitchValue(arg).Some? <==> "--enable-features=" <= arg
  {
    if "--enable-features=" <= arg {
      FirstIndexOf(arg, '=', |ENABLE_FEATURES|);
      assert arg[..|ENABLE_FEATURES|] == ENABLE_FEATURES;
    }
  }

  /** The placed caller switches, in caller order. */
  ghost function PlacedArgs(managed: seq<string>, extra: seq<string>): seq<string> {
    if extra == [] then []
    else
      var earlier, last := extra[..|extra| - 1], extra[|extra| - 1];
      PlacedArgs(managed, earlier) + if FateOf(managed, earlier, last).Placed? then [last] else []
  }

  /** The names of the ignored caller switches, each once, in the order of their first refusal. */
  ghost function IgnoredNames(managed: seq<string>, extra: seq<string>): seq<string> {
    if extra == [] then []
    else
      var earlier, last := extra[..|extra| - 1], extra[|extra| - 1];
      var before, name := IgnoredNames(managed, earlier), SwitchName(last);
      if FateOf(managed, earlier, last).Ignored? && name !in before then before + [name] else before
  }

  /** All parts of all --enable-features switches of a list, in order. */
  ghost function FeatureParts(args: seq<string>): seq<string> {
    if args == [] then []
    else
      var last := args[|args| - 1];
      FeatureParts(args[..|args| - 1]) + if SwitchName(last) == ENABLE_FEATURES then Parts(last) else []
  }

  /** The parts of the folded caller switches, in order; a folded switch has at least one. */
  ghost function FoldedParts(managed: seq<string>, extra: seq<string>): seq<string> {
    if extra == [] then []
    else
      var earlier, last := extra[..|extra| - 1], extra[|extra| - 1];
      FoldedParts(managed, earlier) + if FateOf(managed, earlier, last).Folded? then Parts(last) else []
  }

  ghost predicate FirstFeatures(args: seq<string>, k: nat)
    requires k < |args|
  {
    SwitchName(args[k]) == ENABLE_FEATURES && forall i :: 0 <= i < k ==> SwitchName(args[i]) != ENABLE_FEATURES
  }

  /** args is raw, except that what was folded has made the first --enable-features entry the
      list of its own features and the folded ones, each once. */
  ghost predicate Composed(args: seq<string>, raw: seq<string>, folded: seq<string>) {
    && |args| == |raw|
    && forall k: nat :: k < |raw| ==>
         if folded != [] && FirstFeatures(raw, k) then Printed(args[k], AddNames(Features(raw[k]), folded))
         else args[k] == raw[k]
  }

  ghost predicate DistinctNames(args: seq<string>) {
    forall i, j :: 0 <= i < j < |args| ==> SwitchName(args[i]) != SwitchName(args[j])
  }

  /** args lists the managed and the placed switches; only the --enable-features entry may differ. */
  ghost predicate SameSwitches(args: seq<string>, raw: seq<string>) {
    && |args| == |raw|
    && forall k :: 0 <= k < |raw| ==>
         SwitchName(args[k]) == SwitchName(raw[k]) && (SwitchName(raw[k]) == ENABLE_FEATURES || args[k] == raw[k])
  }

  /** Every --enable-features entry of args enables the given feature names. */
  ghost predicate Enables(args: seq<string>, names: seq<string>) {
    forall k :: 0 <= k < |args| && SwitchName(args[k]) == ENABLE_FEATURES ==> Features(args[k]) == names
  }

  /** Every --enable-features entry of args prints the given names. */
  ghost predicate Prints(args: seq<string>, names: seq<string>) {
    forall k :: 0 <= k < |args| && SwitchName(args[k]) == ENABLE_FEATURES ==> Printed(args[k], names)
  }

  /** The --enable-features entry carries all features of the managed and the caller switches; once
      something was folded into it, it prints exactly their list. */
  ghost predicate CarriesAll(managed: seq<string>, extra: seq<string>, args: seq<string>) {
    var names := AddNames([], FeatureParts(managed) + FeatureParts(extra));
    Enables(args, names) && (FoldedParts(managed, extra) != [] ==> Prints(args, names))
  }

  lemma {:induction false} PlacedNames(managed: seq<string>, extra: seq<string>, name: string)
    ensures HasName(managed + PlacedArgs(managed, extra), name) <==> Taken(managed, extra, name)
    decreases |extra|
  {
    hide SwitchName, IsDropped;
    var raw := managed + PlacedArgs(managed, extra);
    if extra == [] {
      assert raw == managed;
    } else {
      var earlier, last := extra[..|extra| - 1], extra[|extra| - 1];
      PlacedNames(managed, earlier, name);
      PlacedNames(managed, earlier, SwitchName(last));
      HasNameAppend(earlier, last, name);
      assert extra == earlier + [last];
      assert Taken(managed, extra, name) <==>
        Taken(managed, earlier, name) || (SwitchName(last) == name && !IsDropped(name));
      if FateOf(managed, earlier, last).Placed? {
        assert raw == managed + PlacedArgs(managed, earlier) + [last];
        HasNameAppend(managed + PlacedArgs(managed, earlier), last, name);
      } else {
        assert raw == managed + PlacedArgs(managed, earlier);
      }
    }
  }

  lemma HasNameAppend(args: seq<string>, last: string, name: string)
    ensures HasName(args + [last], name) <==> HasName(args, name) || SwitchName(last) == name
  {
    var all := args + [last];
    assert all[|args|] == last;
    if i :| 0 <= i < |args| && SwitchName(args[i]) == name { assert all[i] == args[i]; }
  }

  lemma {:induction false} PlacedAreDistinct(managed: seq<string>, extra: seq<string>)
    requires DistinctNames(managed)
    ensures DistinctNames(managed + PlacedArgs(managed, extra))
    decreases |extra|
  {
    hide SwitchName, IsDropped;
    if extra == [] {
      assert managed + PlacedArgs(managed, extra) == managed;
    } else {
      var earlier, last := extra[..|extra| - 1], extra[|extra| - 1];
      PlacedAreDistinct(managed, earlier);
      PlacedNames(managed, earlier, SwitchName(last));
      var raw := managed + PlacedArgs(managed, earlier);
      assert managed + PlacedArgs(managed, extra)
        == if FateOf(managed, earlier, last).Placed? then raw + [last] else raw;
    }
  }

  /** The first argument with a switch name. */
  method FindName(args: seq<string>, name: string) returns (index: nat)
    requires HasName(args, name)
    ensures index < |args| && SwitchName(args[index]) == name && forall i :: 0 <= i < index ==> SwitchName(args[i]) != name
  {
    index := 0;
    while SwitchName(args[index]) != name
      invariant index < |args| && forall i :: 0 <= i < index ==> SwitchName(args[i]) != name
      decreases |args| - index
    {
      index := index + 1;
    }
  }

  lemma {:induction false} NoFeatureParts(args: seq<string>)
    requires !HasName(args, ENABLE_FEATURES)
    ensures FeatureParts(args) == []
    decreases |args|
  {
    hide SwitchName, Parts;
    if args != [] {
      var front, last := args[..|args| - 1], args[|args| - 1];
      assert args == front + [last];
      HasNameAppend(front, last, ENABLE_FEATURES);
      NoFeatureParts(front);
    }
  }

  lemma {:induction false} OneFeatureSwitch(args: seq<string>, k: nat)
    requires DistinctNames(args) && k < |args| && SwitchName(args[k]) == ENABLE_FEATURES
    ensures FeatureParts(args) == Parts(args[k])
    decreases |args|
  {
    hide SwitchName, Parts;
    var front := args[..|args| - 1];
    if k < |args| - 1 {
      OneFeatureSwitch(front, k);
      assert SwitchName(args[k]) != SwitchName(args[|args| - 1]);
    } else {
      assert forall i :: 0 <= i < k ==> SwitchName(args[i]) != SwitchName(args[k]);
      NoFeatureParts(front);
    }
  }

  /** State of the merge after the caller switches `extra`. */
  ghost predicate Merged(managed: seq<string>, extra: seq<string>,
                         args: seq<string>, ignored: seq<string>, taken: set<string>)
  {
    && SameSwitches(args, managed + PlacedArgs(managed, extra))
    && Composed(args, managed + PlacedArgs(managed, extra), FoldedParts(managed, extra))
    && ignored == IgnoredNames(managed, extra)
    && (forall n :: n in taken <==> Taken(managed, extra, n))
    && (DistinctNames(managed) ==> Enables(args, AddNames([], FeatureParts(managed) + FeatureParts(extra))))
  }

  lemma MergeStart(managed: seq<string>, taken: set<string>)
    requires taken == set i | 0 <= i < |managed| :: SwitchName(managed[i])
    ensures Merged(managed, [], managed, [], taken)
  {
    hide SwitchName, Parts, Features, AddNames;
    assert managed + PlacedArgs(managed, []) == managed;
    assert FeatureParts(managed) + FeatureParts([]) == FeatureParts(managed);
    if DistinctNames(managed) {
      forall k | 0 <= k < |managed| && SwitchName(managed[k]) == ENABLE_FEATURES
        ensures Features(managed[k]) == AddNames([], FeatureParts(managed))
      {
        OneFeatureSwitch(managed, k);
        FeaturesAre(managed[k]);
      }
    }
  }

  lemma FeaturesAre(arg: string)
    ensures Features(arg) == AddNames([], Parts(arg))
  {
  }

  lemma AddNothing(names: seq<string>, arg: string)
    requires SwitchValue(arg).None?
    ensures AddNames(names, Parts(arg)) == names
  {
    assert Parts(arg) == [""] && Trim("") == "";
    assert AddNames(names, [""][..0]) == names;
  }

  /** The feature parts after one more caller switch. */
  lemma PartsStep(managed: seq<string>, extra: seq<string>, arg: string)
    ensures FeatureParts(managed) + FeatureParts(extra + [arg])
      == if SwitchName(arg) == ENABLE_FEATURES then FeatureParts(managed) + FeatureParts(extra) + Parts(arg)
         else FeatureParts(managed) + FeatureParts(extra)
  {
    hide Parts, SwitchName;
    assert (extra + [arg])[..|extra|] == extra;
    assert FeatureParts(managed) + (FeatureParts(extra) + Parts(arg)) == FeatureParts(managed) + FeatureParts(extra) + Parts(arg);
    assert FeatureParts(extra) + [] == FeatureParts(extra);
  }

  lemma FoldPlacesNothing(managed: seq<string>, extra: seq<string>, arg: string)
    requires FateOf(managed, extra, arg) == Folded
    ensures PlacedArgs(managed, extra + [arg]) == PlacedArgs(managed, extra)
    ensures IgnoredNames(managed, extra + [arg]) == IgnoredNames(managed, extra)
  {
    hide SwitchName, SwitchValue, FateOf;
    assert (extra + [arg])[..|extra|] == extra;
  }

  lemma {:induction false} NoneFolded(managed: seq<string>, extra: seq<string>)
    requires !Taken(managed, extra, ENABLE_FEATURES)
    ensures FoldedParts(managed, extra) == []
    decreases |extra|
  {
    hide SwitchName, SwitchValue, Parts, IsDropped;
    if extra != [] {
      var earlier, last := extra[..|extra| - 1], extra[|extra| - 1];
      assert extra == earlier + [last];
      HasNameAppend(earlier, last, ENABLE_FEATURES);
      NoneFolded(managed, earlier);
    }
  }

  lemma FoldedStep(managed: seq<string>, extra: seq<string>, arg: string)
    ensures FoldedParts(managed, extra + [arg])
      == FoldedParts(managed, extra) + if FateOf(managed, extra, arg).Folded? then Parts(arg) else []
  {
    hide Parts, FateOf;
    assert (extra + [arg])[..|extra|] == extra;
  }

  lemma PartsNotEmpty(arg: string)
    ensures Parts(arg) != []
  {
  }

  /** Folding into the first entry keeps the list composed. */
  lemma FoldComposes(args: seq<string>, raw: seq<string>, folded: seq<string>, arg: string, index: nat, merged: string)
    requires SameSwitches(args, raw) && Composed(args, raw, folded) && index < |args| && FirstFeatures(args, index)
    requires Printed(merged, AddNames(Features(args[index]), Parts(arg)))
    ensures Composed(args[index := merged], raw, folded + Parts(arg))
  {
    PartsNotEmpty(arg);
    hide SwitchName, Parts, Features, AddNames, AreNames, WithFeatures;
    assert FirstFeatures(raw, index);
    if folded == [] {
      assert folded + Parts(arg) == Parts(arg);
    } else {
      FeaturesRoundTrip(AddNames(Features(raw[index]), folded));
      AddConcat(Features(raw[index]), folded, Parts(arg));
    }
  }

  lemma PlaceComposes(args: seq<string>, raw: seq<string>, folded: seq<string>, arg: string)
    requires Composed(args, raw, folded) && (SwitchName(arg) == ENABLE_FEATURES ==> folded == [])
    ensures Composed(args + [arg], raw + [arg], folded)
  {
    hide SwitchName, Features, AddNames, AreNames, WithFeatures;
    forall k: nat | k < |raw| ensures FirstFeatures(raw + [arg], k) <==> FirstFeatures(raw, k) {
      assert forall i :: 0 <= i <= k ==> (raw + [arg])[i] == raw[i];
    }
  }

  lemma FoldEnables(managed: seq<string>, extra: seq<string>, arg: string, args: seq<string>, index: nat, merged: string)
    requires DistinctNames(managed) && SwitchName(arg) == ENABLE_FEATURES
    requires SameSwitches(args, managed + PlacedArgs(managed, extra))
    requires Enables(args, AddNames([], FeatureParts(managed) + FeatureParts(extra)))
    requires index < |args| && SwitchName(args[index]) == ENABLE_FEATURES && SwitchName(merged) == ENABLE_FEATURES
    requires Features(merged) == AddNames(Features(args[index]), Parts(arg))
    ensures Enables(args[index := merged], AddNames([], FeatureParts(managed) + FeatureParts(extra + [arg])))
  {
    hide SwitchName, Parts, Features, AddNames, PlacedArgs, FeatureParts;
    PartsStep(managed, extra, arg);
    AddConcat([], FeatureParts(managed) + FeatureParts(extra), Parts(arg));
    PlacedAreDistinct(managed, extra);
    forall k | 0 <= k < |args| && k != index ensures SwitchName(args[k]) != ENABLE_FEATURES {
      var raw := managed + PlacedArgs(managed, extra);
      assert SwitchName(args[k]) == SwitchName(raw[k]) && SwitchName(args[index]) == SwitchName(raw[index]);
    }
  }

  /** A switch that is not placed takes no name. */
  lemma NothingTaken(managed: seq<string>, extra: seq<string>, arg: string)
    requires !FateOf(managed, extra, arg).Placed?
    ensures forall n :: Taken(managed, extra + [arg], n) <==> Taken(managed, extra, n)
  {
    hide SwitchName, SwitchValue;
    forall n ensures Taken(managed, extra + [arg], n) <==> Taken(managed, extra, n) {
      HasNameAppend(extra, arg, n);
    }
  }

  lemma FoldedSame(args: seq<string>, raw: seq<string>, index: nat, merged: string)
    requires SameSwitches(args, raw) && index < |args|
    requires SwitchName(args[index]) == ENABLE_FEATURES && SwitchName(merged) == ENABLE_FEATURES
    ensures SameSwitches(args[index := merged], raw)
  {
    hide SwitchName;
  }

  lemma FirstHasName(args: seq<string>, index: nat)
    requires index < |args| && FirstFeatures(args, index)
    ensures SwitchName(args[index]) == ENABLE_FEATURES
  {
  }

  lemma FoldStep(managed: seq<string>, extra: seq<string>, arg: string,
                 args: seq<string>, ignored: seq<string>, taken: set<string>, index: nat, merged: string)
    requires Merged(managed, extra, args, ignored, taken)
    requires SwitchName(arg) == ENABLE_FEATURES && SwitchName(arg) in taken && SwitchValue(arg).Some?
    requires index < |args| && FirstFeatures(args, index) && SwitchName(merged) == ENABLE_FEATURES
    requires Features(merged) == AddNames(Features(args[index]), Parts(arg))
    requires Printed(merged, AddNames(Features(args[index]), Parts(arg)))
    ensures Merged(managed, extra + [arg], args[index := merged], ignored, taken)
  {
    hide SwitchName, Parts, Features, AddNames, SwitchValue, PlacedArgs, IgnoredNames, FeatureParts, Enables,
      Composed, FoldedParts, AreNames, WithFeatures, DistinctNames;
    assert FateOf(managed, extra, arg) == Folded;
    FoldedStep(managed, extra, arg);
    FoldPlacesNothing(managed, extra, arg);
    NothingTaken(managed, extra, arg);
    hide Taken, FateOf, FirstFeatures;
    FoldComposes(args, managed + PlacedArgs(managed, extra), FoldedParts(managed, extra), arg, index, merged);
    FirstHasName(args, index);
    FoldedSame(args, managed + PlacedArgs(managed, extra), index, merged);
    if DistinctNames(managed) {
      FoldEnables(managed, extra, arg, args, index, merged);
    }
  }

  lemma IgnoreStep(managed: seq<string>, extra: seq<string>, arg: string,
                   args: seq<string>, ignored: seq<string>, taken: set<string>)
    requires Merged(managed, extra, args, ignored, taken)
    requires FateOf(managed, extra, arg) == Ignored
    ensures Merged(managed, extra + [arg], args,
      if SwitchName(arg) in ignored then ignored else ignored + [SwitchName(arg)], taken)
  {
    hide SwitchName, Parts, Features, AddNames, SwitchValue, Composed, FoldedParts;
    var all := extra + [arg];
    assert all[..|extra|] == extra;
    NothingTaken(managed, extra, arg);
    assert PlacedArgs(managed, all) == PlacedArgs(managed, extra);
    FoldedStep(managed, extra, arg);
    assert FoldedParts(managed, extra) + [] == FoldedParts(managed, extra);
    PartsStep(managed, extra, arg);
    if SwitchName(arg) == ENABLE_FEATURES {
      AddConcat([], FeatureParts(managed) + FeatureParts(extra), Parts(arg));
      AddNothing(AddNames([], FeatureParts(managed) + FeatureParts(extra)), arg);
    }
  }

  lemma PlaceTakes(managed: seq<string>, extra: seq<string>, arg: string)
    requires FateOf(managed, extra, arg).Placed?
    ensures forall n :: Taken(managed, extra + [arg], n) <==> Taken(managed, extra, n) || n == SwitchName(arg)
  {
    hide SwitchName, SwitchValue;
    forall n ensures Taken(managed, extra + [arg], n) <==> Taken(managed, extra, n) || n == SwitchName(arg) {
      HasNameAppend(extra, arg, n);
    }
  }

  lemma PlacesOne(managed: seq<string>, extra: seq<string>, arg: string)
    requires FateOf(managed, extra, arg) == Placed
    ensures managed + PlacedArgs(managed, extra + [arg]) == managed + PlacedArgs(managed, extra) + [arg]
    ensures IgnoredNames(managed, extra + [arg]) == IgnoredNames(managed, extra)
  {
    hide SwitchName, FateOf;
    assert (extra + [arg])[..|extra|] == extra;
  }

  lemma PlacedSame(args: seq<string>, raw: seq<string>, arg: string)
    requires SameSwitches(args, raw)
    ensures SameSwitches(args + [arg], raw + [arg])
  {
    hide SwitchName;
  }

  lemma PlaceStep(managed: seq<string>, extra: seq<string>, arg: string,
                  args: seq<string>, ignored: seq<string>, taken: set<string>)
    requires Merged(managed, extra, args, ignored, taken)
    requires FateOf(managed, extra, arg) == Placed
    ensures Merged(managed, extra + [arg], args + [arg], ignored, taken + {SwitchName(arg)})
  {
    hide SwitchName, Parts, Features, AddNames, SwitchValue, Enables, FeatureParts, Composed, FoldedParts, PlacedArgs,
      IgnoredNames, DistinctNames;
    if SwitchName(arg) == ENABLE_FEATURES { NoneFolded(managed, extra); }
    PlaceTakes(managed, extra, arg);
    FoldedStep(managed, extra, arg);
    assert FoldedParts(managed, extra) + [] == FoldedParts(managed, extra);
    PlacesOne(managed, extra, arg);
    PlacedSame(args, managed + PlacedArgs(managed, extra), arg);
    hide Taken, FateOf;
    PlaceComposes(args, managed + PlacedArgs(managed, extra), FoldedParts(managed, extra), arg);
    if DistinctNames(managed) {
      PlaceFeatures(managed, extra, arg, args);
    }
  }

  lemma PlaceFeatures(managed: seq<string>, extra: seq<string>, arg: string, args: seq<string>)
    requires SameSwitches(args, managed + PlacedArgs(managed, extra))
    requires Enables(args, AddNames([], FeatureParts(managed) + FeatureParts(extra)))
    requires FateOf(managed, extra, arg) == Placed
    ensures Enables(args + [arg], AddNames([], FeatureParts(managed) + FeatureParts(extra + [arg])))
  {
    hide SwitchName, Parts, Features, AddNames, SwitchValue, FeatureParts, PlacedArgs;
    PartsStep(managed, extra, arg);
    if SwitchName(arg) == ENABLE_FEATURES {
      assert !Taken(managed, extra, ENABLE_FEATURES) && !IsDropped(ENABLE_FEATURES);
      NoFeatureParts(managed);
      NoFeatureParts(extra);
      assert [] + [] + Parts(arg) == Parts(arg);
      FeaturesAre(arg);
      PlacedNames(managed, extra, ENABLE_FEATURES);
      var raw := managed + PlacedArgs(managed, extra);
      forall k | 0 <= k < |args| ensures SwitchName(args[k]) != ENABLE_FEATURES {
        assert SwitchName(args[k]) == SwitchName(raw[k]);
      }
    }
  }

  lemma TakenIsListed(managed: seq<string>, extra: seq<string>,
                      args: seq<string>, ignored: seq<string>, taken: set<string>, name: string)
    requires Merged(managed, extra, args, ignored, taken) && name in taken
    ensures HasName(args, name)
  {
    var raw := managed + PlacedArgs(managed, extra);
    PlacedNames(managed, extra, name);
    var i :| 0 <= i < |raw| && SwitchName(raw[i]) == name;
    assert SwitchName(args[i]) == name;
  }

  /** Managed switches first, then the callers' that do not collide; the switches that
      compose are folded and every other collision is reported. */
  method MergeChromiumArgs(managed: seq<string>, extra: seq<string>)
    returns (args: seq<string>, ignored: seq<string>)
    ensures SameSwitches(args, managed + PlacedArgs(managed, extra))
    ensures ignored == IgnoredNames(managed, extra)
    ensures Composed(args, managed + PlacedArgs(managed, extra), FoldedParts(managed, extra))
    ensures DistinctNames(managed) ==> CarriesAll(managed, extra, args)
  {
    args, ignored := managed, [];
    var taken := set i | 0 <= i < |managed| :: SwitchName(managed[i]);
    MergeStart(managed, taken);
    for i := 0 to |extra|
      invariant Merged(managed, extra[..i], args, ignored, taken)
    {
      hide Merged, SwitchName, SwitchValue, Features, AddNames, Parts;
      ghost var earlier := extra[..i];
      var arg := extra[i];
      var name := SwitchName(arg);
      assert extra[..i + 1] == earlier + [arg];
      TakenAgrees(managed, earlier, args, ignored, taken, name);
      if name == ENABLE_FEATURES && name in taken {
        TakenIsListed(managed, earlier, args, ignored, taken, name);
        var index := FindName(args, name);
        var merged := MergeEnabledFeatures(args[index], arg);
        if merged.Some? {
          FoldStep(managed, earlier, arg, args, ignored, taken, index, merged.value);
          args := args[index := merged.value];
          continue;
        }
      }
      if IsDropped(name) || name in taken {
        IgnoreStep(managed, earlier, arg, args, ignored, taken);
        if name !in ignored { ignored := ignored + [name]; }
        continue;
      }
      PlaceStep(managed, earlier, arg, args, ignored, taken);
      taken := taken + {name};
      args := args + [arg];
    }
    assert extra[..|extra|] == extra;
    hide Features, AddNames, SwitchName, Parts;
    if DistinctNames(managed) && FoldedParts(managed, extra) != [] {
      FoldedPrints(managed, extra, args);
    }
  }

  /** With distinct names the only --enable-features entry into which something was folded prints
      all features, managed and caller, each once. */
  lemma FoldedPrints(managed: seq<string>, extra: seq<string>, args: seq<string>)
    requires DistinctNames(managed) && FoldedParts(managed, extra) != []
    requires SameSwitches(args, managed + PlacedArgs(managed, extra))
    requires Composed(args, managed + PlacedArgs(managed, extra), FoldedParts(managed, extra))
    requires Enables(args, AddNames([], FeatureParts(managed) + FeatureParts(extra)))
    ensures Prints(args, AddNames([], FeatureParts(managed) + FeatureParts(extra)))
  {
    hide Features, AddNames, SwitchName, FeatureParts, FoldedParts, PlacedArgs, AreNames, WithFeatures;
    var raw, folded := managed + PlacedArgs(managed, extra), FoldedParts(managed, extra);
    PlacedAreDistinct(managed, extra);
    forall k: nat | k < |args| && SwitchName(args[k]) == ENABLE_FEATURES
      ensures Printed(args[k], AddNames([], FeatureParts(managed) + FeatureParts(extra)))
    {
      assert SwitchName(raw[k]) == ENABLE_FEATURES;
      assert FirstFeatures(raw, k);
      FeaturesRoundTrip(AddNames(Features(raw[k]), folded));
    }
  }

  lemma TakenAgrees(managed: seq<string>, extra: seq<string>,
                    args: seq<string>, ignored: seq<string>, taken: set<string>, name: string)
    requires Merged(managed, extra, args, ignored, taken)
    ensures name in taken <==> Taken(managed, extra, name)
  {
  }

  // ---- reading the merged list ----

  /** A repeated switch is won by its last occurrence. */
  ghost function Wins(args: seq<string>, name: string): Option<string> {
    if args == [] then None
    else if SwitchName(args[|args| - 1]) == name then Some(args[|args| - 1])
    else Wins(args[..|args| - 1], name)
  }

  lemma {:induction false} OnlyOneWins(args: seq<string>, k: nat)
    requires DistinctNames(args) && k < |args|
    ensures Wins(args, SwitchName(args[k])) == Some(args[k])
    decreases |args|
  {
    hide SwitchName;
    if k < |args| - 1 { OnlyOneWins(args[..|args| - 1], k); }
  }

  /** With distinct managed names the merged names are distinct, every managed switch but
      --enable-features wins, and so does the first occurrence of every placed caller switch. */
  lemma ManagedSwitchesWin(managed: seq<string>, extra: seq<string>, args: seq<string>, k: nat)
    requires DistinctNames(managed) && SameSwitches(args, managed + PlacedArgs(managed, extra))
    requires k < |args|
    ensures DistinctNames(args)
    ensures Wins(args, SwitchName(args[k])) == Some(args[k])
    ensures SwitchName(args[k]) != ENABLE_FEATURES ==>
      args[k] == if k < |managed| then managed[k] else PlacedArgs(managed, extra)[k - |managed|]
  {
    hide SwitchName;
    var raw := managed + PlacedArgs(managed, extra);
    PlacedAreDistinct(managed, extra);
    forall i, j | 0 <= i < j < |args| ensures SwitchName(args[i]) != SwitchName(args[j]) {
      assert SwitchName(args[i]) == SwitchName(raw[i]) && SwitchName(args[j]) == SwitchName(raw[j]);
    }
    OnlyOneWins(args, k);
  }

  /** Each caller switch is placed, folded into the entry of its name, or named among the ignored;
      a placed one is the first of its name. */
  lemma {:induction false} EveryCallerSwitchIsAccountedFor(managed: seq<string>, extra: seq<string>, j: nat)
    requires j < |extra|
    ensures match FateOf(managed, extra[..j], extra[j])
      case Placed => extra[j] in PlacedArgs(managed, extra) && !HasName(extra[..j], SwitchName(extra[j]))
      case Folded => HasName(managed + PlacedArgs(managed, extra), ENABLE_FEATURES)
      case Ignored => SwitchName(extra[j]) in IgnoredNames(managed, extra)
    decreases |extra|
  {
    hide SwitchName, SwitchValue;
    var earlier := extra[..|extra| - 1];
    if j < |extra| - 1 {
      EveryCallerSwitchIsAccountedFor(managed, earlier, j);
      assert earlier[..j] == extra[..j];
      PlacedNames(managed, extra, ENABLE_FEATURES);
      PlacedNames(managed, earlier, ENABLE_FEATURES);
      HasNameAppend(earlier, extra[|extra| - 1], ENABLE_FEATURES);
      assert extra == earlier + [extra[|extra| - 1]];
    } else {
      assert extra[..j] == earlier;
      PlacedNames(managed, extra, ENABLE_FEATURES);
      HasNameAppend(earlier, extra[j], ENABLE_FEATURES);
      assert extra == earlier + [extra[j]];
    }
  }

  lemma {:induction false} AddedIn(a: seq<string>, b: seq<string>, n: string)
    ensures AddNames([], a) <= AddNames([], a + b)
    ensures n in AddNames([], a + b) <==> n in AddNames([], a) || n in AddNames([], b)
    decreases |b|
  {
    hide Trim;
    if b == [] {
      assert a + b == a;
    } else {
      var front, last := b[..|b| - 1], b[|b| - 1];
      AddedIn(a, front, n);
      AddedIn(a, front, Trim(last));
      hide AddNames;
      AddNamesStep([], a + front, last);
      AddNamesStep([], front, last);
      assert a + b == a + front + [last] && b == front + [last];
    }
  }

  /** The composed list starts with the managed features, in their order. */
  lemma ManagedFeaturesComeFirst(a: seq<string>, b: seq<string>)
    ensures AddNames([], a) <= AddNames([], a + b)
    ensures forall n :: n in AddNames([], a + b) <==> n in AddNames([], a) || n in AddNames([], b)
  {
    AddedIn(a, b, "");
    forall n ensures n in AddNames([], a + b) <==> n in AddNames([], a) || n in AddNames([], b) {
      AddedIn(a, b, n);
    }
  }

  lemma AddNamesStep(features: seq<string>, values: seq<string>, last: string)
    ensures var before, name := AddNames(features, values), Trim(last);
      AddNames(features, values + [last]) == if name != "" && name !in before then before + [name] else before
  {
    assert (values + [last])[..|values|] == values;
  }
}
