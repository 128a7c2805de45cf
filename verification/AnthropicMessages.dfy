/** The request form of a transcript (src/agent.ts, anthropicMessages): each message is mapped to
    content blocks and neighbours of one role are coalesced. */
module AnthropicMessages {
  import opened Transcript

  datatype Role = UserRole | AssistantRole
  datatype Block =
    | TextBlock(text: string)
    | ToolUse(id: string, name: string, input: string)
    | ToolResultBlock(toolUseId: string, content: string)
  datatype Turn = Turn(role: Role, content: seq<Block>)

  function ResultBlocks(results: seq<ToolResult>): seq<Block> {
    seq(|results|, i requires 0 <= i < |results| => ToolResultBlock(results[i].id, results[i].content))
  }

  function UseBlocks(calls: seq<Call>): seq<Block> {
    seq(|calls|, i requires 0 <= i < |calls| => ToolUse(calls[i].id, calls[i].name, calls[i].input))
  }

  function Mapped(m: Message): Turn {
    match m
    case User(text) => Turn(UserRole, [TextBlock(text)])
    case Tool(results) => Turn(UserRole, ResultBlocks(results))
    case Assistant(text, calls) => Turn(AssistantRole, (if text != "" then [TextBlock(text)] else []) + UseBlocks(calls))
  }

  // ---- what a request must look like ----

  ghost predicate Alternates(turns: seq<Turn>) {
    forall i :: 0 <= i < |turns| - 1 ==> turns[i].role != turns[i + 1].role
  }

  /** Ids of the tool uses of a turn, in order. */
  function Uses(content: seq<Block>): seq<string> {
    if content == [] then []
    else
      var last := content[|content| - 1];
      Uses(content[..|content| - 1]) + if last.ToolUse? then [last.id] else []
  }

  /** The content starts with the results for exactly these ids, in order. */
  ghost predicate StartsWithResults(content: seq<Block>, ids: seq<string>) {
    && |ids| <= |content|
    && forall k :: 0 <= k < |ids| ==> content[k].ToolResultBlock? && content[k].toolUseId == ids[k]
  }

  /** Turn i's tool uses are answered first thing in the next turn. */
  ghost predicate AnsweredNext(turns: seq<Turn>, i: nat)
    requires i < |turns|
  {
    var ids := if turns[i].role.AssistantRole? then Uses(turns[i].content) else [];
    ids != [] ==> i + 1 < |turns| && turns[i + 1].role.UserRole? && StartsWithResults(turns[i + 1].content, ids)
  }

  /** The blocks with their roles, turn boundaries forgotten. */
  ghost function Flat(turns: seq<Turn>): seq<(Role, Block)> {
    if turns == [] then []
    else Flat(turns[..|turns| - 1]) + Tagged(turns[|turns| - 1].role, turns[|turns| - 1].content)
  }

  ghost function Tagged(role: Role, content: seq<Block>): seq<(Role, Block)> {
    seq(|content|, i requires 0 <= i < |content| => (role, content[i]))
  }

  ghost function MappedAll(ms: seq<Message>): seq<Turn> {
    seq(|ms|, i requires 0 <= i < |ms| => Mapped(ms[i]))
  }

  lemma {:induction false} UsesConcat(a: seq<Block>, b: seq<Block>)
    ensures Uses(a + b) == Uses(a) + Uses(b)
    decreases |b|
  {
    if b == [] {
      assert a + b == a;
    } else {
      assert (a + b)[..|a + b| - 1] == a + b[..|b| - 1];
      UsesConcat(a, b[..|b| - 1]);
    }
  }

  lemma {:induction false} UsesOfCalls(calls: seq<Call>)
    ensures Uses(UseBlocks(calls)) == CallIds(calls)
    decreases |calls|
  {
    if calls != [] {
      var front := calls[..|calls| - 1];
      assert UseBlocks(calls)[..|calls| - 1] == UseBlocks(front);
      UsesOfCalls(front);
    }
  }

  /** The ids a message leaves for the next one to answer. */
  function Pending(m: Message): seq<string> {
    if m.Assistant? then CallIds(m.calls) else []
  }

  lemma UsesOfMapped(m: Message)
    requires m.Assistant?
    ensures Uses(Mapped(m).content) == Pending(m)
  {
    var lead := if m.text != "" then [TextBlock(m.text)] else [];
    UsesConcat(lead, UseBlocks(m.calls));
    UsesOfCalls(m.calls);
    assert Uses(lead) == [] by { assert lead != [] ==> lead[..0] == []; }
  }

  // ---- what a request says ----

  /** The texts of a request, with the roles that say them; empty texts of the assistant are left out. */
  ghost function TextsIn(flat: seq<(Role, Block)>): seq<(Role, string)> {
    if flat == [] then []
    else
      var last := flat[|flat| - 1];
      TextsIn(flat[..|flat| - 1]) + if last.1.TextBlock? then [(last.0, last.1.text)] else []
  }

  /** The tool calls of a request. */
  ghost function CallsIn(flat: seq<(Role, Block)>): seq<Call> {
    if flat == [] then []
    else
      var last := flat[|flat| - 1];
      CallsIn(flat[..|flat| - 1]) + if last.1.ToolUse? && last.0.AssistantRole? then [Call(last.1.id, last.1.name, last.1.input)] else []
  }

  /** The tool results of a request: the id of the call and the content. */
  ghost function ResultsIn(flat: seq<(Role, Block)>): seq<(string, string)> {
    if flat == [] then []
    else
      var last := flat[|flat| - 1];
      ResultsIn(flat[..|flat| - 1]) + if last.1.ToolResultBlock? && last.0.UserRole? then [(last.1.toolUseId, last.1.content)] else []
  }

  ghost function AllTexts(ms: seq<Message>): seq<(Role, string)> {
    if ms == [] then []
    else
      AllTexts(ms[..|ms| - 1]) + match ms[|ms| - 1]
        case User(text) => [(UserRole, text)]
        case Assistant(text, _) => if text == "" then [] else [(AssistantRole, text)]
        case Tool(_) => []
  }

  ghost function AllCalls(ms: seq<Message>): seq<Call> {
    if ms == [] then [] else AllCalls(ms[..|ms| - 1]) + if ms[|ms| - 1].Assistant? then ms[|ms| - 1].calls else []
  }

  ghost function AllResults(ms: seq<Message>): seq<(string, string)> {
    if ms == [] then []
    else AllResults(ms[..|ms| - 1]) + if ms[|ms| - 1].Tool? then Contents(ms[|ms| - 1].results) else []
  }

  ghost function Contents(results: seq<ToolResult>): seq<(string, string)> {
    seq(|results|, i requires 0 <= i < |results| => (results[i].id, results[i].content))
  }

  lemma {:induction false} InConcat(a: seq<(Role, Block)>, b: seq<(Role, Block)>)
    ensures TextsIn(a + b) == TextsIn(a) + TextsIn(b)
    ensures CallsIn(a + b) == CallsIn(a) + CallsIn(b)
    ensures ResultsIn(a + b) == ResultsIn(a) + ResultsIn(b)
    decreases |b|
  {
    if b == [] {
      assert a + b == a;
      NothingIn();
    } else {
      var front, last := b[..|b| - 1], b[|b| - 1];
      hide TextsIn, CallsIn, ResultsIn;
      assert a + b == a + front + [last] && b == front + [last];
      InConcat(a, front);
      InMore(a + front, last);
      InMore(front, last);
    }
  }

  lemma NothingIn()
    ensures TextsIn([]) == [] && CallsIn([]) == [] && ResultsIn([]) == []
  {
  }

  lemma InMore(flat: seq<(Role, Block)>, last: (Role, Block))
    ensures TextsIn(flat + [last]) == TextsIn(flat) + if last.1.TextBlock? then [(last.0, last.1.text)] else []
    ensures CallsIn(flat + [last]) ==
      CallsIn(flat) + if last.1.ToolUse? && last.0.AssistantRole? then [Call(last.1.id, last.1.name, last.1.input)] else []
    ensures ResultsIn(flat + [last]) ==
      ResultsIn(flat) + if last.1.ToolResultBlock? && last.0.UserRole? then [(last.1.toolUseId, last.1.content)] else []
  {
    assert (flat + [last])[..|flat|] == flat;
  }

  lemma {:induction false} InUses(calls: seq<Call>)
    ensures var flat := Tagged(AssistantRole, UseBlocks(calls));
      TextsIn(flat) == [] && CallsIn(flat) == calls && ResultsIn(flat) == []
    decreases |calls|
  {
    if calls != [] {
      var front := calls[..|calls| - 1];
      assert Tagged(AssistantRole, UseBlocks(calls))[..|calls| - 1] == Tagged(AssistantRole, UseBlocks(front));
      InUses(front);
      assert front + [calls[|calls| - 1]] == calls;
    }
  }

  lemma {:induction false} InResults(results: seq<ToolResult>)
    ensures var flat := Tagged(UserRole, ResultBlocks(results));
      TextsIn(flat) == [] && CallsIn(flat) == [] && ResultsIn(flat) == Contents(results)
    decreases |results|
  {
    if results != [] {
      var front, last := results[..|results| - 1], results[|results| - 1];
      assert Tagged(UserRole, ResultBlocks(results))[..|results| - 1] == Tagged(UserRole, ResultBlocks(front));
      InResults(front);
      assert Contents(front) + [(last.id, last.content)] == Contents(results);
    }
  }

  lemma InText(role: Role, text: string)
    ensures var flat := Tagged(role, [TextBlock(text)]);
      TextsIn(flat) == [(role, text)] && CallsIn(flat) == [] && ResultsIn(flat) == []
  {
    assert Tagged(role, [TextBlock(text)]) == [(role, TextBlock(text))];
    assert [(role, TextBlock(text))][..0] == [];
  }

  lemma InMapped(m: Message)
    ensures var flat := Tagged(Mapped(m).role, Mapped(m).content);
      TextsIn(flat) == AllTexts([m]) && CallsIn(flat) == AllCalls([m]) && ResultsIn(flat) == AllResults([m])
  {
    assert [m][..0] == [];
    match m
    case User(text) => InText(UserRole, text);
    case Tool(results) => InResults(results);
    case Assistant(text, calls) =>
      InUses(calls);
      if text != "" {
        InText(AssistantRole, text);
        TaggedConcat(AssistantRole, [TextBlock(text)], UseBlocks(calls));
        InConcat(Tagged(AssistantRole, [TextBlock(text)]), Tagged(AssistantRole, UseBlocks(calls)));
      } else {
        assert [] + UseBlocks(calls) == UseBlocks(calls);
      }
  }

  /** The messages, mapped, say what they said: each text, call and result, unchanged and in order. */
  lemma {:induction false} MappedSays(ms: seq<Message>)
    ensures var flat := Flat(MappedAll(ms));
      TextsIn(flat) == AllTexts(ms) && CallsIn(flat) == AllCalls(ms) && ResultsIn(flat) == AllResults(ms)
    decreases |ms|
  {
    if ms != [] {
      var front, last := ms[..|ms| - 1], ms[|ms| - 1];
      MappedSays(front);
      SaysMore(ms);
      InMapped(last);
      MappedMore(ms);
      hide *;
      InConcat(Flat(MappedAll(front)), Tagged(Mapped(last).role, Mapped(last).content));
    } else {
      assert MappedAll(ms) == [];
    }
  }

  lemma MappedMore(ms: seq<Message>)
    requires ms != []
    ensures var last := ms[|ms| - 1];
      Flat(MappedAll(ms)) == Flat(MappedAll(ms[..|ms| - 1])) + Tagged(Mapped(last).role, Mapped(last).content)
  {
    hide Mapped, Tagged;
    assert MappedAll(ms)[..|ms| - 1] == MappedAll(ms[..|ms| - 1]);
  }

  lemma SaysMore(ms: seq<Message>)
    requires ms != []
    ensures var front, last := ms[..|ms| - 1], [ms[|ms| - 1]];
      && AllTexts(ms) == AllTexts(front) + AllTexts(last) && AllCalls(ms) == AllCalls(front) + AllCalls(last)
      && AllResults(ms) == AllResults(front) + AllResults(last)
  {
    assert [ms[|ms| - 1]][..0] == [];
  }

  // ---- coalescing ----

  function Coalesce(turns: seq<Turn>, t: Turn): seq<Turn> {
    if turns != [] && turns[|turns| - 1].role == t.role then
      turns[|turns| - 1 := Turn(t.role, turns[|turns| - 1].content + t.content)]
    else turns + [t]
  }

  lemma {:induction false} TaggedConcat(role: Role, a: seq<Block>, b: seq<Block>)
    ensures Tagged(role, a + b) == Tagged(role, a) + Tagged(role, b)
  {
  }

  lemma FlatCoalesce(turns: seq<Turn>, t: Turn)
    ensures Flat(Coalesce(turns, t)) == Flat(turns) + Tagged(t.role, t.content)
  {
    var all := Coalesce(turns, t);
    if turns != [] && turns[|turns| - 1].role == t.role {
      assert all[..|all| - 1] == turns[..|turns| - 1];
      TaggedConcat(t.role, turns[|turns| - 1].content, t.content);
    } else {
      assert all[..|all| - 1] == turns;
    }
  }

  /** State after mapping the messages ms: everything but the last turn is answered,
      and the last turn waits for exactly what the last message left pending. */
  ghost predicate Built(ms: seq<Message>, turns: seq<Turn>) {
    && Alternates(turns) && Flat(turns) == Flat(MappedAll(ms))
    && (forall i :: 0 <= i < |turns| - 1 ==> AnsweredNext(turns, i))
    && (ms == [] <==> turns == [])
    && (ms != [] ==>
          var m, t := ms[|ms| - 1], turns[|turns| - 1];
          t.role == Mapped(m).role && (m.Assistant? ==> Uses(t.content) == Pending(m)))
  }

  lemma ContinueTurn(turns: seq<Turn>, content: seq<Block>)
    requires turns != [] && Alternates(turns) && forall i :: 0 <= i < |turns| - 1 ==> AnsweredNext(turns, i)
    ensures var last := turns[|turns| - 1];
      var all := turns[|turns| - 1 := Turn(last.role, last.content + content)];
      Alternates(all) && forall i :: 0 <= i < |all| - 1 ==> AnsweredNext(all, i)
  {
    var last := turns[|turns| - 1];
    var all := turns[|turns| - 1 := Turn(last.role, last.content + content)];
    forall i | 0 <= i < |all| - 1 ensures AnsweredNext(all, i) && all[i].role != all[i + 1].role {
      assert AnsweredNext(turns, i) && turns[i].role != turns[i + 1].role;
    }
  }

  lemma NewTurn(turns: seq<Turn>, t: Turn)
    requires Alternates(turns) && forall i :: 0 <= i < |turns| - 1 ==> AnsweredNext(turns, i)
    requires turns != [] ==> turns[|turns| - 1].role != t.role && AnsweredNext(turns + [t], |turns| - 1)
    ensures Alternates(turns + [t]) && forall i :: 0 <= i < |turns| ==> AnsweredNext(turns + [t], i)
  {
    var all := turns + [t];
    forall i | 0 <= i < |all| - 1 ensures AnsweredNext(all, i) && all[i].role != all[i + 1].role {
      if i < |turns| - 1 { assert AnsweredNext(turns, i) && turns[i].role != turns[i + 1].role; }
    }
  }

  lemma FlatNext(ms: seq<Message>, k: nat, turns: seq<Turn>)
    requires k < |ms| && Flat(turns) == Flat(MappedAll(ms[..k]))
    ensures Flat(Coalesce(turns, Mapped(ms[k]))) == Flat(MappedAll(ms[..k + 1]))
  {
    FlatCoalesce(turns, Mapped(ms[k]));
    MappedMore(ms[..k + 1]);
    hide *;
    assert ms[..k + 1][..k] == ms[..k] && ms[..k + 1][k] == ms[k];
  }

  lemma BuildStep(ms: seq<Message>, k: nat, turns: seq<Turn>)
    requires WellPaired(ms) && k < |ms| && Built(ms[..k], turns)
    ensures Built(ms[..k + 1], Coalesce(turns, Mapped(ms[k])))
  {
    hide Uses, UseBlocks, ResultBlocks, StartsWithResults, Flat, Tagged, MappedAll;
    var m, t := ms[k], Mapped(ms[k]);
    FlatNext(ms, k, turns);
    if m.Assistant? { UsesOfMapped(m); }
    if k == 0 {
      NewTurn(turns, t);
    } else {
      var p := ms[k - 1];
      var last := turns[|turns| - 1];
      assert ms[..k][k - 1] == p;
      assert IsAnswered(ms, k - 1);
      if last.role == t.role {
        ContinueTurn(turns, t.content);
        UsesConcat(last.content, t.content);
        if m.Assistant? { NothingPending(p); }
      } else {
        if p.Assistant? { PendingIsAnswered(p, m, last, t); }
        NewTurn(turns, t);
      }
    }
  }

  lemma NothingPending(p: Message)
    requires !HasCalls(p)
    ensures Pending(p) == []
  {
  }

  lemma PendingIsAnswered(p: Message, m: Message, last: Turn, t: Turn)
    requires p.Assistant? && (HasCalls(p) ==> Answers(m, p.calls)) && t == Mapped(m)
    ensures Pending(p) != [] ==> t.role.UserRole? && StartsWithResults(t.content, Pending(p))
  {
    if HasCalls(p) {
      forall k | 0 <= k < |p.calls| ensures t.content[k].ToolResultBlock? && t.content[k].toolUseId == p.calls[k].id {
        assert ResultIds(m.results)[k] == CallIds(p.calls)[k];
      }
    }
  }

  /** What holds of any transcript, paired or not. */
  ghost predicate Shaped(ms: seq<Message>, turns: seq<Turn>) {
    && Alternates(turns) && Flat(turns) == Flat(MappedAll(ms))
    && (ms == [] <==> turns == [])
    && (ms != [] ==> turns[|turns| - 1].role == Mapped(ms[|ms| - 1]).role)
  }

  lemma ShapeStep(ms: seq<Message>, k: nat, turns: seq<Turn>)
    requires k < |ms| && Shaped(ms[..k], turns)
    ensures Shaped(ms[..k + 1], Coalesce(turns, Mapped(ms[k])))
  {
    hide Uses, UseBlocks, ResultBlocks;
    var t := Mapped(ms[k]);
    var all := Coalesce(turns, t);
    assert MappedAll(ms[..k + 1])[..k] == MappedAll(ms[..k]);
    FlatCoalesce(turns, t);
    forall i | 0 <= i < |all| - 1 ensures all[i].role != all[i + 1].role {
      if i < |turns| - 1 { assert turns[i].role != turns[i + 1].role; }
    }
  }

  /** Map, then coalesce neighbours of one role. Roles alternate and no block is lost, moved or
      changed; on a well-paired transcript every tool use is answered first thing in the next turn. */
  method ToAnthropic(messages: seq<Message>) returns (merged: seq<Turn>)
    ensures Alternates(merged) && Flat(merged) == Flat(MappedAll(messages))
    ensures TextsIn(Flat(merged)) == AllTexts(messages)
    ensures CallsIn(Flat(merged)) == AllCalls(messages)
    ensures ResultsIn(Flat(merged)) == AllResults(messages)
    ensures WellPaired(messages) ==> forall i :: 0 <= i < |merged| ==> AnsweredNext(merged, i)
  {
    MappedSays(messages);
    hide TextsIn, CallsIn, ResultsIn, AllTexts, AllCalls, AllResults;
    hide Built, Shaped, Mapped, WellPaired;
    merged := [];
    BuildStart();
    assert messages[..0] == [];
    for k := 0 to |messages|
      invariant Shaped(messages[..k], merged)
      invariant WellPaired(messages) ==> Built(messages[..k], merged)
    {
      ShapeStep(messages, k, merged);
      if WellPaired(messages) { BuildStep(messages, k, merged); }
      var t := Mapped(messages[k]);
      if merged != [] && merged[|merged| - 1].role == t.role {
        merged := merged[|merged| - 1 := Turn(t.role, merged[|merged| - 1].content + t.content)];
      } else {
        merged := merged + [t];
      }
    }
    assert messages[..|messages|] == messages;
    if WellPaired(messages) { LastTurnIsAnswered(messages, merged); }
    ShapedIs(messages, merged);
  }

  lemma BuildStart()
    ensures Built([], []) && Shaped([], [])
  {
  }

  lemma ShapedIs(messages: seq<Message>, merged: seq<Turn>)
    requires Shaped(messages, merged)
    ensures Alternates(merged) && Flat(merged) == Flat(MappedAll(messages))
  {
  }

  lemma LastTurnIsAnswered(messages: seq<Message>, merged: seq<Turn>)
    requires WellPaired(messages) && Built(messages, merged)
    ensures forall i :: 0 <= i < |merged| ==> AnsweredNext(merged, i)
  {
    if messages != [] {
      assert IsAnswered(messages, |messages| - 1);
      NothingPending(messages[|messages| - 1]);
    }
  }
}
