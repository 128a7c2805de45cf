/** The transcript of an agent run (src/agent.ts, sealTranscript and runAgentTask).

    The model, the tools, the human and the clock are arbitrary: what they answer is chosen
    nondeterministically at every point. Running out of `budget` stands for the deadline. */
module Transcript {
  import opened Common
  import ChromiumArgs

  datatype Call = Call(id: string, name: string, input: string)
  datatype ToolResult = ToolResult(id: string, name: string, content: string)
  datatype Message =
    | User(text: string)
    | Assistant(text: string, calls: seq<Call>)
    | Tool(results: seq<ToolResult>)

  function CallIds(calls: seq<Call>): seq<string> {
    seq(|calls|, i requires 0 <= i < |calls| => calls[i].id)
  }

  function ResultIds(results: seq<ToolResult>): seq<string> {
    seq(|results|, i requires 0 <= i < |results| => results[i].id)
  }

  predicate HasCalls(m: Message) {
    m.Assistant? && m.calls != []
  }

  /** A tool message whose ids are the call ids, in order. */
  ghost predicate Answers(m: Message, calls: seq<Call>) {
    m.Tool? && ResultIds(m.results) == CallIds(calls)
  }

  /** Message i, if it is a tool message, answers the assistant turn right before it. */
  ghost predicate AnswersPrevious(ms: seq<Message>, i: nat)
    requires i < |ms|
  {
    ms[i].Tool? ==> 0 < i && HasCalls(ms[i - 1]) && Answers(ms[i], ms[i - 1].calls)
  }

  /** Message i, if it has tool calls, is answered by the message right after it. */
  ghost predicate IsAnswered(ms: seq<Message>, i: nat)
    requires i < |ms|
  {
    HasCalls(ms[i]) ==> i + 1 < |ms| && Answers(ms[i + 1], ms[i].calls)
  }

  ghost predicate WellPaired(ms: seq<Message>) {
    forall i :: 0 <= i < |ms| ==> AnswersPrevious(ms, i) && IsAnswered(ms, i)
  }

  /** Well paired but for the last message, an assistant turn whose calls are being worked on. */
  ghost predicate OpenTurn(ms: seq<Message>) {
    && ms != [] && HasCalls(ms[|ms| - 1])
    && forall i :: 0 <= i < |ms| ==> AnswersPrevious(ms, i) && (i < |ms| - 1 ==> IsAnswered(ms, i))
  }

  lemma AppendPlain(ms: seq<Message>, m: Message)
    requires WellPaired(ms) && !m.Tool? && !HasCalls(m)
    ensures WellPaired(ms + [m])
  {
    var t := ms + [m];
    forall i | 0 <= i < |t| ensures AnswersPrevious(t, i) && IsAnswered(t, i) {
      if i < |ms| { assert AnswersPrevious(ms, i) && IsAnswered(ms, i); }
    }
  }

  lemma AppendCalls(ms: seq<Message>, m: Message)
    requires WellPaired(ms) && HasCalls(m)
    ensures OpenTurn(ms + [m])
  {
    var t := ms + [m];
    forall i | 0 <= i < |t| ensures AnswersPrevious(t, i) && (i < |t| - 1 ==> IsAnswered(t, i)) {
      if i < |ms| { assert AnswersPrevious(ms, i) && IsAnswered(ms, i); }
    }
  }

  lemma AppendAnswers(ms: seq<Message>, m: Message)
    requires OpenTurn(ms) && Answers(m, ms[|ms| - 1].calls)
    ensures WellPaired(ms + [m])
  {
    var t := ms + [m];
    forall i | 0 <= i < |t| ensures AnswersPrevious(t, i) && IsAnswered(t, i) {
      if i < |ms| {
        assert AnswersPrevious(ms, i) && (i < |ms| - 1 ==> IsAnswered(ms, i));
      }
    }
  }

  lemma RewriteResults(ms: seq<Message>, k: nat, results: seq<ToolResult>)
    requires WellPaired(ms) && k < |ms| && ms[k].Tool? && ResultIds(results) == ResultIds(ms[k].results)
    ensures WellPaired(ms[k := Tool(results)])
  {
    var t := ms[k := Tool(results)];
    forall i | 0 <= i < |t| ensures AnswersPrevious(t, i) && IsAnswered(t, i) {
      assert AnswersPrevious(ms, i) && IsAnswered(ms, i);
    }
  }

  // ---- closing an unfinished turn ----

  function NoteFor(cause: string): string {
    "Cut short: " + cause + " before this call completed. Its effect on the page is unknown — re-observe before acting on it."
  }

  /** The content of a stub. */
  function Note(interrupted: bool): string {
    NoteFor(if interrupted then "the user interrupted the run" else "the run ended")
  }

  /** The note tells an interruption by the user from any other end of the run. */
  lemma NoteTells()
    ensures Note(true) == NoteFor("the user interrupted the run") && Note(false) == NoteFor("the run ended")
  {
    hide NoteFor;
  }

  /** Answer each orphaned call of the last turn with a stub; a no-op on a clean transcript. */
  method SealTranscript(messages: seq<Message>, interrupted: bool) returns (sealed: seq<Message>)
    ensures WellPaired(messages) ==> sealed == messages
    ensures OpenTurn(messages) ==> WellPaired(sealed)
    ensures messages <= sealed && |sealed| <= |messages| + 1
    ensures sealed != messages <==> messages != [] && HasCalls(messages[|messages| - 1])
    ensures sealed != messages ==>
      var last, added := messages[|messages| - 1], sealed[|messages|];
      && added.Tool? && |added.results| == |last.calls|
      && forall k :: 0 <= k < |last.calls| ==>
           added.results[k] == ToolResult(last.calls[k].id, last.calls[k].name, Note(interrupted))
  {
    hide Note;
    sealed := messages;
    if messages == [] { return; }
    var last := messages[|messages| - 1];
    assert WellPaired(messages) ==> IsAnswered(messages, |messages| - 1);
    if !HasCalls(last) { return; }
    var note := Note(interrupted);
    var stubs := seq(|last.calls|, i requires 0 <= i < |last.calls| =>
      ToolResult(last.calls[i].id, last.calls[i].name, note));
    assert ResultIds(stubs) == CallIds(last.calls);
    if OpenTurn(messages) { AppendAnswers(messages, Tool(stubs)); }
    sealed := messages + [Tool(stubs)];
  }

  // ---- the serialized size ----

  ghost function SumLengths(ms: seq<Message>, len: Message -> nat): nat {
    if ms == [] then 0 else SumLengths(ms[..|ms| - 1], len) + len(ms[|ms| - 1])
  }

  /** The length of the JSON array: brackets, the messages, and a comma between neighbours. */
  ghost function JsonLength(ms: seq<Message>, len: Message -> nat): nat {
    2 + SumLengths(ms, len) + if ms == [] then 0 else |ms| - 1
  }

  lemma JsonAppend(ms: seq<Message>, m: Message, len: Message -> nat)
    ensures JsonLength(ms + [m], len) == JsonLength(ms, len) + len(m) + if ms == [] then 0 else 1
  {
    assert (ms + [m])[..|ms|] == ms;
  }

  lemma {:induction false} JsonRewrite(ms: seq<Message>, k: nat, m: Message, len: Message -> nat)
    requires k < |ms|
    ensures JsonLength(ms[k := m], len) == JsonLength(ms, len) + len(m) - len(ms[k])
    decreases |ms|
  {
    var n := |ms| - 1;
    if k == n {
      assert ms[k := m][..n] == ms[..n];
    } else {
      assert ms[k := m][..n] == ms[..n][k := m];
      JsonRewrite(ms[..n], k, m, len);
    }
  }

  // ---- what a run is told ----

  datatype Reason = Stopped | Interrupted | ContextLimit | ModelError | MaxTokens | Refusal | Answered | DoneCalled
    | NoProgress | Timeout

  /** How a stretch of the loop ends: it goes on, breaks, or throws. */
  datatype Flow = Continue | Break | ThrowTimeout | ThrowInterrupt | ThrowOther {
    predicate Throws() { !Continue? && !Break? }
  }

  /** When guidance of the human is collected. */
  datatype Place = AtTurn | AfterTools | InCheck

  /** One verdict of the completion check: complete, and then whether it approves the proposed
      answer; a correction of it, if not empty; or a wish to look at the page. */
  datatype Verdict = Verdict(complete: bool, approves: bool, correction: string, inspect: bool)

  /** What the world answers: the stop signal before a turn, or that it is too late for one; guidance;
      a turn of the model; a tool that was used; what the completion check saw and judged; or an error. */
  datatype Answer =
    | Go | StopSignal | Late
    | Quiet | Guided(text: string, at: Place)
    | Said(text: string, calls: seq<Call>, stop: Reason) | Down
    | Used(tool: string, content: string, signature: string, final: Option<string>)
    | Observed(ok: bool) | Judged(verdict: Verdict)
    | Failed(flow: Flow)

  /** The run checks completions of checkout tasks; guardrails are set; the answer in a `done` call. */
  datatype Setup = Setup(checksCheckout: bool, guarded: bool, answerIn: string -> string)

  const MAX_ANSWER := 4_000
  const MAX_CHECKS := 3
  const REPEATED_FAILURE_LIMIT := 5

  /** The answer of the last `done` call. */
  function DoneAnswer(u: Setup, calls: seq<Call>): Option<string> {
    if calls == [] then None
    else
      var last := calls[|calls| - 1];
      if last.name == "done" then Some(ChromiumArgs.Trim(u.answerIn(last.input))) else DoneAnswer(u, calls[..|calls| - 1])
  }

  predicate Finishes(a: Answer) {
    a.Used? && a.tool == "browser" && a.final.Some?
  }

  /** What the last turn of the model claims: the reason to end, and the answer. NoProgress is no claim. */
  ghost function Claim(u: Setup, h: seq<Answer>): (Reason, string) {
    if h == [] then (NoProgress, "")
    else
      var front, last := h[..|h| - 1], h[|h| - 1];
      match last
      case Said(text, calls, stop) =>
        if calls != [] then
          match DoneAnswer(u, calls) case None => (NoProgress, "") case Some(answer) => (DoneCalled, answer)
        else
          var answer := ChromiumArgs.Trim(text);
          (if stop in {MaxTokens, Refusal} then stop else if answer == "" then Stopped else Answered, answer)
      case Used(_, _, _, final) =>
        if Finishes(last) && Claim(u, front).0 != DoneCalled then (DoneCalled, final.value) else Claim(u, front)
      case _ => Claim(u, front)
  }

  /** The current row of equal failures of browser calls. */
  ghost function Streak(h: seq<Answer>): (string, nat) {
    if h == [] then ("", 0)
    else
      var before, last := Streak(h[..|h| - 1]), h[|h| - 1];
      match last
      case Used(tool, _, signature, _) =>
        if tool != "browser" then before
        else if signature == "" then ("", 0)
        else (signature, if signature == before.0 then before.1 + 1 else 1)
      case Guided(_, at) => if at.AtTurn? then before else ("", 0)
      case _ => before
  }

  /** In the last turn a row of equal failures has reached the limit, and no guidance came since. */
  ghost function Stuck(h: seq<Answer>): bool {
    if h == [] then false
    else
      var before, last := Stuck(h[..|h| - 1]), h[|h| - 1];
      match last
      case Said(_, _, _) => false
      case Used(tool, _, _, _) => before || (tool == "browser" && Streak(h).1 >= REPEATED_FAILURE_LIMIT)
      case Guided(_, at) => at.AtTurn? && before
      case _ => before
  }

  /** The verdicts of completion checks since the human last spoke during one. */
  ghost function Checks(h: seq<Answer>): nat {
    if h == [] then 0
    else
      var before, last := Checks(h[..|h| - 1]), h[|h| - 1];
      match last
      case Judged(_) => before + 1
      case Guided(_, at) => if at.InCheck? then 0 else before
      case _ => before
  }

  /** The check has seen the page. */
  ghost function Seen(h: seq<Answer>): bool {
    if h == [] then false
    else
      match h[|h| - 1]
      case Observed(ok) => ok || Seen(h[..|h| - 1])
      case Said(_, _, _) => false
      case _ => Seen(h[..|h| - 1])
  }

  /** The answer claimed, as corrected by the check. */
  ghost function Proposed(u: Setup, h: seq<Answer>): string {
    if h == [] then ""
    else
      var front := h[..|h| - 1];
      match h[|h| - 1]
      case Judged(v) => if !v.complete && v.correction != "" && !v.inspect then v.correction else Proposed(u, front)
      case Observed(_) => Proposed(u, front)
      case Quiet => Proposed(u, front)
      case _ => Claim(u, h).1
  }

  /** Whether a run that has been told this ends, and why: read off the last answer. */
  ghost function EndOf(u: Setup, h: seq<Answer>): Option<Reason> {
    if h == [] then None
    else
      match h[|h| - 1]
      case StopSignal => Some(Interrupted)
      case Go => Some(ContextLimit)
      case Late => Some(Timeout)
      case Failed(flow) => if flow.ThrowTimeout? then Some(Timeout) else if flow.ThrowInterrupt? then Some(Interrupted) else None
      case Down => Some(ModelError)
      case Quiet =>
        var (reason, answer) := Claim(u, h);
        if reason == NoProgress then (if Stuck(h) then Some(NoProgress) else None)
        else if reason in {MaxTokens, Refusal} || !u.checksCheckout || answer == "" then Some(reason)
        else if |answer| > MAX_ANSWER then Some(NoProgress)
        else None
      case Judged(v) =>
        if v.complete && v.approves && Seen(h) then Some(Claim(u, h).0)
        else if v.complete || v.correction != "" || v.inspect || u.guarded || Checks(h) >= MAX_CHECKS || Stuck(h) then Some(NoProgress)
        else None
      case _ => None
  }

  /** Every turn of the model and all guidance are in the transcript. */
  ghost predicate Recorded(h: seq<Answer>, ms: seq<Message>) {
    forall a :: a in h ==> (a.Said? ==> Assistant(a.text, a.calls) in ms) && (a.Guided? ==> User(a.text) in ms)
  }

  lemma RecordedNext(h: seq<Answer>, ms: seq<Message>, a: Answer)
    requires Recorded(h, ms) && (a.Said? ==> Assistant(a.text, a.calls) in ms) && (a.Guided? ==> User(a.text) in ms)
    ensures Recorded(h + [a], ms)
  {
  }

  lemma RecordedMore(h: seq<Answer>, ms: seq<Message>, ms': seq<Message>)
    requires Recorded(h, ms) && forall m :: m in ms && !m.Tool? ==> m in ms'
    ensures Recorded(h, ms')
  {
  }

  /** What is remembered of the past by an answer that says nothing about it. */
  lemma Skips(u: Setup, h: seq<Answer>, a: Answer)
    requires a.Quiet? || a.Observed? || a.Judged?
    ensures Claim(u, h + [a]) == Claim(u, h) && Streak(h + [a]) == Streak(h) && Stuck(h + [a]) == Stuck(h)
    ensures Checks(h + [a]) == Checks(h) + if a.Judged? then 1 else 0
    ensures Seen(h + [a]) == (Seen(h) || a == Observed(true))
    ensures !a.Judged? && h != [] ==> Proposed(u, h + [a]) == Proposed(u, h)
    ensures a.Judged? ==> Proposed(u, h + [a]) == if !a.verdict.complete && a.verdict.correction != "" && !a.verdict.inspect
      then a.verdict.correction else Proposed(u, h)
  {
    assert (h + [a])[..|h|] == h;
  }

  lemma Resets(u: Setup, h: seq<Answer>, text: string, at: Place)
    ensures var t := h + [Guided(text, at)];
      && Streak(t) == (if at.AtTurn? then Streak(h) else ("", 0)) && Stuck(t) == (at.AtTurn? && Stuck(h))
      && Checks(t) == (if at.InCheck? then 0 else Checks(h)) && EndOf(u, t) == None
  {
    assert (h + [Guided(text, at)])[..|h|] == h;
  }

  lemma Begins(u: Setup, h: seq<Answer>, a: Answer)
    requires a.Go? || a.StopSignal? || a.Late? || a.Down? || a.Failed? || a.Said?
    ensures Streak(h + [a]) == Streak(h) && Checks(h + [a]) == Checks(h)
    ensures a.Said? ==> !Stuck(h + [a]) && !Seen(h + [a])
  {
    assert (h + [a])[..|h|] == h;
  }

  /** Guidance was collected before the model's turn. */
  ghost predicate Collected(a: Answer) {
    a.Quiet? || (a.Guided? && a.at.AtTurn?)
  }

  // ---- a batch of tool calls ----

  /** What a call gets once the task is finished. */
  function Acknowledged(name: string): string {
    if name == "done" then "Task marked complete." else "Ignored — task already finished."
  }

  /** `done` is acknowledged, before and after guidance; every other call is refused, or left as it is. */
  lemma ResultsTell(r: ToolResult)
    ensures r.name == "done" ==> Acknowledged(r.name) == "Task marked complete."
    ensures r.name == "done" ==> Revised(r) == "Completion deferred because new human steering arrived."
    ensures r.name != "done" ==> Acknowledged(r.name) == "Ignored — task already finished." && Revised(r) == r.content
  {
  }

  /** One result for each call, under its id and name. The first calls were put to their tools, one
      answer each, up to the one that finished the task; from there on `done` is acknowledged and
      every other call is ignored. */
  ghost predicate Worked(calls: seq<Call>, results: seq<ToolResult>, used: seq<Answer>) {
    && ResultIds(results) == CallIds(calls) && |used| <= |calls| == |results|
    && (forall i :: 0 <= i < |calls| ==> results[i].name == calls[i].name)
    && (forall i :: 0 <= i < |used| ==> used[i].Used? && calls[i].name != "done" && used[i].tool == calls[i].name)
    && (forall i :: 0 <= i < |used| ==> results[i].content == used[i].content)
    && (forall i :: 0 <= i < |used| - 1 ==> !Finishes(used[i]))
    && (forall i :: |used| <= i < |calls| ==> results[i].content == Acknowledged(calls[i].name))
    && (|used| < |calls| ==> calls[|used|].name == "done" || (used != [] && Finishes(used[|used| - 1])))
  }

  /** The batch has finished the task. */
  ghost predicate Ended(calls: seq<Call>, used: seq<Answer>) {
    |used| < |calls| || (used != [] && Finishes(used[|used| - 1]))
  }

  lemma NothingWorked(calls: seq<Call>)
    ensures Worked(calls[..0], [], []) && !Ended(calls[..0], [])
  {
  }

  lemma ResultNext(calls: seq<Call>, call: Call, results: seq<ToolResult>, content: string)
    requires ResultIds(results) == CallIds(calls)
    ensures ResultIds(results + [ToolResult(call.id, call.name, content)]) == CallIds(calls + [call])
  {
    assert ResultIds(results + [ToolResult(call.id, call.name, content)]) == CallIds(calls) + [call.id] == CallIds(calls + [call]);
  }

  lemma WorkedUse(calls: seq<Call>, call: Call, results: seq<ToolResult>, used: seq<Answer>, a: Answer)
    requires Worked(calls, results, used) && !Ended(calls, used)
    requires a.Used? && call.name != "done" && a.tool == call.name
    ensures Worked(calls + [call], results + [ToolResult(call.id, call.name, a.content)], used + [a])
    ensures Ended(calls + [call], used + [a]) <==> Finishes(a)
  {
    hide Finishes, ResultIds, CallIds, Acknowledged;
    ResultNext(calls, call, results, a.content);
  }

  lemma WorkedSkip(calls: seq<Call>, call: Call, results: seq<ToolResult>, used: seq<Answer>)
    requires Worked(calls, results, used) && (call.name == "done" || Ended(calls, used))
    ensures Worked(calls + [call], results + [ToolResult(call.id, call.name, Acknowledged(call.name))], used)
    ensures Ended(calls + [call], used)
  {
    hide Finishes, ResultIds, CallIds, Acknowledged;
    ResultNext(calls, call, results, Acknowledged(call.name));
  }

  lemma TakeNext(calls: seq<Call>, i: nat)
    requires i < |calls|
    ensures calls[..i + 1] == calls[..i] + [calls[i]]
  {
  }

  lemma DoneNext(u: Setup, calls: seq<Call>, i: nat)
    requires i < |calls|
    ensures DoneAnswer(u, calls[..i + 1]) ==
      if calls[i].name == "done" then Some(ChromiumArgs.Trim(u.answerIn(calls[i].input))) else DoneAnswer(u, calls[..i])
  {
    assert calls[..i + 1][..i] == calls[..i];
  }

  /** What the last turn claims after some of its calls, of which one may have returned an answer. */
  ghost function ClaimAfter(u: Setup, calls: seq<Call>, found: Option<string>): (Reason, string) {
    match DoneAnswer(u, calls)
    case Some(a) => (DoneCalled, a)
    case None => match found case Some(a) => (DoneCalled, a) case None => (NoProgress, "")
  }

  lemma ClaimSaid(u: Setup, h: seq<Answer>)
    requires h != [] && h[|h| - 1].Said? && h[|h| - 1].calls != []
    ensures Claim(u, h) == ClaimAfter(u, h[|h| - 1].calls, None) && !Stuck(h) && !Seen(h)
  {
  }

  lemma ClaimUsed(u: Setup, calls: seq<Call>, h: seq<Answer>, a: Answer)
    requires a.Used? && Claim(u, h) == ClaimAfter(u, calls, None)
    ensures Claim(u, h + [a]) == ClaimAfter(u, calls, if Finishes(a) then a.final else None)
    ensures Checks(h + [a]) == Checks(h) && Seen(h + [a]) == Seen(h)
  {
    assert (h + [a])[..|h|] == h;
  }

  lemma StreakUsed(h: seq<Answer>, a: Answer)
    requires a.Used?
    ensures Streak(h + [a]) == if a.tool != "browser" then Streak(h) else if a.signature == "" then ("", 0)
      else (a.signature, if a.signature == Streak(h).0 then Streak(h).1 + 1 else 1)
    ensures Stuck(h + [a]) == (Stuck(h) || (a.tool == "browser" && Streak(h + [a]).1 >= REPEATED_FAILURE_LIMIT))
  {
    assert (h + [a])[..|h|] == h;
  }

  lemma ClaimProse(u: Setup, h: seq<Answer>, text: string, stop: Reason)
    requires h != [] && h[|h| - 1] == Said(text, [], stop)
    ensures var answer := ChromiumArgs.Trim(text);
      Claim(u, h) == (if stop in {MaxTokens, Refusal} then stop else if answer == "" then Stopped else Answered, answer)
    ensures Proposed(u, h) == ChromiumArgs.Trim(text) && !Stuck(h) && !Seen(h)
  {
  }

  /** How a turn ends that was not steered and is not checked. */
  lemma QuietEnds(u: Setup, h: seq<Answer>)
    requires h != [] && h[|h| - 1].Quiet?
    ensures var (reason, answer) := Claim(u, h);
      EndOf(u, h) ==
        if reason == NoProgress then (if Stuck(h) then Some(NoProgress) else None)
        else if reason in {MaxTokens, Refusal} || !u.checksCheckout || answer == "" then Some(reason)
        else if |answer| > MAX_ANSWER then Some(NoProgress)
        else None
  {
    hide Claim, Stuck;
  }

  lemma JudgedEnds(u: Setup, h: seq<Answer>, v: Verdict)
    ensures EndOf(u, h + [Judged(v)]) ==
      if v.complete && v.approves && Seen(h) then Some(Claim(u, h).0)
      else if v.complete || v.correction != "" || v.inspect || u.guarded || Checks(h) + 1 >= MAX_CHECKS || Stuck(h) then Some(NoProgress)
      else None
  {
    hide Claim, Stuck, Checks, Seen;
    Skips(u, h, Judged(v));
  }

  lemma OtherEnds(u: Setup, h: seq<Answer>)
    requires h != []
    ensures h[|h| - 1].Down? ==> EndOf(u, h) == Some(ModelError)
    ensures h[|h| - 1].StopSignal? ==> EndOf(u, h) == Some(Interrupted)
    ensures h[|h| - 1].Go? ==> EndOf(u, h) == Some(ContextLimit)
    ensures h[|h| - 1].Late? ==> EndOf(u, h) == Some(Timeout)
    ensures h[|h| - 1] == Failed(ThrowTimeout) ==> EndOf(u, h) == Some(Timeout)
    ensures h[|h| - 1] == Failed(ThrowInterrupt) ==> EndOf(u, h) == Some(Interrupted)
  {
    hide Claim, Stuck, Checks, Seen;
  }

  /** What a turn proposes before any check. */
  lemma ProposedIsClaimed(u: Setup, h: seq<Answer>)
    requires h != [] && (h[|h| - 1].Said? || h[|h| - 1].Used?)
    ensures Proposed(u, h) == Claim(u, h).1
  {
    hide Claim;
  }

  lemma UsedOrSaid(h: seq<Answer>, used: seq<Answer>)
    requires h != [] && h[|h| - 1].Said? && forall a :: a in used ==> a.Used?
    ensures var t := h + used; t[|t| - 1].Said? || t[|t| - 1].Used?
  {
  }

  lemma WorkedAnswers(calls: seq<Call>, results: seq<ToolResult>, used: seq<Answer>)
    requires Worked(calls, results, used)
    ensures Answers(Tool(results), calls) && forall a :: a in used ==> a.Used?
  {
  }

  lemma MoreMessages(ms: seq<Message>, ms': seq<Message>)
    requires ms <= ms'
    ensures forall m :: m in ms ==> m in ms'
  {
  }

  lemma RewriteKeeps(ms: seq<Message>, k: nat, m: Message)
    requires k < |ms| && ms[k].Tool?
    ensures forall x :: x in ms && !x.Tool? ==> x in ms[k := m]
  {
    forall x | x in ms && !x.Tool? ensures x in ms[k := m] {
      var i :| 0 <= i < |ms| && ms[i] == x;
      assert ms[k := m][i] == x;
    }
  }

  /** A run that breaks was not told of an error. */
  lemma BreaksAreNotErrors(u: Setup, h: seq<Answer>)
    requires h != []
    ensures EndOf(u, h).Some? ==> h[|h| - 1] != Failed(ThrowOther)
    ensures EndOf(u, h).Some? && h[|h| - 1].Failed? ==> EndOf(u, h).value in {Timeout, Interrupted}
  {
    hide Claim, Stuck, Checks, Seen;
  }

  lemma PlainHasNoCalls(text: string)
    ensures !HasCalls(Assistant(text, [])) && !HasCalls(User(text))
  {
  }

  /** After i calls of a batch, put to the run after h0. */
  ghost predicate Batch(u: Setup, calls: seq<Call>, i: nat, results: seq<ToolResult>, h0: seq<Answer>, used: seq<Answer>,
                        finished: bool, answer: string, noProgress: bool)
  {
    && i <= |calls| && Worked(calls[..i], results, used) && (finished <==> Ended(calls[..i], used))
    && Claim(u, h0 + used) == ClaimAfter(u, calls, Found(used))
    && (finished <==> Found(used).Some? || DoneAnswer(u, calls[..i]).Some?)
    && (finished ==> answer == match DoneAnswer(u, calls[..i]) case Some(a) => a case None => Found(used).value)
    && noProgress == Stuck(h0 + used) && !Seen(h0 + used) && Checks(h0 + used) == Checks(h0)
  }

  /** The answer a browser call returned, if the last one did. */
  ghost function Found(used: seq<Answer>): Option<string> {
    if used != [] && Finishes(used[|used| - 1]) then used[|used| - 1].final else None
  }

  lemma BatchStarts(u: Setup, calls: seq<Call>, h0: seq<Answer>)
    requires h0 != [] && h0[|h0| - 1].Said? && calls == h0[|h0| - 1].calls && calls != []
    ensures forall answer :: Batch(u, calls, 0, [], h0, [], false, answer, false)
  {
    hide Claim, Stuck, Seen, Checks, Worked, Ended, ClaimAfter, Streak;
    NothingWorked(calls);
    ClaimSaid(u, h0);
    assert h0 + [] == h0 && DoneAnswer(u, calls[..0]) == None;
  }

  lemma BatchDone(u: Setup, calls: seq<Call>, i: nat, results: seq<ToolResult>, h0: seq<Answer>, used: seq<Answer>,
                  finished: bool, answer: string, noProgress: bool)
    requires i < |calls| && calls[i].name == "done" && Batch(u, calls, i, results, h0, used, finished, answer, noProgress)
    ensures Batch(u, calls, i + 1, results + [ToolResult(calls[i].id, calls[i].name, Acknowledged(calls[i].name))], h0, used,
                  true, ChromiumArgs.Trim(u.answerIn(calls[i].input)), noProgress)
  {
    hide Claim, Stuck, Seen, Checks, Worked, Ended, ClaimAfter, DoneAnswer, Streak, ChromiumArgs.Trim, Found;
    TakeNext(calls, i);
    WorkedSkip(calls[..i], calls[i], results, used);
    DoneNext(u, calls, i);
  }

  lemma BatchIgnores(u: Setup, calls: seq<Call>, i: nat, results: seq<ToolResult>, h0: seq<Answer>, used: seq<Answer>,
                     answer: string, noProgress: bool)
    requires i < |calls| && calls[i].name != "done" && Batch(u, calls, i, results, h0, used, true, answer, noProgress)
    ensures Batch(u, calls, i + 1, results + [ToolResult(calls[i].id, calls[i].name, Acknowledged(calls[i].name))], h0, used, true, answer, noProgress)
  {
    hide Claim, Stuck, Seen, Checks, Worked, Ended, ClaimAfter, DoneAnswer, Streak, ChromiumArgs.Trim, Found;
    TakeNext(calls, i);
    WorkedSkip(calls[..i], calls[i], results, used);
    DoneNext(u, calls, i);
  }

  lemma BatchUses(u: Setup, calls: seq<Call>, i: nat, results: seq<ToolResult>, h0: seq<Answer>, used: seq<Answer>,
                  answer: string, noProgress: bool, a: Answer)
    requires i < |calls| && calls[i].name != "done" && Batch(u, calls, i, results, h0, used, false, answer, noProgress)
    requires a.Used? && a.tool == calls[i].name
    ensures Batch(u, calls, i + 1, results + [ToolResult(calls[i].id, calls[i].name, a.content)], h0, used + [a],
      Finishes(a), if Finishes(a) then a.final.value else answer,
      noProgress || (a.tool == "browser" && Streak(h0 + used + [a]).1 >= REPEATED_FAILURE_LIMIT))
  {
    hide Claim, Stuck, Seen, Checks, Worked, Ended, ClaimAfter, DoneAnswer, Streak, ChromiumArgs.Trim;
    TakeNext(calls, i);
    WorkedUse(calls[..i], calls[i], results, used, a);
    DoneNext(u, calls, i);
    ClaimUsed(u, calls, h0 + used, a);
    StreakUsed(h0 + used, a);
    assert h0 + used + [a] == h0 + (used + [a]);
  }

  lemma BatchFails(u: Setup, calls: seq<Call>, i: nat, results: seq<ToolResult>, h0: seq<Answer>, used: seq<Answer>,
                   finished: bool, answer: string, noProgress: bool)
    requires Batch(u, calls, i, results, h0, used, finished, answer, noProgress)
    ensures forall flow :: Checks(h0 + used + [Failed(flow)]) == Checks(h0)
  {
    forall flow ensures Checks(h0 + used + [Failed(flow)]) == Checks(h0) { Begins(u, h0 + used, Failed(flow)); }
  }

  lemma BatchEnds(u: Setup, calls: seq<Call>, results: seq<ToolResult>, h0: seq<Answer>, used: seq<Answer>,
                  finished: bool, answer: string, noProgress: bool)
    requires Batch(u, calls, |calls|, results, h0, used, finished, answer, noProgress)
    ensures Worked(calls, results, used) && (finished <==> Ended(calls, used))
    ensures Claim(u, h0 + used) == if finished then (DoneCalled, answer) else (NoProgress, "")
    ensures noProgress == Stuck(h0 + used) && !Seen(h0 + used) && Checks(h0 + used) == Checks(h0)
  {
    hide Claim, Stuck, Seen, Checks, Worked, Ended, DoneAnswer, Streak;
    assert calls[..|calls|] == calls;
  }

  /** A batch that completed was answered by one tool message; if the human steered right after it,
      its `done` results were revised. */
  ghost predicate AnsweredBy(ms0: seq<Message>, ms: seq<Message>, h0: seq<Answer>, h: seq<Answer>,
                             calls: seq<Call>, results: seq<ToolResult>, used: seq<Answer>)
  {
    && Worked(calls, results, used) && h0 + used <= h && |h0| + |used| < |h|
    && ms0 + [Tool(if h[|h0| + |used|].Guided? then Deferred(results) else results)] <= ms
  }

  lemma AnsweredHere(ms0: seq<Message>, ms: seq<Message>, h0: seq<Answer>, h: seq<Answer>,
                     calls: seq<Call>, results: seq<ToolResult>, used: seq<Answer>)
    requires Worked(calls, results, used) && h0 + used <= h && |h0 + used| < |h|
    requires ms0 + [Tool(if h[|h0 + used|].Guided? then Deferred(results) else results)] <= ms
    ensures AnsweredBy(ms0, ms, h0, h, calls, results, used)
  {
    hide Worked, Deferred;
  }

  // ---- how a turn and a check end, on what was heard ----

  /** A turn's claim that nobody has steered away from; it may still be checked. */
  ghost predicate Claimed(u: Setup, h: seq<Answer>, reason: Reason, answer: string, noProgress: bool, checks: nat) {
    && h != [] && h[|h| - 1].Quiet? && Claim(u, h) == (reason, answer) && Proposed(u, h) == answer
    && reason in {DoneCalled, Answered, Stopped} && (reason.Stopped? ==> answer == "")
    && noProgress == Stuck(h) && !Seen(h) && checks == Checks(h) < MAX_CHECKS
  }

  /** Between two rounds of the check. */
  ghost predicate Checking(u: Setup, h: seq<Answer>, reason: Reason, proposed: string, seen: bool, noProgress: bool, checks: nat) {
    && Claim(u, h).0 == reason && Proposed(u, h) == proposed && seen == Seen(h) && noProgress == Stuck(h)
    && checks == Checks(h) < MAX_CHECKS && reason in {DoneCalled, Answered}
  }

  /** After the check: finished with a claim that stands; or without progress; or the run goes on.
      `stuck` is whether failures had repeated before it. */
  ghost predicate Checked(u: Setup, h: seq<Answer>, flow: Flow, finished: bool, noProgress: bool, stuck: bool,
                          reason: Reason, answer: string, checks: nat)
  {
    && !flow.Break? && checks <= MAX_CHECKS
    && (flow.Throws() ==> !finished && h != [] && h[|h| - 1] == Failed(flow))
    && (flow.Continue? && finished ==>
          EndOf(u, h) == Some(reason) && answer == Proposed(u, h) && reason in {DoneCalled, Answered, Stopped})
    && (flow.Continue? && !finished && noProgress ==>
          EndOf(u, h) == Some(if reason.ModelError? then ModelError else NoProgress)
          && (reason in {ModelError, NoProgress} || (reason.Stopped? && stuck)))
    && (flow.Continue? && !finished && !noProgress ==> EndOf(u, h) == None && checks == Checks(h) < MAX_CHECKS)
    && !reason.ContextLimit?
  }

  /** How a stretch of the loop leaves the run: it goes on only if what was heard does not end it, and
      breaks only with the reason for which that ends it; a run is finished by a claim that stands,
      with the answer proposed. */
  ghost predicate Settles(u: Setup, h: seq<Answer>, flow: Flow, finished: bool, noProgress: bool,
                          reason: Reason, answer: string, checks: nat)
  {
    && (flow.Continue? ==> !finished && !noProgress && EndOf(u, h) == None && checks == Checks(h) < MAX_CHECKS)
    && (flow.Break? ==> EndOf(u, h) == Some(reason) && (finished <==> reason in {DoneCalled, Answered, Stopped}))
    && (finished ==> flow.Break? && answer == Proposed(u, h))
    && (flow.Throws() ==> h != [] && (h[|h| - 1] == Failed(flow) || (flow.ThrowTimeout? && h[|h| - 1].Late?)))
  }

  lemma ProseClaims(u: Setup, h: seq<Answer>, text: string, stop: Reason, checks: nat)
    requires h != [] && h[|h| - 1] == Said(text, [], stop) && checks == Checks(h) < MAX_CHECKS
    ensures var answer, q := ChromiumArgs.Trim(text), h + [Quiet];
      if stop in {MaxTokens, Refusal} then Settles(u, q, Break, false, false, stop, answer, checks)
      else Claimed(u, q, if answer != "" then Answered else Stopped, answer, false, checks)
  {
    hide Claim, Stuck, Checks, Seen, Proposed, EndOf, Streak, ChromiumArgs.Trim;
    ClaimProse(u, h, text, stop);
    Skips(u, h, Quiet);
    QuietEnds(u, h + [Quiet]);
  }

  lemma ToolsClaim(u: Setup, h: seq<Answer>, finished: bool, reason: Reason, answer: string, noProgress: bool, checks: nat)
    requires h != [] && (h[|h| - 1].Said? || h[|h| - 1].Used?) && checks == Checks(h) < MAX_CHECKS
    requires Claim(u, h) == (if finished then (DoneCalled, answer) else (NoProgress, "")) && noProgress == Stuck(h) && !Seen(h)
    ensures finished ==> Claimed(u, h + [Quiet], DoneCalled, answer, noProgress, checks)
    ensures !finished && noProgress ==> Settles(u, h + [Quiet], Break, false, noProgress, NoProgress, answer, checks)
    ensures !finished && !noProgress ==> Settles(u, h + [Quiet], Continue, false, noProgress, reason, answer, checks)
  {
    hide Claim, Stuck, Checks, Seen, Proposed, EndOf, Streak;
    ProposedIsClaimed(u, h);
    Skips(u, h, Quiet);
    QuietEnds(u, h + [Quiet]);
  }

  lemma GuidedSettles(u: Setup, h: seq<Answer>, text: string, at: Place, reason: Reason, answer: string, checks: nat)
    requires if at.InCheck? then checks == 0 else checks == Checks(h) < MAX_CHECKS
    ensures Settles(u, h + [Guided(text, at)], Continue, false, false, reason, answer, checks)
    ensures !reason.ContextLimit? ==> Checked(u, h + [Guided(text, at)], Continue, false, false, false, reason, answer, checks)
  {
    hide Claim, Stuck, Checks, Seen, Proposed, EndOf, Streak;
    Resets(u, h, text, at);
  }

  lemma FailedSettles(u: Setup, h: seq<Answer>, flow: Flow, noProgress: bool, stuck: bool, reason: Reason, answer: string, checks: nat)
    requires flow.Throws() && h != [] && h[|h| - 1] == Failed(flow)
    ensures Settles(u, h, flow, false, noProgress, reason, answer, checks)
    ensures checks <= MAX_CHECKS && !reason.ContextLimit? ==> Checked(u, h, flow, false, noProgress, stuck, reason, answer, checks)
  {
  }

  /** No check is made, or none can be. */
  lemma ClaimStands(u: Setup, h: seq<Answer>, reason: Reason, answer: string, noProgress: bool, checks: nat, message: string)
    requires Claimed(u, h, reason, answer, noProgress, checks)
    ensures !u.checksCheckout || answer == "" ==> Checked(u, h, Continue, true, noProgress, noProgress, reason, answer, checks)
    ensures u.checksCheckout && |answer| > MAX_ANSWER ==>
      Checked(u, h, Continue, false, true, noProgress, NoProgress, message, checks)
  {
    hide Claim, Stuck, Checks, Seen, Proposed, EndOf, Streak;
    QuietEnds(u, h);
  }

  lemma CheckStarts(u: Setup, h: seq<Answer>, reason: Reason, answer: string, noProgress: bool, checks: nat, seen: bool)
    requires Claimed(u, h, reason, answer, noProgress, checks) && answer != ""
    ensures Checking(u, h + [Observed(seen)], reason, answer, seen, noProgress, checks)
  {
    hide Claim, Stuck, Checks, Seen, Proposed, EndOf, Streak;
    Skips(u, h, Observed(seen));
  }

  lemma CheckSees(u: Setup, h: seq<Answer>, reason: Reason, proposed: string, seen: bool, noProgress: bool, checks: nat, ok: bool)
    requires Checking(u, h, reason, proposed, seen, noProgress, checks) && h != []
    ensures Checking(u, h + [Quiet], reason, proposed, seen, noProgress, checks)
    ensures Checking(u, h + [Observed(ok)], reason, proposed, seen || ok, noProgress, checks)
  {
    hide Claim, Stuck, Checks, Seen, Proposed, EndOf, Streak;
    Skips(u, h, Quiet);
    Skips(u, h, Observed(ok));
  }

  lemma CheckGoesOn(u: Setup, h: seq<Answer>, reason: Reason, proposed: string, seen: bool, noProgress: bool, checks: nat, v: Verdict)
    requires Checking(u, h, reason, proposed, seen, noProgress, checks) && checks + 1 < MAX_CHECKS
    requires !v.complete && (v.correction != "" ==> !v.inspect)
    ensures Checking(u, h + [Judged(v)], reason, if v.correction != "" then v.correction else proposed, seen, noProgress, checks + 1)
  {
    hide Claim, Stuck, Checks, Seen, Proposed, EndOf, Streak;
    Skips(u, h, Judged(v));
  }

  /** The last verdict: the claim stands, or there is no progress, or the run goes on. */
  lemma CheckIsOver(u: Setup, h: seq<Answer>, reason: Reason, proposed: string, seen: bool, noProgress: bool, checks: nat, v: Verdict,
                    message: string)
    requires Checking(u, h, reason, proposed, seen, noProgress, checks)
    requires v.complete || v.inspect || v.correction == "" || checks + 1 >= MAX_CHECKS
    ensures var t, n := h + [Judged(v)], checks + 1;
      if v.complete && v.approves && seen then Checked(u, t, Continue, true, noProgress, noProgress, reason, proposed, n)
      else if v.complete || v.correction != "" || v.inspect || u.guarded || n >= MAX_CHECKS
      then Checked(u, t, Continue, false, true, noProgress, NoProgress, message, n)
      else Checked(u, t, Continue, false, noProgress, noProgress, Stopped, "", n)
  {
    hide Claim, Stuck, Checks, Seen, Proposed, EndOf, Streak;
    Skips(u, h, Judged(v));
    JudgedEnds(u, h, v);
  }

  lemma CheckIsDown(u: Setup, h: seq<Answer>, noProgress: bool, stuck: bool, message: string, checks: nat)
    requires h != [] && h[|h| - 1].Down? && checks <= MAX_CHECKS
    ensures Checked(u, h, Continue, false, true, stuck, ModelError, message, checks)
    ensures Settles(u, h, Break, false, noProgress, ModelError, message, checks)
  {
    hide EndOf;
    OtherEnds(u, h);
  }

  /** After the check a turn goes on, or breaks with the reason it has. */
  lemma CheckSettles(u: Setup, h: seq<Answer>, flow: Flow, finished: bool, noProgress: bool, stuck: bool,
                     reason: Reason, answer: string, checks: nat)
    requires Checked(u, h, flow, finished, noProgress, stuck, reason, answer, checks)
    ensures !flow.Break? && (flow.Throws() ==> Settles(u, h, flow, finished, noProgress, reason, answer, checks) && !finished)
    ensures flow.Continue? ==>
      Settles(u, h, if !finished && !noProgress then Continue else Break, finished, noProgress,
        if !finished && noProgress && !reason.ModelError? then NoProgress else reason, answer, checks)
    ensures flow.Continue? && !finished && noProgress && !reason.ModelError? && !stuck ==> reason.NoProgress?
  {
    hide EndOf, Proposed, Checks;
  }

  lemma ClaimFacts(u: Setup, h: seq<Answer>, reason: Reason, answer: string, noProgress: bool, checks: nat)
    requires Claimed(u, h, reason, answer, noProgress, checks)
    ensures !reason.ContextLimit? && checks < MAX_CHECKS
  {
    hide Claim, Proposed, Stuck, Seen, Checks;
  }

  lemma CheckingFacts(u: Setup, h: seq<Answer>, reason: Reason, proposed: string, seen: bool, noProgress: bool, checks: nat)
    requires Checking(u, h, reason, proposed, seen, noProgress, checks)
    ensures checks < MAX_CHECKS && !reason.ContextLimit?
  {
    hide Claim, Proposed, Stuck, Seen, Checks;
  }

  lemma CheckedReason(u: Setup, h: seq<Answer>, flow: Flow, finished: bool, noProgress: bool, stuck: bool,
                      reason: Reason, answer: string, checks: nat)
    requires Checked(u, h, flow, finished, noProgress, stuck, reason, answer, checks)
    ensures !reason.ContextLimit?
  {
    hide EndOf, Proposed, Checks;
  }

  /** Whether failures had repeated matters only to a run without progress. */
  lemma CheckedStuck(u: Setup, h: seq<Answer>, flow: Flow, reason: Reason, answer: string, stuck: bool)
    requires Checked(u, h, flow, false, false, false, reason, answer, 0)
    ensures Checked(u, h, flow, false, false, stuck, reason, answer, 0)
  {
    hide EndOf, Proposed, Checks;
  }

  lemma StartSettles(u: Setup, h: seq<Answer>, a: Answer, answer: string, checks: nat)
    requires a in {Go, StopSignal}
    ensures Checks(h + [a]) == Checks(h)
    ensures Settles(u, h + [a], Break, false, false, if a.Go? then ContextLimit else Interrupted, answer, checks)
  {
    hide EndOf, Checks, Proposed, Streak;
    Begins(u, h, a);
    OtherEnds(u, h + [a]);
  }

  lemma NothingSettles(u: Setup, reason: Reason, answer: string)
    ensures Settles(u, [], Continue, false, false, reason, answer, 0)
  {
  }

  lemma SettledFacts(u: Setup, h: seq<Answer>, flow: Flow, finished: bool, noProgress: bool, reason: Reason, answer: string, checks: nat)
    requires Settles(u, h, flow, finished, noProgress, reason, answer, checks)
    ensures flow.Continue? ==> !finished && !noProgress && checks == Checks(h) < MAX_CHECKS
    ensures finished ==> flow.Break? && answer == Proposed(u, h)
    ensures flow.Break? ==> EndOf(u, h) == Some(reason) && (finished <==> reason in {DoneCalled, Answered, Stopped})
    ensures flow.Throws() ==> h != [] && (h[|h| - 1] == Failed(flow) || (flow.ThrowTimeout? && h[|h| - 1].Late?))
  {
  }

  lemma LateSettles(u: Setup, h: seq<Answer>, noProgress: bool, reason: Reason, answer: string, checks: nat)
    ensures Settles(u, h + [Late], ThrowTimeout, false, noProgress, reason, answer, checks)
  {
  }


  /** What a result says after the human steered. */
  function Revised(r: ToolResult): string {
    if r.name == "done" then "Completion deferred because new human steering arrived." else r.content
  }

  function Deferred(results: seq<ToolResult>): (r: seq<ToolResult>)
    ensures |r| == |results|
    ensures forall i :: 0 <= i < |r| ==> r[i].id == results[i].id && r[i].name == results[i].name
    ensures forall i :: 0 <= i < |r| ==> r[i].content == Revised(results[i])
  {
    seq(|results|, i requires 0 <= i < |results| =>
      results[i].(content := Revised(results[i])))
  }

  // ---- the run ----

  /** The tracked size, the sizes tested, the transcript and the row of failures are those of what was
      heard and said. */
  ghost predicate Agree(ms: seq<Message>, chars: int, tests: seq<(seq<Message>, int)>, h: seq<Answer>,
                        repeated: (string, nat), len: Message -> nat)
  {
    && chars == JsonLength(ms, len) && (forall t :: t in tests ==> t.1 == JsonLength(t.0, len))
    && Recorded(h, ms) && repeated == Streak(h)
  }

  lemma AgreeNext(u: Setup, ms: seq<Message>, chars: int, tests: seq<(seq<Message>, int)>, h: seq<Answer>,
                  repeated: (string, nat), len: Message -> nat, a: Answer)
    requires Agree(ms, chars, tests, h, repeated, len) && !a.Used? && !a.Guided?
    requires a.Said? ==> Assistant(a.text, a.calls) in ms
    ensures Agree(ms, chars, tests, h + [a], repeated, len)
  {
    hide Streak, Recorded, JsonLength, Stuck, Checks, Seen, Proposed, Claim;
    RecordedNext(h, ms, a);
    if a.Quiet? || a.Observed? || a.Judged? { Skips(u, h, a); } else { Begins(u, h, a); }
  }

  lemma AgreeGuided(u: Setup, ms: seq<Message>, chars: int, tests: seq<(seq<Message>, int)>, h: seq<Answer>,
                    repeated: (string, nat), len: Message -> nat, text: string, at: Place)
    requires Agree(ms, chars, tests, h, repeated, len) && ms != [] && ms[|ms| - 1] == User(text)
    ensures Agree(ms, chars, tests, h + [Guided(text, at)], if at.AtTurn? then repeated else ("", 0), len)
  {
    hide Streak, Recorded, JsonLength, Stuck, Checks, Seen, Proposed, Claim, EndOf;
    Resets(u, h, text, at);
    assert ms[|ms| - 1] in ms;
    RecordedNext(h, ms, Guided(text, at));
  }

  lemma AgreeUsed(ms: seq<Message>, chars: int, tests: seq<(seq<Message>, int)>, h: seq<Answer>,
                  repeated: (string, nat), len: Message -> nat, a: Answer)
    requires Agree(ms, chars, tests, h, repeated, len) && a.Used?
    ensures Agree(ms, chars, tests, h + [a],
      if a.tool != "browser" then repeated
      else if a.signature != "" && a.signature == repeated.0 then (a.signature, repeated.1 + 1)
      else (a.signature, if a.signature != "" then 1 else 0), len)
  {
    hide Streak, Recorded, JsonLength, Stuck;
    StreakUsed(h, a);
    RecordedNext(h, ms, a);
  }

  lemma AgreeSaid(ms: seq<Message>, chars: int, tests: seq<(seq<Message>, int)>, h: seq<Answer>,
                  repeated: (string, nat), len: Message -> nat, m: Message)
    requires Agree(ms, chars, tests, h, repeated, len)
    ensures Agree(ms + [m], chars + (if ms != [] then 1 else 0) + len(m), tests, h, repeated, len)
  {
    hide Streak, Recorded, JsonLength;
    JsonAppend(ms, m, len);
    RecordedMore(h, ms, ms + [m]);
  }

  lemma AgreeRewritten(ms: seq<Message>, chars: int, tests: seq<(seq<Message>, int)>, h: seq<Answer>,
                       repeated: (string, nat), len: Message -> nat, k: nat, m: Message)
    requires Agree(ms, chars, tests, h, repeated, len) && k < |ms| && ms[k].Tool?
    ensures Agree(ms[k := m], chars + len(m) - len(ms[k]), tests, h, repeated, len)
  {
    hide Streak, Recorded, JsonLength;
    JsonRewrite(ms, k, m, len);
    RewriteKeeps(ms, k, m);
    RecordedMore(h, ms, ms[k := m]);
  }

  lemma AgreeParts(ms: seq<Message>, chars: int, tests: seq<(seq<Message>, int)>, h: seq<Answer>,
                   repeated: (string, nat), len: Message -> nat)
    requires Agree(ms, chars, tests, h, repeated, len)
    ensures chars == JsonLength(ms, len) && (forall t :: t in tests ==> t.1 == JsonLength(t.0, len)) && Recorded(h, ms)
    ensures Agree(ms, chars, tests + [(ms, chars)], h, repeated, len)
  {
  }

  class AgentRun {
    const len: Message -> nat
    const maxTranscriptChars: nat
    const setup: Setup
    var messages: seq<Message>
    var transcriptChars: int
    var finished: bool
    var noProgress: bool
    var answer: string
    var reason: Reason
    var repeated: (string, nat)
    var completionChecks: nat
    /** The transcript at each test of the size limit, with the size that was tested. */
    ghost var tests: seq<(seq<Message>, int)>
    /** All that the world has answered. */
    ghost var heard: seq<Answer>
    /** The rounds begun, and whether there was no time for another. */
    ghost var turns: nat
    ghost var late: bool

    ghost predicate Exact()
      reads this
    {
      Agree(messages, transcriptChars, tests, heard, repeated, len)
    }

    ghost predicate Valid()
      reads this
    {
      Exact() && WellPaired(messages)
    }

    constructor (history: seq<Message>, task: string, len: Message -> nat, maxTranscriptChars: nat, setup: Setup)
      requires WellPaired(history)
      ensures Valid() && messages == history + [User(task)] && tests == [] && heard == []
      ensures this.len == len && this.maxTranscriptChars == maxTranscriptChars && this.setup == setup
      ensures !finished && !noProgress && reason == Stopped && completionChecks == turns == 0 && !late
    {
      this.len, this.maxTranscriptChars, this.setup := len, maxTranscriptChars, setup;
      messages := history + [User(task)];
      transcriptChars := JsonLengthOf(history + [User(task)], len);
      finished, noProgress, answer, reason, tests := false, false, "", Stopped, [];
      repeated, completionChecks, heard, turns, late := ("", 0), 0, [], 0, false;
      AppendPlain(history, User(task));
    }

    /** The length of the initial messages as a JSON array. */
    static function JsonLengthOf(ms: seq<Message>, len: Message -> nat): (n: int)
      ensures n == JsonLength(ms, len)
    {
      if ms == [] then 2
      else if |ms| == 1 then
        assert SumLengths(ms[..0], len) == 0;
        2 + len(ms[0])
      else
        JsonLengthOf(ms[..|ms| - 1], len) + 1 + len(ms[|ms| - 1])
    }

    method AppendMessage(m: Message)
      requires Exact()
      modifies this`messages, this`transcriptChars
      ensures Exact() && messages == old(messages) + [m]
    {
      hide Agree;
      AgreeSaid(messages, transcriptChars, tests, heard, repeated, len, m);
      var separator := if messages != [] then 1 else 0;
      messages := messages + [m];
      transcriptChars := transcriptChars + separator + len(m);
    }

    /** Append a message without calls or results. */
    method Say(m: Message)
      requires Valid() && !m.Tool? && !HasCalls(m)
      modifies this`messages, this`transcriptChars
      ensures Valid() && messages == old(messages) + [m]
    {
      AppendPlain(messages, m);
      hide Agree, WellPaired;
      AppendMessage(m);
    }

    // ---- the world ----

    method LookForStop() returns (stopped: bool)
      requires Exact()
      modifies this`heard, this`turns
      ensures Exact() && heard == old(heard) + [if stopped then StopSignal else Go] && turns == old(turns) + 1
    {
      hide Agree;
      stopped := *;
      AgreeNext(setup, messages, transcriptChars, tests, heard, repeated, len, if stopped then StopSignal else Go);
      heard, turns := heard + [if stopped then StopSignal else Go], turns + 1;
    }

    /** A step of the world that may throw: a timeout, an interruption or another error. */
    method Attempt() returns (flow: Flow)
      requires Exact()
      modifies this`heard
      ensures Exact() && !flow.Break?
      ensures heard == if flow.Continue? then old(heard) else old(heard) + [Failed(flow)]
    {
      hide Agree;
      flow := *;
      if flow.Break? { flow := Continue; }
      if !flow.Continue? {
        AgreeNext(setup, messages, transcriptChars, tests, heard, repeated, len, Failed(flow));
        heard := heard + [Failed(flow)];
      }
    }

    /** The deadline has passed before another round. */
    method Expire()
      requires Exact()
      modifies this`heard, this`late
      ensures Exact() && heard == old(heard) + [Late] && late
    {
      hide Agree;
      AgreeNext(setup, messages, transcriptChars, tests, heard, repeated, len, Late);
      heard, late := heard + [Late], true;
    }

    /** Whether the model can be reached; if not, the bounded retries are over. */
    method ReachModel() returns (unavailable: bool)
      requires Exact()
      modifies this`heard
      ensures Exact() && heard == if unavailable then old(heard) + [Down] else old(heard)
    {
      hide Agree;
      unavailable := *;
      if unavailable {
        AgreeNext(setup, messages, transcriptChars, tests, heard, repeated, len, Down);
        heard := heard + [Down];
      }
    }

    /** The page as the completion check sees it. */
    method Observe() returns (ok: bool)
      requires Exact()
      modifies this`heard
      ensures Exact() && heard == old(heard) + [Observed(ok)]
    {
      hide Agree;
      ok := *;
      AgreeNext(setup, messages, transcriptChars, tests, heard, repeated, len, Observed(ok));
      heard := heard + [Observed(ok)];
    }

    method Judge() returns (verdict: Verdict)
      requires Exact()
      modifies this`heard
      ensures Exact() && heard == old(heard) + [Judged(verdict)]
    {
      hide Agree;
      verdict := *;
      AgreeNext(setup, messages, transcriptChars, tests, heard, repeated, len, Judged(verdict));
      heard := heard + [Judged(verdict)];
    }

    /** Collect human steering; append it if there is any. */
    method HumanGuidance(at: Place) returns (arrived: bool, ghost guidance: string)
      requires Exact() && WellPaired(messages)
      modifies this`messages, this`transcriptChars, this`heard, this`repeated
      ensures Valid()
      ensures !arrived ==> messages == old(messages) && heard == old(heard) + [Quiet] && repeated == old(repeated)
      ensures arrived ==> messages == old(messages) + [User(guidance)] && heard == old(heard) + [Guided(guidance, at)]
    {
      hide Agree, WellPaired;
      arrived, guidance := *, "";
      if arrived {
        var text: string := *;
        guidance := text;
        Say(User(text));
        AgreeGuided(setup, messages, transcriptChars, tests, heard, repeated, len, text, at);
        heard := heard + [Guided(text, at)];
        if !at.AtTurn? { repeated := ("", 0); }
      } else {
        AgreeNext(setup, messages, transcriptChars, tests, heard, repeated, len, Quiet);
        heard := heard + [Quiet];
      }
    }

    /** Put one call to its tool. */
    method UseTool(call: Call) returns (content: string, signature: string, final: Option<string>)
      requires Exact()
      modifies this`heard, this`repeated
      ensures Exact() && heard == old(heard) + [Used(call.name, content, signature, final)]
    {
      hide Agree;
      content, signature, final := *, *, *;
      AgreeUsed(messages, transcriptChars, tests, heard, repeated, len, Used(call.name, content, signature, final));
      heard := heard + [Used(call.name, content, signature, final)];
      if call.name == "browser" {
        repeated := if signature != "" && signature == repeated.0 then (signature, repeated.1 + 1)
          else (signature, if signature != "" then 1 else 0);
      }
    }

    // ---- one turn ----

    /** One model turn's tool calls, each given one result; a control signal cuts the batch short. */
    method ToolBatch(calls: seq<Call>) returns (flow: Flow, results: seq<ToolResult>, ghost used: seq<Answer>)
      requires Exact() && !finished && !noProgress
      requires heard != [] && heard[|heard| - 1].Said? && calls == heard[|heard| - 1].calls && calls != []
      modifies this`finished, this`noProgress, this`answer, this`reason, this`heard, this`repeated
      ensures Exact() && old(heard) <= heard && Checks(heard) == Checks(old(heard))
      ensures flow.Continue? ==> heard == old(heard) + used && Worked(calls, results, used) && (finished <==> Ended(calls, used))
      ensures flow.Continue? ==>
        && Claim(setup, heard) == (if finished then (DoneCalled, answer) else (NoProgress, ""))
        && noProgress == Stuck(heard) && !Seen(heard) && reason == if finished then DoneCalled else old(reason)
      ensures !flow.Continue? ==> flow.Throws() && !finished && reason == old(reason) && heard != [] && heard[|heard| - 1] == Failed(flow)
    {
      hide WellPaired, OpenTurn, Agree, JsonLength, Recorded, Streak, Stuck, Claim, Checks, Seen, Proposed, EndOf,
        DoneAnswer, ChromiumArgs.Trim, HasCalls, Answers, Worked, Ended, Deferred, Claimed,
        Checking, Checked, Settles, Batch, Finishes, AnsweredBy;
      results, flow, used := [], Continue, [];
      BatchStarts(setup, calls, heard);
      assert heard + [] == heard;
      for i := 0 to |calls|
        invariant flow.Continue? && Exact() && heard == old(heard) + used && reason == if finished then DoneCalled else old(reason)
        invariant Batch(setup, calls, i, results, old(heard), used, finished, answer, noProgress)
      {
        var call := calls[i];
        var content := Acknowledged(call.name);
        if call.name == "done" {
          BatchDone(setup, calls, i, results, old(heard), used, finished, answer, noProgress);
          answer, reason, finished := ChromiumArgs.Trim(setup.answerIn(call.input)), DoneCalled, true;
        } else if finished {
          BatchIgnores(setup, calls, i, results, old(heard), used, answer, noProgress);
        } else {
          BatchFails(setup, calls, i, results, old(heard), used, finished, answer, noProgress);
          ghost var a;
          ghost var before := (answer, noProgress);
          flow, content, a := WorkCall(call);
          if !flow.Continue? { return; }
          BatchUses(setup, calls, i, results, old(heard), used, before.0, before.1, a);
          assert old(heard) + used + [a] == old(heard) + (used + [a]);
          used := used + [a];
        }
        results := results + [ToolResult(call.id, call.name, content)];
      }
      BatchEnds(setup, calls, results, old(heard), used, finished, answer, noProgress);
    }

    /** One call put to its tool: a browser call may return the final answer, or fail once too often. */
    method WorkCall(call: Call) returns (flow: Flow, content: string, ghost a: Answer)
      requires Exact() && !finished
      modifies this`finished, this`noProgress, this`answer, this`reason, this`heard, this`repeated
      ensures Exact() && !flow.Break?
      ensures !flow.Continue? ==> !finished && reason == old(reason) && heard == old(heard) + [Failed(flow)]
      ensures flow.Continue? ==> a.Used? && a.tool == call.name && a.content == content && heard == old(heard) + [a]
      ensures flow.Continue? ==> finished == Finishes(a) && answer == (if Finishes(a) then a.final.value else old(answer))
      ensures flow.Continue? ==> reason == (if Finishes(a) then DoneCalled else old(reason))
      ensures flow.Continue? ==>
        noProgress == (old(noProgress) || (a.tool == "browser" && Streak(heard).1 >= REPEATED_FAILURE_LIMIT))
    {
      hide WellPaired, OpenTurn, Agree, JsonLength, Recorded, Streak, Stuck, Claim, Checks, Seen, Proposed, EndOf,
        DoneAnswer, ChromiumArgs.Trim, HasCalls, Answers, Worked, Ended, Deferred, Claimed,
        Checking, Checked, Settles, Batch, AnsweredBy;
      content := "";
      a := Go;
      flow := Attempt();
      if !flow.Continue? { return; }
      var signature, final;
      content, signature, final := UseTool(call);
      a := Used(call.name, content, signature, final);
      ExactRow();
      if call.name == "browser" {
        if repeated.1 >= REPEATED_FAILURE_LIMIT { noProgress := true; }
        if final.Some? { answer, reason, finished := final.value, DoneCalled, true; }
      }
    }

    lemma ExactRow()
      requires Exact()
      ensures repeated == Streak(heard)
    {
      hide Streak, Recorded, JsonLength;
    }

    /** End a run that a checkout completion check could not approve. */
    method GiveUp(message: string)
      requires Valid()
      modifies this`messages, this`transcriptChars, this`noProgress, this`reason, this`finished, this`answer
      ensures Valid() && messages == old(messages) + [Assistant(message, [])]
      ensures !finished && noProgress && reason == NoProgress && answer == message
    {
      hide WellPaired, OpenTurn, Agree, JsonLength, Recorded, Streak, Stuck, Claim, Checks, Seen, Proposed, EndOf,
        DoneAnswer, ChromiumArgs.Trim, HasCalls, Answers, Worked, Ended, Deferred;
      PlainHasNoCalls(message);
      finished, noProgress, reason, answer := false, true, NoProgress, message;
      Say(Assistant(message, []));
    }

    /** The completion check of checkout tasks. It may approve, correct, ask to go on or give up;
        whether the run goes on, ends or is finished after it follows from what was heard. */
    method CheckCheckoutCompletion() returns (flow: Flow)
      requires Valid() && finished && Claimed(setup, heard, reason, answer, noProgress, completionChecks)
      requires messages != [] && !messages[|messages| - 1].User?
      modifies this`messages, this`transcriptChars, this`noProgress, this`reason, this`finished, this`answer, this`heard,
        this`repeated, this`completionChecks
      ensures Valid() && old(messages) <= messages && old(heard) <= heard
      ensures Checked(setup, heard, flow, finished, noProgress, old(noProgress), reason, answer, completionChecks)
      ensures finished ==> messages != [] && !messages[|messages| - 1].User?
    {
      hide WellPaired, OpenTurn, Agree, JsonLength, Recorded, Streak, Stuck, Claim, Checks, Seen, Proposed, EndOf,
        DoneAnswer, ChromiumArgs.Trim, HasCalls, Answers, Worked, Ended, Deferred, Claimed,
        Checking, Checked, Settles, Batch, Finishes, AnsweredBy;
      flow := Continue;
      var message: string := *;
      ClaimStands(setup, heard, reason, answer, noProgress, completionChecks, message);
      ClaimFacts(setup, heard, reason, answer, noProgress, completionChecks);
      if !setup.checksCheckout || answer == "" { return; }
      if |answer| > MAX_ANSWER {
        GiveUp(message);
        return;
      }
      var proposed := answer;
      answer, finished := "", false;
      ghost var h := heard;
      flow := Attempt();
      if !flow.Continue? {
        FailedSettles(setup, heard, flow, noProgress, noProgress, reason, answer, completionChecks);
        return;
      }
      var seen := Observe();
      CheckStarts(setup, h, reason, proposed, noProgress, completionChecks, seen);
      var settled, verdict;
      flow, settled, proposed, seen, verdict, h := CheckRounds(proposed, seen);
      if settled { return; }
      Conclude(proposed, seen, verdict, h);
    }

    /** The rounds of the check, up to its last verdict; `settled` if they end without one. */
    method CheckRounds(first: string, seenFirst: bool)
      returns (flow: Flow, settled: bool, proposed: string, seen: bool, verdict: Verdict, ghost h: seq<Answer>)
      requires Valid() && !finished && heard != []
      requires Checking(setup, heard, reason, first, seenFirst, noProgress, completionChecks)
      modifies this`messages, this`transcriptChars, this`noProgress, this`reason, this`answer, this`heard,
        this`repeated, this`completionChecks
      ensures Valid() && old(messages) <= messages && old(heard) <= heard
      ensures settled ==> Checked(setup, heard, flow, finished, noProgress, old(noProgress), reason, answer, completionChecks)
      ensures !settled ==> flow.Continue? && messages == old(messages) && reason == old(reason) && noProgress == old(noProgress)
      ensures !settled ==> heard == h + [Judged(verdict)] && completionChecks > 0
      ensures !settled ==> Checking(setup, h, reason, proposed, seen, noProgress, completionChecks - 1)
      ensures !settled ==> verdict.complete || verdict.inspect || verdict.correction == "" || completionChecks >= MAX_CHECKS
    {
      hide WellPaired, OpenTurn, Agree, JsonLength, Recorded, Streak, Stuck, Claim, Checks, Seen, Proposed, EndOf,
        DoneAnswer, ChromiumArgs.Trim, HasCalls, Answers, Worked, Ended, Deferred, Claimed,
        Checking, Checked, Settles, Batch, Finishes, AnsweredBy;
      proposed, seen := first, seenFirst;
      while true
        invariant Valid() && messages == old(messages) && old(heard) <= heard && heard != []
        invariant reason == old(reason) && noProgress == old(noProgress)
        invariant Checking(setup, heard, reason, proposed, seen, noProgress, completionChecks)
        decreases MAX_CHECKS - completionChecks
      {
        CheckingFacts(setup, heard, reason, proposed, seen, noProgress, completionChecks);
        flow, settled, verdict, h := CheckRound(proposed, seen);
        var last := settled || verdict.complete || completionChecks >= MAX_CHECKS
          || (if verdict.correction != "" then verdict.inspect else !verdict.inspect);
        if last { return; }
        CheckGoesOn(setup, h, reason, proposed, seen, noProgress, completionChecks - 1, verdict);
        if verdict.correction != "" {
          proposed := verdict.correction;
        } else {
          // an unusable or repeated scope ends the check, and otherwise the page is looked at
          var refused: bool := *;
          if refused { return; }
          var ok;
          flow, ok, h := LookAgain(proposed, seen);
          if !flow.Continue? {
            settled := true;
            return;
          }
          seen := seen || ok;
        }
      }
    }

    /** One round: the model is asked, the human may speak, and the answer is a verdict. */
    method CheckRound(proposed: string, seen: bool)
      returns (flow: Flow, settled: bool, verdict: Verdict, ghost h: seq<Answer>)
      requires Valid() && !finished && heard != []
      requires Checking(setup, heard, reason, proposed, seen, noProgress, completionChecks)
      modifies this`messages, this`transcriptChars, this`noProgress, this`reason, this`answer, this`heard,
        this`repeated, this`completionChecks
      ensures Valid() && old(messages) <= messages && old(heard) <= heard && heard != []
      ensures settled ==> Checked(setup, heard, flow, finished, noProgress, old(noProgress), reason, answer, completionChecks)
      ensures !settled ==> flow.Continue? && messages == old(messages) && reason == old(reason) && noProgress == old(noProgress)
      ensures !settled ==> heard == h + [Judged(verdict)] && completionChecks == old(completionChecks) + 1
      ensures !settled ==> Checking(setup, h, reason, proposed, seen, noProgress, completionChecks - 1)
    {
      hide WellPaired, OpenTurn, Agree, JsonLength, Recorded, Streak, Stuck, Claim, Checks, Seen, Proposed, EndOf,
        DoneAnswer, ChromiumArgs.Trim, HasCalls, Answers, Worked, Ended, Deferred, Claimed,
        Checking, Checked, Settles, Batch, Finishes, AnsweredBy;
      CheckingFacts(setup, heard, reason, proposed, seen, noProgress, completionChecks);
      settled, verdict, h := true, Verdict(false, false, "", false), heard;
      completionChecks := completionChecks + 1;
      flow := Attempt();
      if !flow.Continue? {
        FailedSettles(setup, heard, flow, noProgress, noProgress, reason, answer, completionChecks);
        return;
      }
      var unavailable := ReachModel();
      if unavailable {
        var message: string := *;
        CheckIsDown(setup, heard, true, noProgress, message, completionChecks);
        noProgress, reason, answer := true, ModelError, message;
        return;
      }
      var arrived, guidance := HumanGuidance(InCheck);
      if arrived {
        GuidedSettles(setup, h, guidance, InCheck, Stopped, answer, 0);
        CheckedStuck(setup, heard, Continue, Stopped, answer, noProgress);
        reason, noProgress, completionChecks := Stopped, false, 0;
        return;
      }
      CheckSees(setup, h, reason, proposed, seen, noProgress, completionChecks - 1, false);
      settled, h := false, heard;
      verdict := Judge();
    }

    /** The check looks at the part of the page it asked for. */
    method LookAgain(proposed: string, seen: bool) returns (flow: Flow, ok: bool, ghost h: seq<Answer>)
      requires Valid() && !finished && heard != []
      requires Checking(setup, heard, reason, proposed, seen, noProgress, completionChecks)
      modifies this`heard
      ensures Valid() && old(heard) <= heard && h == old(heard) && heard != []
      ensures !flow.Continue? ==> Checked(setup, heard, flow, finished, noProgress, noProgress, reason, answer, completionChecks)
      ensures flow.Continue? ==> heard == old(heard) + [Observed(ok)]
      ensures flow.Continue? ==> Checking(setup, heard, reason, proposed, seen || ok, noProgress, completionChecks)
    {
      hide WellPaired, OpenTurn, Agree, JsonLength, Recorded, Streak, Stuck, Claim, Checks, Seen, Proposed, EndOf,
        DoneAnswer, ChromiumArgs.Trim, HasCalls, Answers, Worked, Ended, Deferred, Claimed,
        Checking, Checked, Settles, Batch, Finishes, AnsweredBy;
      CheckingFacts(setup, heard, reason, proposed, seen, noProgress, completionChecks);
      h, ok := heard, false;
      flow := Attempt();
      if !flow.Continue? {
        FailedSettles(setup, heard, flow, noProgress, noProgress, reason, answer, completionChecks);
        return;
      }
      ok := Observe();
      CheckSees(setup, h, reason, proposed, seen, noProgress, completionChecks, ok);
    }

    /** After the last verdict of the check. */
    method Conclude(proposed: string, seen: bool, verdict: Verdict, ghost h: seq<Answer>)
      requires Valid() && !finished && heard == h + [Judged(verdict)] && completionChecks > 0
      requires Checking(setup, h, reason, proposed, seen, noProgress, completionChecks - 1)
      requires verdict.complete || verdict.inspect || verdict.correction == "" || completionChecks >= MAX_CHECKS
      modifies this`messages, this`transcriptChars, this`noProgress, this`reason, this`finished, this`answer
      ensures Valid() && old(messages) <= messages
      ensures Checked(setup, heard, Continue, finished, noProgress, old(noProgress), reason, answer, completionChecks)
      ensures finished ==> messages != [] && messages[|messages| - 1] == Assistant(answer, [])
    {
      hide WellPaired, OpenTurn, Agree, JsonLength, Recorded, Streak, Stuck, Claim, Checks, Seen, Proposed, EndOf,
        DoneAnswer, ChromiumArgs.Trim, HasCalls, Answers, Worked, Ended, Deferred, Claimed,
        Checking, Checked, Settles, Batch, Finishes, AnsweredBy;
      var text: string, message: string := *, *;
      CheckIsOver(setup, h, reason, proposed, seen, noProgress, completionChecks - 1, verdict, message);
      PlainHasNoCalls(text);
      PlainHasNoCalls(proposed);
      PlainHasNoCalls(message);
      if seen && verdict.complete && verdict.approves {
        answer, finished := proposed, true;
        Say(Assistant(text, []));
        Say(Assistant(answer, []));
        return;
      }
      if verdict.complete || verdict.correction != "" {
        GiveUp(message);
        return;
      }
      Say(Assistant(text, []));
      if verdict.inspect || setup.guarded {
        GiveUp(message);
        return;
      }
      Say(User(message));
      finished, reason, answer := false, Stopped, "";
      if completionChecks >= MAX_CHECKS { noProgress, reason, answer := true, NoProgress, message; }
    }

    /** The model answered in prose. */
    method ProseTurn(text: string, stop: Reason) returns (flow: Flow)
      requires Valid() && !finished && !noProgress && completionChecks == Checks(heard) < MAX_CHECKS
      requires heard != [] && heard[|heard| - 1] == Said(text, [], stop)
      requires messages != [] && messages[|messages| - 1].Assistant? && !reason.ContextLimit?
      modifies this`messages, this`transcriptChars, this`noProgress, this`reason, this`finished, this`answer, this`heard,
        this`repeated, this`completionChecks
      ensures Valid() && old(messages) <= messages && old(heard) <= heard && !reason.ContextLimit?
      ensures Settles(setup, heard, flow, finished, noProgress, reason, answer, completionChecks)
      ensures finished ==> messages != [] && !messages[|messages| - 1].User?
    {
      hide WellPaired, OpenTurn, Agree, JsonLength, Recorded, Streak, Stuck, Claim, Checks, Seen, Proposed, EndOf,
        DoneAnswer, ChromiumArgs.Trim, HasCalls, Answers, Worked, Ended, Deferred, Claimed,
        Checking, Checked, Settles, Batch, Finishes, AnsweredBy;
      ghost var h := heard;
      var arrived, guidance := HumanGuidance(AtTurn);
      if arrived {
        GuidedSettles(setup, h, guidance, AtTurn, reason, answer, completionChecks);
        return Continue;
      }
      ProseClaims(setup, h, text, stop, completionChecks);
      answer := ChromiumArgs.Trim(text);
      if stop == MaxTokens || stop == Refusal {
        reason := stop;
        return Break;
      }
      reason, finished := if answer != "" then Answered else Stopped, true;
      flow := CheckAndSettle();
    }

    /** Check a claimed completion; the turn ends, or the run goes on. */
    method CheckAndSettle() returns (flow: Flow)
      requires Valid() && finished && Claimed(setup, heard, reason, answer, noProgress, completionChecks)
      requires messages != [] && !messages[|messages| - 1].User?
      modifies this`messages, this`transcriptChars, this`noProgress, this`reason, this`finished, this`answer, this`heard,
        this`repeated, this`completionChecks
      ensures Valid() && old(messages) <= messages && old(heard) <= heard && !reason.ContextLimit?
      ensures Settles(setup, heard, flow, finished, noProgress, reason, answer, completionChecks)
      ensures finished ==> messages != [] && !messages[|messages| - 1].User?
    {
      hide WellPaired, OpenTurn, Agree, JsonLength, Recorded, Streak, Stuck, Claim, Checks, Seen, Proposed, EndOf,
        DoneAnswer, ChromiumArgs.Trim, HasCalls, Answers, Worked, Ended, Deferred, Claimed,
        Checking, Checked, Settles, Batch, Finishes, AnsweredBy;
      ghost var stuck := noProgress;
      flow := CheckCheckoutCompletion();
      CheckSettles(setup, heard, flow, finished, noProgress, stuck, reason, answer, completionChecks);
      CheckedReason(setup, heard, flow, finished, noProgress, stuck, reason, answer, completionChecks);
      if flow.Continue? && !finished && noProgress && reason != ModelError { reason := NoProgress; }
      if flow.Continue? && (finished || noProgress) { flow := Break; }
    }

    /** The model issued tool calls: answer them, then apply steering that arrived meanwhile. */
    method ToolTurn(calls: seq<Call>) returns (flow: Flow, ghost results: seq<ToolResult>, ghost used: seq<Answer>)
      requires Exact() && OpenTurn(messages) && calls == messages[|messages| - 1].calls && calls != []
      requires !finished && !noProgress && completionChecks == Checks(heard) < MAX_CHECKS
      requires heard != [] && heard[|heard| - 1].Said? && calls == heard[|heard| - 1].calls && !reason.ContextLimit?
      modifies this`messages, this`transcriptChars, this`noProgress, this`reason, this`finished, this`answer, this`heard,
        this`repeated, this`completionChecks
      ensures Exact() && old(messages) <= messages && old(heard) <= heard
      ensures Settles(setup, heard, flow, finished, noProgress, reason, answer, completionChecks)
      ensures finished ==> messages != [] && !messages[|messages| - 1].User?
      ensures WellPaired(messages) || OpenTurn(messages)
      ensures flow in {Continue, Break} ==> WellPaired(messages)
      ensures !reason.ContextLimit?
      ensures messages == old(messages) || AnsweredBy(old(messages), messages, old(heard), heard, calls, results, used)
    {
      hide WellPaired, Agree, JsonLength, Recorded, Streak, Stuck, Claim, Checks, Seen, Proposed, EndOf,
        DoneAnswer, ChromiumArgs.Trim, HasCalls, Answers, Worked, Ended, Deferred, Claimed,
        Checking, Checked, Settles, Batch, Finishes, AnsweredBy;
      flow, results, used := Continue, [], [];
      var answers;
      flow, answers, used := ToolBatch(calls);
      if !flow.Continue? {
        FailedSettles(setup, heard, flow, noProgress, noProgress, reason, answer, completionChecks);
        return;
      }
      results := answers;
      WorkedAnswers(calls, answers, used);
      AppendAnswers(messages, Tool(answers));
      hide OpenTurn;
      ghost var h := heard;
      var at := |messages|;
      AppendMessage(Tool(answers));
      flow := SteerOrSettle(at, answers);
      AnsweredHere(old(messages), messages, old(heard), heard, calls, answers, used);
    }

    /** After a batch: steering that arrived meanwhile defers a completion; otherwise a claimed one is
        checked, and repeated failures end the run. */
    method SteerOrSettle(at: nat, answers: seq<ToolResult>) returns (flow: Flow)
      requires Valid() && |messages| == at + 1 && messages[at] == Tool(answers) && completionChecks == Checks(heard) < MAX_CHECKS
      requires heard != [] && (heard[|heard| - 1].Said? || heard[|heard| - 1].Used?) && !reason.ContextLimit?
      requires Claim(setup, heard) == (if finished then (DoneCalled, answer) else (NoProgress, ""))
      requires noProgress == Stuck(heard) && !Seen(heard) && (finished ==> reason.DoneCalled?)
      modifies this`messages, this`transcriptChars, this`noProgress, this`reason, this`finished, this`answer, this`heard,
        this`repeated, this`completionChecks
      ensures Valid() && |old(heard)| < |heard| && old(heard) <= heard && !reason.ContextLimit?
      ensures old(messages)[..at] + [Tool(if heard[|old(heard)|].Guided? then Deferred(answers) else answers)] <= messages
      ensures Settles(setup, heard, flow, finished, noProgress, reason, answer, completionChecks)
      ensures finished ==> messages != [] && !messages[|messages| - 1].User?
    {
      hide WellPaired, OpenTurn, Agree, JsonLength, Recorded, Streak, Stuck, Claim, Checks, Seen, Proposed, EndOf,
        DoneAnswer, ChromiumArgs.Trim, HasCalls, Answers, Worked, Ended, Deferred, Claimed,
        Checking, Checked, Settles, Batch, Finishes, AnsweredBy;
      flow := Continue;
      ghost var h := heard;
      ToolsClaim(setup, h, finished, reason, answer, noProgress, completionChecks);
      var arrived, guidance := HumanGuidance(AfterTools);
      if arrived {
        RewriteDone(at, answers);
        finished, reason, answer, noProgress := false, Stopped, "", false;
        GuidedSettles(setup, h, guidance, AfterTools, reason, answer, completionChecks);
      } else if finished {
        flow := CheckAndSettle();
      } else if noProgress {
        reason := NoProgress;
        flow := Break;
      }
    }

    /** Rewrite the batched `done` results inside the transcript, after a later message was appended. */
    method RewriteDone(at: nat, results: seq<ToolResult>)
      requires Valid() && at < |messages| && messages[at] == Tool(results)
      modifies this`messages, this`transcriptChars
      ensures Valid() && messages == old(messages)[at := Tool(Deferred(results))]
    {
      var deferred := Deferred(results);
      assert ResultIds(deferred) == ResultIds(results);
      RewriteResults(messages, at, deferred);
      hide Agree;
      AgreeRewritten(messages, transcriptChars, tests, heard, repeated, len, at, Tool(deferred));
      messages := messages[at := Tool(deferred)];
      transcriptChars := transcriptChars + len(Tool(deferred)) - len(Tool(results));
    }

    /** A turn of the model, appended to the transcript. */
    method HearModel() returns (text: string, calls: seq<Call>, stop: Reason)
      requires Valid()
      modifies this`messages, this`transcriptChars, this`heard
      ensures Exact() && heard == old(heard) + [Said(text, calls, stop)] && messages == old(messages) + [Assistant(text, calls)]
      ensures if calls == [] then WellPaired(messages) else OpenTurn(messages)
    {
      text, calls, stop := *, *, *;
      var m := Assistant(text, calls);
      if calls == [] { AppendPlain(messages, m); } else { AppendCalls(messages, m); }
      hide WellPaired, OpenTurn, Agree;
      AppendMessage(m);
      assert messages[|messages| - 1] == m;
      AgreeNext(setup, messages, transcriptChars, tests, heard, repeated, len, Said(text, calls, stop));
      heard := heard + [Said(text, calls, stop)];
    }

    /** One round of the loop, from the limit test to the end of the turn. */
    method Turn() returns (flow: Flow)
      requires Valid() && !finished && !noProgress && messages != [] && reason != ContextLimit
      requires completionChecks == Checks(heard) < MAX_CHECKS
      modifies this
      ensures Exact() && old(messages) <= messages && old(tests) <= tests
      ensures Settles(setup, heard, flow, finished, noProgress, reason, answer, completionChecks)
      ensures finished ==> messages != [] && !messages[|messages| - 1].User?
      ensures |old(heard)| < |heard| && old(heard) <= heard && heard[|old(heard)|] in {Go, StopSignal} && turns == old(turns) + 1
      ensures late == old(late)
      ensures |heard| == |old(heard)| + 1 || Collected(heard[|old(heard)| + 1])
      ensures WellPaired(messages) || OpenTurn(messages)
      ensures flow in {Continue, Break} ==> WellPaired(messages)
      ensures |tests| <= |old(tests)| + 1
      ensures reason == ContextLimit <==> |old(tests)| < |tests| && tests[|old(tests)|].1 > maxTranscriptChars
      ensures reason == ContextLimit ==> flow.Break?
    {
      hide WellPaired, OpenTurn, Agree, JsonLength, Recorded, Streak, Stuck, Claim, Checks, Seen, Proposed, EndOf,
        DoneAnswer, ChromiumArgs.Trim, HasCalls, Answers, Worked, Ended, Deferred, Claimed,
        Checking, Checked, Settles, Batch, Finishes, AnsweredBy;
      ghost var h := heard;
      var stopped := LookForStop();
      StartSettles(setup, h, heard[|h|], answer, completionChecks);
      if stopped {
        reason := Interrupted;
        return Break;
      }
      AgreeParts(messages, transcriptChars, tests, heard, repeated, len);
      tests := tests + [(messages, transcriptChars)];
      if transcriptChars > maxTranscriptChars {
        reason := ContextLimit;
        return Break;
      }
      flow := Proceed();
    }

    /** The rest of the round: guidance, the model's turn and what it asks for. */
    method Proceed() returns (flow: Flow)
      requires Valid() && !finished && !noProgress && messages != [] && reason != ContextLimit && heard != []
      requires completionChecks == Checks(heard) < MAX_CHECKS
      modifies this`messages, this`transcriptChars, this`noProgress, this`reason, this`finished, this`answer, this`heard,
        this`repeated, this`completionChecks
      ensures Exact() && old(messages) <= messages && old(heard) <= heard
      ensures |old(heard)| < |heard| && Collected(heard[|old(heard)|])
      ensures Settles(setup, heard, flow, finished, noProgress, reason, answer, completionChecks)
      ensures finished ==> messages != [] && !messages[|messages| - 1].User?
      ensures WellPaired(messages) || OpenTurn(messages)
      ensures flow in {Continue, Break} ==> WellPaired(messages)
      ensures !reason.ContextLimit?
    {
      hide WellPaired, OpenTurn, Agree, JsonLength, Recorded, Streak, Stuck, Claim, Checks, Seen, Proposed, EndOf,
        DoneAnswer, ChromiumArgs.Trim, HasCalls, Answers, Worked, Ended, Deferred, Claimed,
        Checking, Checked, Settles, Batch, Finishes, AnsweredBy;
      ghost var h := heard;
      var steered, guidance := HumanGuidance(AtTurn);
      if steered {
        Resets(setup, h, guidance, AtTurn);
      } else {
        Skips(setup, h, Quiet);
      }
      flow := AskModel();
    }

    /** The model's turn, and what it asks for. */
    method AskModel() returns (flow: Flow)
      requires Valid() && !finished && !noProgress && messages != [] && reason != ContextLimit && heard != []
      requires completionChecks == Checks(heard) < MAX_CHECKS
      modifies this`messages, this`transcriptChars, this`noProgress, this`reason, this`finished, this`answer, this`heard,
        this`repeated, this`completionChecks
      ensures Exact() && old(messages) <= messages && old(heard) <= heard
      ensures Settles(setup, heard, flow, finished, noProgress, reason, answer, completionChecks)
      ensures finished ==> messages != [] && !messages[|messages| - 1].User?
      ensures WellPaired(messages) || OpenTurn(messages)
      ensures flow in {Continue, Break} ==> WellPaired(messages)
      ensures !reason.ContextLimit?
    {
      hide WellPaired, OpenTurn, Agree, JsonLength, Recorded, Streak, Stuck, Claim, Checks, Seen, Proposed, EndOf,
        DoneAnswer, ChromiumArgs.Trim, HasCalls, Answers, Worked, Ended, Deferred, Claimed,
        Checking, Checked, Settles, Batch, Finishes, AnsweredBy;
      flow := Attempt();
      if !flow.Continue? {
        FailedSettles(setup, heard, flow, noProgress, noProgress, reason, answer, completionChecks);
        return;
      }
      var unavailable := ReachModel();
      if unavailable {
        CheckIsDown(setup, heard, noProgress, noProgress, answer, completionChecks);
        reason := ModelError;
        return Break;
      }
      ghost var h := heard;
      var text, calls, stop := HearModel();
      Begins(setup, h, Said(text, calls, stop));
      if calls == [] {
        flow := ProseTurn(text, stop);
      } else {
        ghost var results, used;
        flow, results, used := ToolTurn(calls);
      }
    }

    /** Rounds until one ends the run; without time for another one the deadline has passed. */
    method Rounds(budget: nat) returns (flow: Flow)
      requires Valid() && !finished && !noProgress && messages != [] && tests == [] && heard == [] && !reason.ContextLimit?
      requires completionChecks == turns == 0 && !late
      modifies this
      ensures Exact() && old(messages) <= messages && !flow.Continue? && heard != []
      ensures turns <= budget && (late ==> turns == budget && flow.ThrowTimeout? && heard[|heard| - 1].Late?)
      ensures WellPaired(messages) || OpenTurn(messages)
      ensures flow.Break? ==> WellPaired(messages)
      ensures Settles(setup, heard, flow, finished, noProgress, reason, answer, completionChecks)
      ensures finished ==> messages != [] && !messages[|messages| - 1].User?
      ensures reason == ContextLimit <==> tests != [] && tests[|tests| - 1].1 > maxTranscriptChars
      ensures reason == ContextLimit ==> flow.Break?
      ensures forall k :: 0 <= k < |tests| - 1 ==> tests[k].1 <= maxTranscriptChars
    {
      hide WellPaired, OpenTurn, Agree, JsonLength, Recorded, Streak, Stuck, Claim, Checks, Seen, Proposed, EndOf,
        DoneAnswer, ChromiumArgs.Trim, HasCalls, Answers, Worked, Ended, Deferred, Claimed,
        Checking, Checked, Settles, Batch, Finishes, AnsweredBy;
      flow := Continue;
      var left := budget;
      NothingSettles(setup, reason, answer);
      while flow.Continue?
        invariant Exact() && old(messages) <= messages && messages != []
        invariant WellPaired(messages) || OpenTurn(messages)
        invariant flow in {Continue, Break} ==> WellPaired(messages)
        invariant Settles(setup, heard, flow, finished, noProgress, reason, answer, completionChecks)
        invariant finished ==> !messages[|messages| - 1].User?
        invariant reason == ContextLimit <==> tests != [] && tests[|tests| - 1].1 > maxTranscriptChars
        invariant reason == ContextLimit ==> flow.Break?
        invariant forall k :: 0 <= k < |tests| - 1 ==> tests[k].1 <= maxTranscriptChars
        invariant turns + left == budget
        invariant !flow.Continue? ==> heard != []
        invariant late ==> left == 0 && flow.ThrowTimeout? && heard[|heard| - 1].Late?
        decreases flow.Continue?, left
      {
        SettledFacts(setup, heard, flow, finished, noProgress, reason, answer, completionChecks);
        if left == 0 {
          flow := ThrowTimeout;
          LateSettles(setup, heard, noProgress, reason, answer, completionChecks);
          Expire();
        } else {
          left := left - 1;
          flow := Turn();
        }
      }
    }

    /** Close an unfinished batch with stubs that tell an interruption. */
    method Close()
      requires (WellPaired(messages) || OpenTurn(messages)) && Recorded(heard, messages)
      modifies this`messages
      ensures WellPaired(messages) && old(messages) <= messages && Recorded(heard, messages)
      ensures old(messages) != messages <==> old(messages) != [] && HasCalls(old(messages)[|old(messages)| - 1])
      ensures old(messages) != messages ==> messages[|old(messages)|].Tool?
      ensures old(messages) != messages ==>
        forall r :: r in messages[|old(messages)|].results ==> r.content == Note(reason.Interrupted?)
      ensures WellPaired(old(messages)) ==> messages == old(messages)
    {
      hide WellPaired, OpenTurn, Recorded, Note, NoteFor, Streak;
      var sealed := SealTranscript(messages, reason == Interrupted);
      MoreMessages(messages, sealed);
      RecordedMore(heard, messages, sealed);
      messages := sealed;
    }

    /** The whole run. `threw` is an error that is not a timeout or an interruption. How it ends, and
        with which answer, follows from what was heard. */
    method Run(budget: nat) returns (ok: bool, threw: bool, ghost open: seq<Message>)
      requires Valid() && !finished && !noProgress && messages != [] && tests == [] && heard == [] && reason == Stopped
      requires completionChecks == turns == 0 && !late
      modifies this
      ensures turns <= budget && (late ==> turns == budget && reason == Timeout)
      // the transcript at the end of the loop gets the stubs of an unfinished batch, and nothing else
      ensures old(messages) <= open <= messages && (open != messages <==> open != [] && HasCalls(open[|open| - 1]))
      ensures open != messages ==>
        messages[|open|].Tool? && forall r :: r in messages[|open|].results ==> r.content == Note(reason.Interrupted?)
      ensures WellPaired(messages) && old(messages) <= messages && Recorded(heard, messages)
      ensures forall t :: t in tests ==> t.1 == JsonLength(t.0, len)
      ensures reason == ContextLimit <==> tests != [] && tests[|tests| - 1].1 > maxTranscriptChars
      ensures forall k :: 0 <= k < |tests| - 1 ==> tests[k].1 <= maxTranscriptChars
      ensures heard != [] && (threw <==> heard[|heard| - 1] == Failed(ThrowOther))
      ensures !threw ==> EndOf(setup, heard) == Some(reason)
      ensures ok <==> !threw && reason in {DoneCalled, Answered}
      ensures ok ==> answer == Proposed(setup, heard) && !messages[|messages| - 1].User?
    {
      hide WellPaired, OpenTurn, Agree, JsonLength, Recorded, Streak, Stuck, Claim, Checks, Seen, Proposed, EndOf,
        DoneAnswer, ChromiumArgs.Trim, HasCalls, Answers, Worked, Ended, Deferred, Claimed,
        Checking, Checked, Settles, Batch, Finishes, AnsweredBy, Note;
      var flow := Rounds(budget);
      SettledFacts(setup, heard, flow, finished, noProgress, reason, answer, completionChecks);
      OtherEnds(setup, heard);
      AgreeParts(messages, transcriptChars, tests, heard, repeated, len);
      if flow.ThrowTimeout? {
        reason := Timeout;
      } else if flow.ThrowInterrupt? {
        reason := Interrupted;
      }
      threw := flow.ThrowOther?;
      open := messages;
      Close();
      BreaksAreNotErrors(setup, heard);
      ok := finished && reason != Stopped;
    }
  }
}
