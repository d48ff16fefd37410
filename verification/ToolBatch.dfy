// The batch loop of the agent: the tool calls of one assistant message and the results that answer them.

module ToolBatches {
  import opened Prelude

  datatype ToolCall = ToolCall(id: Option<string>, name: string)

  /** What the exploration phase decides after a result. `keep` says which calls of the batch a precise
      decision would still run. */
  datatype Decision = Finalize | Precise(hasCandidates: bool, keep: seq<bool>) | Undecided

  datatype Execution = Finished(isError: bool) | Interrupted(isError: bool)

  /** What the rest of the runtime answers while one call is handled. */
  datatype Turn = Turn(
    deadlineBefore: bool,
    execution: Execution,
    directiveExhausted: bool,
    explore: Option<Decision>,
    review: Option<bool>,
    terminates: bool,
    steers: bool,
    deadlineAfter: bool)

  datatype Message =
    | UserMessage
    | ToolMessage(position: nat, callId: Option<string>, name: string, isError: bool)

  datatype Outcome = NextStep | BudgetStop | InterruptRaised | Terminated

  /** The decision that the exploration phase really returns: only one that ends the exploration. */
  function AfterToolResult(evaluated: Option<Decision>): Option<Decision> {
    if evaluated == Some(Finalize) then evaluated else None
  }

  predicate Keeps(keep: seq<bool>, k: nat) {
    k < |keep| && keep[k]
  }

  /** The first call from `i` on that a precise decision keeps, or the end of the batch. */
  function FirstKept(keep: seq<bool>, i: nat, n: nat): (k: nat)
    requires i <= n
    ensures i <= k <= n
    decreases n - i
  {
    if i == n || Keeps(keep, i) then i else FirstKept(keep, i + 1, n)
  }

  /** The remaining calls that are answered without running, as the end of their range, and whether the
      batch goes on. */
  function Plan(d: Decision, i: nat, n: nat): (plan: (nat, bool))
    requires i <= n
    ensures i <= plan.0 <= n && (plan.1 ==> plan.0 < n)
  {
    match d
    case Finalize => (n, false)
    case Undecided => (i, false)
    case Precise(hasCandidates, keep) =>
      if i == n then (i, false)
      else if !hasCandidates then (n, false)
      else
        var k := FirstKept(keep, i, n);
        (k, k < n)
  }

  /** `plan_remaining_batch`. */
  method PlanRemainingBatch(d: Decision, i: nat, n: nat) returns (end: nat, continues: bool)
    requires i <= n
    ensures (end, continues) == Plan(d, i, n)
  {
    if d.Finalize? {
      return n, false;
    }
    if !d.Precise? || i == n {
      return i, false;
    }
    if !d.hasCandidates {
      return n, false;
    }
    end := i;
    while end < n
      invariant i <= end <= n && FirstKept(d.keep, i, n) == FirstKept(d.keep, end, n)
    {
      if Keeps(d.keep, end) {
        return end, true;
      }
      end := end + 1;
    }
    return end, false;
  }

  function Span(from: nat, to: nat): (s: seq<nat>)
    ensures |s| == (if from < to then to - from else 0) && forall k :: 0 <= k < |s| ==> s[k] == from + k
  {
    if from < to then seq(to - from, k requires 0 <= k => from + k) else []
  }

  function Ids(calls: seq<ToolCall>, lo: nat, hi: nat): set<string>
    requires lo <= hi <= |calls|
    decreases hi
  {
    if lo == hi then {}
    else Ids(calls, lo, hi - 1) + if calls[hi - 1].id.Some? then {calls[hi - 1].id.value} else {}
  }

  predicate Skips(call: ToolCall, paired: set<string>) {
    call.id.Some? && call.id.value in paired
  }

  predicate EndsBatch(call: ToolCall, t: Turn) {
    || (call.name == "git_diff" && t.execution == Finished(false) && t.review.Some?)
    || t.terminates || t.steers || t.deadlineAfter
  }

  /** The positions of the calls that are answered from call `i` on, in the order of the answers. */
  function Answers(calls: seq<ToolCall>, turns: seq<Turn>, i: nat, paired: set<string>): seq<nat>
    requires i <= |calls| == |turns|
    decreases |calls| - i, 1
  {
    if i == |calls| then []
    else if Skips(calls[i], paired) then Answers(calls, turns, i + 1, paired)
    else if turns[i].deadlineBefore then Span(i, |calls|)
    else if turns[i].execution.Interrupted? then [i] + Span(i + 1, |calls|)
    else [i] + FollowingAnswers(calls, turns, i, paired)
  }

  /** The positions answered after the result of call `i`. */
  function FollowingAnswers(calls: seq<ToolCall>, turns: seq<Turn>, i: nat, paired: set<string>): seq<nat>
    requires i < |calls| == |turns|
    decreases |calls| - i, 0
  {
    var n := |calls|;
    if turns[i].directiveExhausted then Span(i + 1, n)
    else if turns[i].explore.Some? then
      var (end, continues) := Plan(turns[i].explore.value, i + 1, n);
      Span(i + 1, end) + if continues then Answers(calls, turns, i + 1, paired + Ids(calls, i + 1, end)) else []
    else if EndsBatch(calls[i], turns[i]) then Span(i + 1, n)
    else Answers(calls, turns, i + 1, paired)
  }

  function Positions(messages: seq<Message>): seq<nat> {
    if messages == [] then []
    else
      var last := messages[|messages| - 1];
      Positions(messages[..|messages| - 1]) + if last.ToolMessage? then [last.position] else []
  }

  function Users(messages: seq<Message>): nat {
    if messages == [] then 0
    else Users(messages[..|messages| - 1]) + if messages[|messages| - 1].UserMessage? then 1 else 0
  }

  lemma Appended(messages: seq<Message>, m: Message)
    ensures Positions(messages + [m]) == Positions(messages) + if m.ToolMessage? then [m.position] else []
    ensures Users(messages + [m]) == Users(messages) + if m.UserMessage? then 1 else 0
  {
    assert (messages + [m])[..|messages|] == messages;
  }

  /** Why a batch ended as it did: an interrupt, a passed deadline or a termination at some call. */
  ghost predicate Justified(outcome: Outcome, turns: seq<Turn>) {
    match outcome
    case NextStep => true
    case InterruptRaised => exists i :: 0 <= i < |turns| && turns[i].execution.Interrupted?
    case BudgetStop => exists i :: 0 <= i < |turns| && (turns[i].deadlineBefore || turns[i].deadlineAfter)
    case Terminated => exists i :: 0 <= i < |turns| && turns[i].terminates
  }

  /** Every tool message carries the id and the name of the call it answers. */
  ghost predicate Paired(messages: seq<Message>, calls: seq<ToolCall>) {
    forall i :: 0 <= i < |messages| && messages[i].ToolMessage? ==>
      messages[i].position < |calls| && messages[i].callId == calls[messages[i].position].id
      && messages[i].name == calls[messages[i].position].name
  }

  lemma AnswersStep(calls: seq<ToolCall>, turns: seq<Turn>, i: nat, paired: set<string>)
    requires i < |calls| == |turns|
    ensures Answers(calls, turns, i, paired) ==
      if Skips(calls[i], paired) then Answers(calls, turns, i + 1, paired)
      else if turns[i].deadlineBefore then Span(i, |calls|)
      else if turns[i].execution.Interrupted? then Then([i], Span(i + 1, |calls|))
      else Then([i], FollowingAnswers(calls, turns, i, paired))
  {
  }

  lemma FollowingStep(calls: seq<ToolCall>, turns: seq<Turn>, i: nat, paired: set<string>)
    requires i < |calls| == |turns|
    ensures var n := |calls|;
            FollowingAnswers(calls, turns, i, paired) ==
              if turns[i].directiveExhausted then Span(i + 1, n)
              else if turns[i].explore.Some? then
                var (end, continues) := Plan(turns[i].explore.value, i + 1, n);
                Then(Span(i + 1, end),
                     if continues then Answers(calls, turns, i + 1, paired + Ids(calls, i + 1, end)) else [])
              else if EndsBatch(calls[i], turns[i]) then Span(i + 1, n)
              else Answers(calls, turns, i + 1, paired)
  {
  }

  /** One stretch of answers behind another. */
  function Then(a: seq<nat>, b: seq<nat>): seq<nat> {
    a + b
  }

  lemma Regrouped(a: seq<nat>, b: seq<nat>, c: seq<nat>)
    ensures Then(Then(a, b), c) == Then(a, Then(b, c))
    ensures Then(a, []) == a && Then([], a) == a
    ensures |Then(a, b)| == |a| + |b|
  {
  }

  lemma NothingFollows(a: seq<nat>)
    ensures Then(a, []) == a && Then([], a) == a
  {
  }

  lemma SpanNext(from: nat, k: nat)
    requires from <= k
    ensures Span(from, k + 1) == Then(Span(from, k), [k]) && Span(from, from) == [] && |Span(from, k)| == k - from
  {
  }

  lemma NextStepJustified(turns: seq<Turn>)
    ensures Justified(NextStep, turns)
  {
  }

  lemma JustifiedBy(turns: seq<Turn>, i: nat)
    requires i < |turns|
    ensures Justified(NextStep, turns)
    ensures turns[i].execution.Interrupted? ==> Justified(InterruptRaised, turns)
    ensures turns[i].deadlineBefore || turns[i].deadlineAfter ==> Justified(BudgetStop, turns)
    ensures turns[i].terminates ==> Justified(Terminated, turns)
  {
  }

  lemma NoneLeft(calls: seq<ToolCall>, turns: seq<Turn>, paired: set<string>)
    requires |calls| == |turns|
    ensures Answers(calls, turns, |calls|, paired) == []
  {
  }

  class AgentLoop {
    var messages: seq<Message>
    var recorded: nat

    constructor ()
      ensures messages == [] && recorded == 0
    {
      messages, recorded := [], 0;
    }

    /** `_append_tool_result`, with which `join_tool_result` also ends. */
    method AppendToolResult(calls: seq<ToolCall>, k: nat, isError: bool)
      requires k < |calls|
      modifies this
      ensures messages == old(messages) + [ToolMessage(k, calls[k].id, calls[k].name, isError)]
      ensures Positions(messages) == Then(old(Positions(messages)), [k]) && Users(messages) == old(Users(messages))
      ensures recorded == old(recorded) + 1
      ensures old(Paired(messages, calls)) ==> Paired(messages, calls)
    {
      recorded := recorded + 1;
      Appended(messages, ToolMessage(k, calls[k].id, calls[k].name, isError));
      messages := messages + [ToolMessage(k, calls[k].id, calls[k].name, isError)];
    }

    /** `_append_synthetic_tool_results` for the calls of a range. */
    method AppendSynthetic(calls: seq<ToolCall>, from: nat, to: nat)
      requires from <= to <= |calls|
      modifies this
      ensures Positions(messages) == Then(old(Positions(messages)), Span(from, to))
      ensures Users(messages) == old(Users(messages)) && recorded == old(recorded) + (to - from)
      ensures old(Paired(messages, calls)) ==> Paired(messages, calls)
    {
      hide Positions, Users, Paired, Span, Then;
      SpanNext(from, from);
      Regrouped(Positions(messages), [], []);
      for k := from to to
        invariant Positions(messages) == Then(old(Positions(messages)), Span(from, k))
        invariant Users(messages) == old(Users(messages)) && recorded == old(recorded) + (k - from)
        invariant old(Paired(messages, calls)) ==> Paired(messages, calls)
      {
        SpanNext(from, k);
        Regrouped(old(Positions(messages)), Span(from, k), [k]);
        AppendToolResult(calls, k, true);
      }
    }

    method AppendUserMessage(ghost calls: seq<ToolCall>)
      modifies `messages
      ensures messages == old(messages) + [UserMessage]
      ensures Positions(messages) == old(Positions(messages)) && Users(messages) == old(Users(messages)) + 1
      ensures old(Paired(messages, calls)) ==> Paired(messages, calls)
    {
      Appended(messages, UserMessage);
      messages := messages + [UserMessage];
    }

    /** The batch loop. */
    method RunBatch(calls: seq<ToolCall>, turns: seq<Turn>) returns (outcome: Outcome)
      requires |calls| == |turns| && Paired(messages, calls)
      modifies this
      ensures Paired(messages, calls)
      ensures Positions(messages) == Then(old(Positions(messages)), Answers(calls, turns, 0, {}))
      ensures recorded == old(recorded) + |Answers(calls, turns, 0, {})|
      ensures Users(messages) <= old(Users(messages)) + 1
      ensures Justified(outcome, turns)
    {
      hide Answers, Positions, Users, Paired, Justified, Then;
      Regrouped(Positions(messages), [], []);
      Regrouped(Answers(calls, turns, 0, {}), [], []);
      var paired: set<string> := {};
      ghost var added: seq<nat> := [];
      for i := 0 to |calls|
        invariant Paired(messages, calls)
        invariant Positions(messages) == Then(old(Positions(messages)), added)
        invariant Then(added, Answers(calls, turns, i, paired)) == Answers(calls, turns, 0, {})
        invariant recorded == old(recorded) + |added|
        invariant Users(messages) == old(Users(messages))
      {
        var done;
        ghost var more;
        done, paired, outcome, more := HandleCall(calls, turns, i, paired);
        Regrouped(old(Positions(messages)), added, more);
        Regrouped(added, more, if done then [] else Answers(calls, turns, i + 1, paired));
        Regrouped(Then(added, more), [], []);
        added := Then(added, more);
        if done {
          return;
        }
      }
      NoneLeft(calls, turns, paired);
      Regrouped(added, [], []);
      NextStepJustified(turns);
      return NextStep;
    }

    /** One turn of the batch loop: whether it leaves the loop, how, and what it added. */
    method HandleCall(calls: seq<ToolCall>, turns: seq<Turn>, i: nat, before: set<string>)
      returns (done: bool, paired: set<string>, outcome: Outcome, ghost added: seq<nat>)
      requires i < |calls| == |turns| && Paired(messages, calls)
      modifies this
      ensures Paired(messages, calls)
      ensures Positions(messages) == Then(old(Positions(messages)), added) && recorded == old(recorded) + |added|
      ensures Then(added, if done then [] else Answers(calls, turns, i + 1, paired)) == Answers(calls, turns, i, before)
      ensures Users(messages) <= old(Users(messages)) + 1 && (!done ==> Users(messages) == old(Users(messages)))
      ensures Justified(outcome, turns)
    {
      var n, call, t := |calls|, calls[i], turns[i];
      hide Answers, FollowingAnswers, Positions, Users, Span, Paired, Skips, Justified, Then;
      AnswersStep(calls, turns, i, before);
      JustifiedBy(turns, i);
      Regrouped(Positions(messages), [], []);
      Regrouped(Answers(calls, turns, i + 1, before), [], []);
      Regrouped(Span(i, n), [], []);
      Regrouped(Then([i], Span(i + 1, n)), [], []);
      done, paired, outcome, added := false, before, NextStep, [];
      if Skips(call, paired) {
        return;
      }
      if t.deadlineBefore {
        AppendSynthetic(calls, i, n);
        return true, paired, BudgetStop, Span(i, n);
      }
      AppendToolResult(calls, i, t.execution.isError);
      if t.execution.Interrupted? {
        AppendSynthetic(calls, i + 1, n);
        Regrouped(old(Positions(messages)), [i], Span(i + 1, n));
        return true, paired, InterruptRaised, Then([i], Span(i + 1, n));
      }
      ghost var more;
      done, paired, outcome, more := HandleResult(calls, turns, i, before);
      Regrouped(old(Positions(messages)), [i], more);
      Regrouped([i], more, if done then [] else Answers(calls, turns, i + 1, paired));
      added := Then([i], more);
    }

    /** The rest of the turn, once the result of the call was appended. */
    method HandleResult(calls: seq<ToolCall>, turns: seq<Turn>, i: nat, before: set<string>)
      returns (done: bool, paired: set<string>, outcome: Outcome, ghost added: seq<nat>)
      requires i < |calls| == |turns| && turns[i].execution.Finished? && Paired(messages, calls)
      modifies this
      ensures Paired(messages, calls)
      ensures Positions(messages) == Then(old(Positions(messages)), added) && recorded == old(recorded) + |added|
      ensures Then(added, if done then [] else Answers(calls, turns, i + 1, paired))
        == FollowingAnswers(calls, turns, i, before)
      ensures Users(messages) <= old(Users(messages)) + 1 && (!done ==> Users(messages) == old(Users(messages)))
      ensures Justified(outcome, turns)
    {
      hide Answers, FollowingAnswers, Positions, Users, Span, Plan, Paired, Ids, Justified, Then, EndsBatch;
      FollowingStep(calls, turns, i, before);
      JustifiedBy(turns, i);
      NothingFollows(Span(i + 1, |calls|));
      done, paired, outcome, added := true, before, NextStep, Span(i + 1, |calls|);
      if turns[i].directiveExhausted {
        StopBatch(calls, i, false);
      } else if turns[i].explore.Some? {
        done, paired, added := PlanRest(calls, turns, i, before);
      } else {
        done, outcome, added := Conclude(calls, turns, i);
        NothingFollows(Answers(calls, turns, i + 1, before));
      }
    }

    /** The exploration phase has decided: the suppressed calls are answered and their ids set aside. */
    method PlanRest(calls: seq<ToolCall>, turns: seq<Turn>, i: nat, before: set<string>)
      returns (done: bool, paired: set<string>, ghost added: seq<nat>)
      requires i < |calls| == |turns| && Paired(messages, calls)
      requires !turns[i].directiveExhausted && turns[i].explore.Some?
      modifies this
      ensures Paired(messages, calls)
      ensures Positions(messages) == Then(old(Positions(messages)), added) && recorded == old(recorded) + |added|
      ensures Then(added, if done then [] else Answers(calls, turns, i + 1, paired))
        == FollowingAnswers(calls, turns, i, before)
      ensures Users(messages) == old(Users(messages))
    {
      hide Answers, FollowingAnswers, Positions, Users, Plan, Paired, Ids, Then, EndsBatch;
      FollowingStep(calls, turns, i, before);
      var end, continues := PlanRemainingBatch(turns[i].explore.value, i + 1, |calls|);
      paired := before + Ids(calls, i + 1, end);
      AppendSynthetic(calls, i + 1, end);
      return !continues, paired, Span(i + 1, end);
    }

    /** No decision of the exploration phase: the batch ends here for another reason, or goes on. */
    method Conclude(calls: seq<ToolCall>, turns: seq<Turn>, i: nat)
      returns (done: bool, outcome: Outcome, ghost added: seq<nat>)
      requires i < |calls| == |turns| && Paired(messages, calls) && turns[i].execution.Finished?
      modifies this
      ensures Paired(messages, calls)
      ensures Positions(messages) == Then(old(Positions(messages)), added) && recorded == old(recorded) + |added|
      ensures done <==> EndsBatch(calls[i], turns[i])
      ensures added == if done then Span(i + 1, |calls|) else []
      ensures Users(messages) <= old(Users(messages)) + 1 && (!done ==> Users(messages) == old(Users(messages)))
      ensures Justified(outcome, turns)
    {
      var call, t := calls[i], turns[i];
      hide Positions, Users, Span, Paired, Justified, Then;
      JustifiedBy(turns, i);
      NothingFollows(Positions(messages));
      done, outcome, added := true, NextStep, Span(i + 1, |calls|);
      if call.name == "git_diff" && !t.execution.isError && t.review.Some? {
        StopBatch(calls, i, t.review.value);
      } else if t.terminates {
        StopBatch(calls, i, false);
        outcome := Terminated;
      } else if t.steers {
        StopBatch(calls, i, true);
      } else if t.deadlineAfter {
        StopBatch(calls, i, false);
        outcome := BudgetStop;
      } else {
        done, added := false, [];
      }
    }

    /** Ends the batch after call `i`: perhaps a user message first, then a result for every other call. */
    method StopBatch(calls: seq<ToolCall>, i: nat, steered: bool)
      requires i < |calls| && Paired(messages, calls)
      modifies this
      ensures Paired(messages, calls)
      ensures Positions(messages) == Then(old(Positions(messages)), Span(i + 1, |calls|))
      ensures Users(messages) == old(Users(messages)) + if steered then 1 else 0
      ensures recorded == old(recorded) + |Span(i + 1, |calls|)|
    {
      hide Positions, Users, Paired;
      if steered {
        AppendUserMessage(calls);
      }
      AppendSynthetic(calls, i + 1, |calls|);
    }
  }

  // ---- Each call is answered once ----

  /** The ids that setting suppressed calls aside relies on. The first call is never suppressed, and the
      last one not in a batch that goes on: the others need ids, and none of a later call. */
  predicate IdsSuffice(calls: seq<ToolCall>) {
    && (forall j :: 1 <= j < |calls| - 1 ==> calls[j].id.Some?)
    && forall j, m :: 1 <= j < m < |calls| ==> calls[j].id != calls[m].id
  }

  /** The exploration phase stops the batch with all remaining calls answered, or lets it go on in a
      batch whose ids suffice. Nothing remains behind the last call. */
  ghost predicate ExploresSafely(calls: seq<ToolCall>, turns: seq<Turn>) {
    forall i :: 0 <= i < |turns| && turns[i].explore.Some? ==>
      match turns[i].explore.value
      case Finalize => true
      case Undecided => i == |turns| - 1
      case Precise(hasCandidates, _) => hasCandidates ==> IdsSuffice(calls)
  }

  /** No turn but perhaps the last ends with a decision that is neither a stop nor a plan. */
  ghost predicate Decided(turns: seq<Turn>) {
    forall i :: 0 <= i < |turns| - 1 ==> turns[i].explore != Some(Undecided)
  }

  lemma {:induction false} IdsOfRange(calls: seq<ToolCall>, lo: nat, hi: nat)
    requires lo <= hi <= |calls|
    ensures forall id :: id in Ids(calls, lo, hi) <==> (exists k :: lo <= k < hi && calls[k].id == Some(id))
    decreases hi
  {
    if lo < hi {
      IdsOfRange(calls, lo, hi - 1);
    }
  }

  lemma SpanJoins(a: nat, b: nat, c: nat)
    requires a <= b <= c
    ensures Span(a, b) + Span(b, c) == Span(a, c)
  {
  }

  /** From call `i` on, with the calls up to `next` answered already and exactly their ids set aside. */
  lemma {:induction false} AnsweredFrom(calls: seq<ToolCall>, turns: seq<Turn>, i: nat, next: nat, paired: set<string>)
    requires i <= next <= |calls| == |turns| && ExploresSafely(calls, turns)
    requires next > i ==> IdsSuffice(calls) && next < |calls|
    requires forall k :: i <= k < |calls| ==> (Skips(calls[k], paired) <==> k < next)
    ensures Answers(calls, turns, i, paired) == Span(next, |calls|)
    decreases |calls| - i
  {
    var n := |calls|;
    if i < n {
      AnswersStep(calls, turns, i, paired);
      FollowingStep(calls, turns, i, paired);
      hide Answers, FollowingAnswers, Ids;
      if i < next {
        AnsweredFrom(calls, turns, i + 1, next, paired);
      } else {
        assert [i] + Span(i + 1, n) == Span(i, n);
        if turns[i].explore.Some? {
          var (end, continues) := Plan(turns[i].explore.value, i + 1, n);
          if continues {
            SkippedAfter(calls, i + 1, end, paired);
            AnsweredFrom(calls, turns, i + 1, end, paired + Ids(calls, i + 1, end));
          }
          SpanJoins(i + 1, end, n);
        } else {
          AnsweredFrom(calls, turns, i + 1, i + 1, paired);
        }
      }
    }
  }

  lemma SkippedAfter(calls: seq<ToolCall>, from: nat, to: nat, paired: set<string>)
    requires 1 <= from <= to < |calls| && IdsSuffice(calls)
    requires forall k :: from <= k < |calls| ==> !Skips(calls[k], paired)
    ensures forall k :: from <= k < |calls| ==> (Skips(calls[k], paired + Ids(calls, from, to)) <==> k < to)
  {
    IdsOfRange(calls, from, to);
    forall k | from <= k < |calls|
      ensures Skips(calls[k], Ids(calls, from, to)) <==> k < to
    {
      assert k < to ==> calls[k].id == Some(calls[k].id.value);
      assert forall l :: from <= l < to && l < k ==> calls[l].id != calls[k].id;
    }
  }

  /** For every batch and every way out of it, each call is answered exactly once, in order. */
  lemma {:induction false} EachCallAnsweredOnce(calls: seq<ToolCall>, turns: seq<Turn>)
    requires |calls| == |turns| && ExploresSafely(calls, turns)
    ensures Answers(calls, turns, 0, {}) == Span(0, |calls|)
  {
    AnsweredFrom(calls, turns, 0, 0, {});
  }

  /** With the decisions that the exploration phase really returns there is no condition left. */
  lemma {:induction false} AnsweredOnceAsDecided(calls: seq<ToolCall>, turns: seq<Turn>, evaluated: seq<Option<Decision>>)
    requires |calls| == |turns| == |evaluated|
    requires forall i :: 0 <= i < |turns| ==> turns[i].explore == AfterToolResult(evaluated[i])
    ensures Answers(calls, turns, 0, {}) == Span(0, |calls|)
  {
    EachCallAnsweredOnce(calls, turns);
  }

  const QUIET: Turn := Turn(false, Finished(false), false, None, None, false, false, false)

  lemma {:induction false} QuietAnswers(calls: seq<ToolCall>, turns: seq<Turn>, i: nat, stop: nat)
    requires i <= stop <= |calls| == |turns| && forall k :: i <= k < stop ==> turns[k] == QUIET
    ensures Answers(calls, turns, i, {}) == Span(i, stop) + Answers(calls, turns, stop, {})
    decreases stop - i
  {
    hide Answers, Span, Skips;
    if i < stop {
      QuietAnswers(calls, turns, i + 1, stop);
      QuietTurn(calls, turns, i, {});
      NoneSkipped(calls[i]);
      OneMore(i, stop, Answers(calls, turns, stop, {}));
    } else {
      SpanNext(i, i);
    }
  }

  lemma NoneSkipped(call: ToolCall)
    ensures !Skips(call, {})
  {
  }

  lemma OneMore(i: nat, stop: nat, rest: seq<nat>)
    requires i < stop
    ensures [i] + (Span(i + 1, stop) + rest) == Span(i, stop) + rest
  {
  }

  lemma QuietTurn(calls: seq<ToolCall>, turns: seq<Turn>, i: nat, paired: set<string>)
    requires i < |calls| == |turns| && turns[i] == QUIET
    ensures Answers(calls, turns, i, paired)
         == (if Skips(calls[i], paired) then [] else [i]) + Answers(calls, turns, i + 1, paired)
  {
    AnswersStep(calls, turns, i, paired);
    FollowingStep(calls, turns, i, paired);
  }

  lemma {:induction false} QuietNeverAnswers(calls: seq<ToolCall>, turns: seq<Turn>, i: nat, paired: set<string>, m: nat)
    requires i <= |calls| == |turns| && forall k :: i <= k < |calls| ==> turns[k] == QUIET
    requires m < |calls| && Skips(calls[m], paired)
    ensures m !in Answers(calls, turns, i, paired)
    decreases |calls| - i
  {
    if i < |calls| {
      hide Answers;
      QuietTurn(calls, turns, i, paired);
      QuietNeverAnswers(calls, turns, i + 1, paired, m);
    } else {
      assert Answers(calls, turns, i, paired) == [];
    }
  }

  /** Nothing happens but one decision, behind call `j - 1`, that suppresses just call `j`. */
  function SuppressOne(n: nat, j: nat): (turns: seq<Turn>)
    requires 1 <= j < n - 1
    ensures |turns| == n && Decided(turns)
  {
    seq(n, i => if i == j - 1 then QUIET.(explore := Some(Precise(true, seq(n, k => k > j)))) else QUIET)
  }

  lemma SuppressedOnce(calls: seq<ToolCall>, j: nat)
    requires 1 <= j < |calls| - 1
    ensures var turns := SuppressOne(|calls|, j);
            Answers(calls, turns, 0, {}) == Span(0, j + 1) + Answers(calls, turns, j, Ids(calls, j, j + 1))
  {
    var n, turns := |calls|, SuppressOne(|calls|, j);
    var keep := turns[j - 1].explore.value.keep;
    QuietAnswers(calls, turns, 0, j - 1);
    assert FirstKept(keep, j + 1, n) == j + 1;
    assert FirstKept(keep, j, n) == j + 1;
    assert FollowingAnswers(calls, turns, j - 1, {})
        == Span(j, j + 1) + Answers(calls, turns, j, {} + Ids(calls, j, j + 1));
    assert {} + Ids(calls, j, j + 1) == Ids(calls, j, j + 1);
    SpanJoins(0, j - 1, j);
    SpanJoins(0, j, j + 1);
    assert Span(j - 1, j) == [j - 1];
  }

  /** Where the ids do not suffice, some turns answer a call twice or never. */
  lemma {:induction false} SomeTurnsGoWrong(calls: seq<ToolCall>)
    requires !IdsSuffice(calls)
    ensures exists turns: seq<Turn> ::
              |turns| == |calls| && Decided(turns) && Answers(calls, turns, 0, {}) != Span(0, |calls|)
  {
    var n := |calls|;
    if j :| 1 <= j < n - 1 && calls[j].id.None? {
      var turns := SuppressOne(n, j);
      SuppressedOnce(calls, j);
      assert Ids(calls, j, j) == {} && Ids(calls, j, j + 1) == {};
      QuietAnswers(calls, turns, j, n);
      assert |Answers(calls, turns, 0, {})| == n + 1;
    } else {
      var j, m :| 1 <= j < m < n && calls[j].id == calls[m].id;
      var turns := SuppressOne(n, j);
      SuppressedOnce(calls, j);
      assert Ids(calls, j, j) == {} && Skips(calls[m], Ids(calls, j, j + 1));
      QuietNeverAnswers(calls, turns, j, Ids(calls, j, j + 1), m);
      assert m !in Answers(calls, turns, 0, {});
      assert Span(0, n)[m] == m;
    }
  }

  /** The exact condition for the plans of the exploration phase: each call is answered exactly once, in
      order, whatever happens in the turns, if and only if the ids suffice. */
  lemma {:induction false} AnsweredOnceIff(calls: seq<ToolCall>)
    ensures IdsSuffice(calls) <==>
              forall turns: seq<Turn> :: |turns| == |calls| && Decided(turns) ==>
                Answers(calls, turns, 0, {}) == Span(0, |calls|)
  {
    if IdsSuffice(calls) {
      forall turns: seq<Turn> | |turns| == |calls| && Decided(turns)
        ensures Answers(calls, turns, 0, {}) == Span(0, |calls|)
      {
        EachCallAnsweredOnce(calls, turns);
      }
    } else {
      SomeTurnsGoWrong(calls);
    }
  }
}
