// Which workspace writes of a run are still in effect, and the delivery checks derived from them.

module WriteTimeline {
  import opened JsonValues
  import opened Prelude
  import opened Texts

  /** A tool result. What wording rules find in its content is given with it: whether it says that
      nothing was changed, whether it is an empty diff, and the paths its diff headers name. */
  datatype ToolResult = ToolResult(
    name: string,
    isError: bool,
    useless: bool,
    changed: Option<bool>,
    path: Option<string>,
    metadata: Json,
    saysNoWrite: bool,
    emptyDiff: bool,
    headerPaths: seq<string>)

  // ---- Paths ----

  function Slashed(path: string): string {
    if path == "" then "" else [if path[0] == '\\' then '/' else path[0]] + Slashed(path[1..])
  }

  function StripSet(s: string, chars: set<char>): string
    decreases |s|
  {
    if s != "" && s[0] in chars then StripSet(s[1..], chars)
    else if s != "" && s[|s| - 1] in chars then StripSet(s[..|s| - 1], chars)
    else s
  }

  function Lower(s: string): string {
    if s == "" then "" else [if 'A' <= s[0] <= 'Z' then s[0] + 32 as char else s[0]] + Lower(s[1..])
  }

  /** `_normalize_path`, with the lower case of ASCII letters. */
  function Key(path: string): string {
    Lower(StripSet(Strip(Slashed(path)), {'.', '/'}))
  }

  predicate EndsWith(s: string, suffix: string) {
    |suffix| <= |s| && s[|s| - |suffix|..] == suffix
  }

  predicate KeysMatch(a: string, b: string) {
    a == b || EndsWith(a, "/" + b) || EndsWith(b, "/" + a)
  }

  predicate MatchesAny(path: string, paths: set<string>) {
    exists p :: p in paths && KeysMatch(Key(path), Key(p))
  }

  // ---- Metadata ----

  /** The different texts of a list that are not blank, in the order of their first occurrence. */
  function TextsOf(items: seq<Json>): seq<string> {
    if items == [] then []
    else
      var before, last := TextsOf(items[..|items| - 1]), items[|items| - 1];
      if last.JText? && !IsBlank(last.text) && last.text !in before then before + [last.text] else before
  }

  function MetadataPaths(r: ToolResult, key: string): seq<string> {
    var values := Get(r.metadata, key);
    if values.JList? then TextsOf(values.items) else []
  }

  function WritePath(r: ToolResult): Option<string> {
    var changed := Get(r.metadata, "changed_path");
    if r.path.Some? && r.path.value != "" then r.path
    else if changed.JText? && !IsBlank(changed.text) then Some(changed.text)
    else None
  }

  function WrittenPaths(r: ToolResult): seq<string> {
    var paths := MetadataPaths(r, "changed_paths");
    if paths != [] then paths
    else match WritePath(r)
      case Some(p) => [p]
      case None => []
  }

  const WRITE_TOOLS := ["apply_patch", "apply_workspace_edit", "rollback_patch", "write_file"]

  predicate ChangedWorkspace(r: ToolResult) {
    var reported := Get(r.metadata, "workspace_changed");
    if reported.JBool? then reported.flag
    else !r.isError && if r.changed.Some? then r.changed.value else !r.saysNoWrite
  }

  predicate CommittedExecution(r: ToolResult) {
    var transaction := Get(r.metadata, "workspace_transaction_id");
    var isolation := Get(r.metadata, "isolation");
    var commit := Get(isolation, "workspace_output_commit");
    && r.name in ["shell", "run_tests"]
    && transaction.JText? && !IsBlank(transaction.text)
    && Get(r.metadata, "workspace_mutation_source") == JText("container_staged_copy")
    && Get(r.metadata, "workspace_changed") == JBool(true)
    && Get(r.metadata, "transaction_status") == JText("committed")
    && Get(isolation, "workspace_transport") == JText("staged-copy")
    && Get(commit, "state") == JText("committed")
    && Get(commit, "transaction_id") == transaction
    && WrittenPaths(r) != []
  }

  predicate IsWrite(r: ToolResult) {
    if r.name in WRITE_TOOLS then ChangedWorkspace(r) else CommittedExecution(r)
  }

  // ---- The last write ----

  function LastWrite(results: seq<ToolResult>): (i: int)
    ensures -1 <= i < |results|
    ensures i >= 0 ==> IsWrite(results[i])
    ensures forall j :: i < j < |results| ==> !IsWrite(results[j])
  {
    if results == [] then -1
    else if IsWrite(results[|results| - 1]) then |results| - 1
    else LastWrite(results[..|results| - 1])
  }

  /** `last_workspace_write_index`: a write with no write behind it. */
  method LastWorkspaceWriteIndex(results: seq<ToolResult>) returns (index: int)
    ensures index == LastWrite(results)
  {
    index := |results| - 1;
    while index >= 0 && !IsWrite(results[index])
      invariant -1 <= index < |results|
      invariant forall j :: index < j < |results| ==> !IsWrite(results[j])
    {
      index := index - 1;
    }
  }

  function AfterLastWrite(results: seq<ToolResult>): seq<ToolResult> {
    if LastWrite(results) < 0 then [] else results[LastWrite(results) + 1..]
  }

  // ---- The writes in effect ----

  predicate IsRollback(r: ToolResult) {
    r.name == "rollback_patch"
  }

  /** The paths a rollback takes back. */
  function TakenBack(r: ToolResult): seq<string> {
    var transaction := MetadataPaths(r, "transaction_paths");
    if !IsRollback(r) then [] else if transaction != [] then transaction else WrittenPaths(r)
  }

  /** The paths a write leaves changed. A rollback leaves only those it reports as still changed. */
  function LeftChanged(r: ToolResult): seq<string> {
    var effective := MetadataPaths(r, "effective_changed_paths");
    if effective != [] || IsRollback(r) then effective else WrittenPaths(r)
  }

  function Keys(paths: seq<string>): set<string> {
    set p | p in paths :: Key(p)
  }

  function Put(m: map<string, string>, paths: seq<string>): map<string, string> {
    if paths == [] then m else Put(m, paths[..|paths| - 1])[Key(paths[|paths| - 1]) := paths[|paths| - 1]]
  }

  function Effective(results: seq<ToolResult>): map<string, string> {
    if results == [] then map[]
    else
      var before, r := Effective(results[..|results| - 1]), results[|results| - 1];
      if IsWrite(r) then Put(before - Keys(TakenBack(r)), LeftChanged(r)) else before
  }

  method Forget(m: map<string, string>, taken: seq<string>) returns (paths: map<string, string>)
    ensures paths == m - Keys(taken)
  {
    paths := m;
    for k := 0 to |taken|
      invariant paths == m - Keys(taken[..k])
    {
      assert taken[..k + 1] == taken[..k] + [taken[k]];
      assert Keys(taken[..k + 1]) == Keys(taken[..k]) + {Key(taken[k])};
      paths := paths - {Key(taken[k])};
    }
    assert taken[..|taken|] == taken;
  }

  method Remember(m: map<string, string>, left: seq<string>) returns (paths: map<string, string>)
    ensures paths == Put(m, left)
  {
    paths := m;
    for k := 0 to |left|
      invariant paths == Put(m, left[..k])
    {
      assert left[..k + 1][..k] == left[..k];
      paths := paths[Key(left[k]) := left[k]];
    }
    assert left[..|left|] == left;
  }

  /** `effective_workspace_write_paths`: the dictionary it builds. */
  method EffectiveWorkspaceWritePaths(results: seq<ToolResult>) returns (paths: map<string, string>)
    ensures paths == Effective(results)
  {
    paths := map[];
    for i := 0 to |results|
      invariant paths == Effective(results[..i])
    {
      var result := results[i];
      assert results[..i + 1][..i] == results[..i];
      if IsWrite(result) {
        paths := Forget(paths, TakenBack(result));
        paths := Remember(paths, LeftChanged(result));
      }
    }
    assert results[..|results|] == results;
  }

  predicate Mentions(r: ToolResult, key: string) {
    IsWrite(r) && (key in Keys(TakenBack(r)) || key in Keys(LeftChanged(r)))
  }

  /** The last write that mentions the key left it changed. */
  ghost predicate InEffect(results: seq<ToolResult>, key: string) {
    exists i :: 0 <= i < |results| && Mentions(results[i], key) && key in Keys(LeftChanged(results[i]))
      && forall j :: i < j < |results| ==> !Mentions(results[j], key)
  }

  lemma {:induction false} PutKeys(m: map<string, string>, paths: seq<string>)
    ensures Put(m, paths).Keys == m.Keys + Keys(paths)
  {
    hide Key;
    if paths != [] {
      PutKeys(m, paths[..|paths| - 1]);
      KeysStep(paths);
    }
  }

  lemma KeysStep(paths: seq<string>)
    requires paths != []
    ensures Keys(paths) == Keys(paths[..|paths| - 1]) + {Key(paths[|paths| - 1])}
  {
    hide Key;
    assert paths == paths[..|paths| - 1] + [paths[|paths| - 1]];
  }

  lemma {:induction false} PutStaysKeyed(m: map<string, string>, paths: seq<string>)
    requires forall k :: k in m ==> Key(m[k]) == k
    ensures forall k :: k in Put(m, paths) ==> Key(Put(m, paths)[k]) == k
  {
    hide Key;
    if paths != [] {
      PutStaysKeyed(m, paths[..|paths| - 1]);
    }
  }

  /** A path is in the effective set exactly when the last write that mentions it left it changed. */
  lemma {:induction false} EffectiveIffLastMention(results: seq<ToolResult>, key: string)
    ensures key in Effective(results) <==> InEffect(results, key)
    ensures key in Effective(results) ==> Key(Effective(results)[key]) == key
  {
    if results != [] {
      var init, r := results[..|results| - 1], results[|results| - 1];
      forall k
        ensures k in Effective(init) <==> InEffect(init, k)
        ensures k in Effective(init) ==> Key(Effective(init)[k]) == k
      {
        EffectiveIffLastMention(init, k);
      }
      if IsWrite(r) {
        PutKeys(Effective(init) - Keys(TakenBack(r)), LeftChanged(r));
        PutStaysKeyed(Effective(init) - Keys(TakenBack(r)), LeftChanged(r));
      }
      LastMentionStep(init, r, key);
      assert results == init + [r];
    }
  }

  lemma LastMentionStep(init: seq<ToolResult>, r: ToolResult, key: string)
    ensures InEffect(init + [r], key) <==>
      if Mentions(r, key) then key in Keys(LeftChanged(r)) else InEffect(init, key)
  {
    hide Mentions, Keys, LeftChanged;
    var results := init + [r];
    assert results[|init|] == r;
    assert forall i :: 0 <= i < |init| ==> results[i] == init[i];
    if !Mentions(r, key) {
      if InEffect(init, key) {
        var i :| 0 <= i < |init| && Mentions(init[i], key) && key in Keys(LeftChanged(init[i]))
          && forall j :: i < j < |init| ==> !Mentions(init[j], key);
        assert Mentions(results[i], key);
      }
      if InEffect(results, key) {
        var i :| 0 <= i < |results| && Mentions(results[i], key) && key in Keys(LeftChanged(results[i]))
          && forall j :: i < j < |results| ==> !Mentions(results[j], key);
        assert Mentions(init[i], key);
      }
    }
  }
}

/** What the delivery checks find in a run's results. */
module DeliveryFindings {
  import opened JsonValues
  import opened Numerals
  import opened Prelude
  import opened WriteTimeline

  datatype Status = Pending | Passed | Failed | Blocked | Skipped

  datatype Finding = Finding(status: Status, reason: string, refs: seq<string>)

  /** A test plan that may say why no test can run. */
  datatype TestPlan = TestPlan(blocked: bool, reason: string)

  const CODE_TOOLS := ["read_file", "search_code", "lsp_definition", "lsp_references", "lsp_symbols",
    "lsp_workspace_symbols", "lsp_document_symbols"]

  /** The paths written by this run and by the unfinished task it continues. */
  function WritePaths(continued: seq<string>, results: seq<ToolResult>): set<string> {
    (set p | p in continued) + Effective(results).Values
  }

  function Newest4(refs: seq<string>): seq<string> {
    if |refs| <= 4 then refs else refs[|refs| - 4..]
  }

  function Refs(results: seq<ToolResult>): seq<string> {
    Newest4(seq(|results|, i requires 0 <= i < |results| => results[i].name + ":" + DecimalText(i + 1)))
  }

  // ---- Code evidence ----

  function EvidencePaths(r: ToolResult): seq<string> {
    var listed := Get(r.metadata, "evidence_paths");
    (if r.path.Some? && r.path.value != "" then [r.path.value] else [])
    + (if listed.JList? then AllTexts(listed.items) else [])
  }

  function AllTexts(items: seq<Json>): seq<string> {
    if items == [] then []
    else (if items[0].JText? then [items[0].text] else []) + AllTexts(items[1..])
  }

  predicate IsEvidence(r: ToolResult, paths: set<string>) {
    !r.isError && !r.useless && r.name in CODE_TOOLS && exists p :: p in EvidencePaths(r) && MatchesAny(p, paths)
  }

  function Evidence(results: seq<ToolResult>, paths: set<string>): seq<ToolResult> {
    if results == [] then []
    else
      var before, last := Evidence(results[..|results| - 1], paths), results[|results| - 1];
      if IsEvidence(last, paths) then before + [last] else before
  }

  function CodeFinding(continued: seq<string>, results: seq<ToolResult>): Finding {
    var evidence := Evidence(results, WritePaths(continued, results));
    Finding(
      if evidence != [] then Passed else Pending,
      if evidence != [] then "code evidence is path-related to the current effective write"
      else "awaiting successful read/search/LSP evidence related to the current effective write",
      Refs(evidence))
  }

  // ---- The diff ----

  function DiffPaths(r: ToolResult): seq<string> {
    var review := Get(Get(r.metadata, "patch_review"), "changed_paths");
    var named := if review.JList? then AllTexts(review.items) else [];
    if named != [] then named else r.headerPaths
  }

  predicate ShowsChange(r: ToolResult, paths: set<string>) {
    r.name == "git_diff" && !r.isError && !r.emptyDiff && exists p :: p in DiffPaths(r) && MatchesAny(p, paths)
  }

  /** The results that count for the diff and the paths it has to name. */
  function DiffScope(continued: seq<string>, results: seq<ToolResult>): (seq<ToolResult>, set<string>) {
    if LastWrite(results) >= 0 then (AfterLastWrite(results), Effective(results).Values)
    else (results, set p | p in continued)
  }

  predicate ChangeShown(continued: seq<string>, results: seq<ToolResult>) {
    var (scope, paths) := DiffScope(continued, results);
    exists i :: 0 <= i < |scope| && ShowsChange(scope[i], paths)
  }

  const DIFF_PASSED := Finding(Passed, "post-write git_diff reports a non-empty current diff", ["git_diff:1"])
  const DIFF_PENDING := Finding(Pending, "awaiting a non-empty post-write git_diff; empty diff cannot prove delivery", [])

  /** The finding about the diff; without a write in effect and without a diff there is none. */
  function DiffFinding(continued: seq<string>, results: seq<ToolResult>): Option<Finding> {
    if ChangeShown(continued, results) then Some(DIFF_PASSED)
    else if WritePaths(continued, results) != {} then Some(DIFF_PENDING)
    else None
  }

  // ---- The tests ----

  function Tests(results: seq<ToolResult>): (tests: seq<ToolResult>)
    ensures forall t :: t in tests ==> t.name == "run_tests"
  {
    if results == [] then []
    else
      var before, last := Tests(results[..|results| - 1]), results[|results| - 1];
      if last.name == "run_tests" then before + [last] else before
  }

  function AfterEffectiveWrite(continued: seq<string>, results: seq<ToolResult>): seq<ToolResult> {
    if LastWrite(results) >= 0 then AfterLastWrite(results) else if continued != [] then results else []
  }

  predicate Denied(r: ToolResult) {
    Get(r.metadata, "execution_status") == JText("denied") && Get(r.metadata, "denial_kind") == JText("approval")
  }

  function TestFinding(continued: seq<string>, results: seq<ToolResult>, plan: Option<TestPlan>): Finding {
    var tests := Tests(AfterEffectiveWrite(continued, results));
    if WritePaths(continued, results) == {} then Finding(Pending, "awaiting an effective workspace write", [])
    else if tests != [] then
      var latest := tests[|tests| - 1];
      if !latest.isError then Finding(Passed, "post-write test command succeeded", Refs(tests))
      else if Denied(latest) then Finding(Blocked, "test execution was denied by approval policy", Refs(tests))
      else Finding(Failed, "post-write test command failed", Refs(tests))
    else if plan.Some? && plan.value.blocked then Finding(Blocked, plan.value.reason, [])
    else Finding(Pending, "awaiting post-write test execution", [])
  }

  // ---- What the findings mean ----

  ghost predicate LatestSucceeds(scope: seq<ToolResult>) {
    exists i :: 0 <= i < |scope| && scope[i].name == "run_tests" && !scope[i].isError
      && forall j :: i < j < |scope| ==> scope[j].name != "run_tests"
  }

  /** The latest test run behind the last write of the run, or of all for a continued task, succeeded. */
  ghost predicate LatestTestSucceeded(continued: seq<string>, results: seq<ToolResult>) {
    (LastWrite(results) >= 0 || continued != []) && LatestSucceeds(results[LastWrite(results) + 1..])
  }

  lemma {:induction false} LastTest(results: seq<ToolResult>)
    ensures Tests(results) != [] && !Tests(results)[|Tests(results)| - 1].isError <==> LatestSucceeds(results)
  {
    hide LatestSucceeds;
    if results == [] {
      NothingSucceeds();
    } else {
      LastTest(results[..|results| - 1]);
      LatestSucceedsStep(results);
    }
  }

  lemma LatestSucceedsStep(results: seq<ToolResult>)
    requires results != []
    ensures var init, last := results[..|results| - 1], results[|results| - 1];
            LatestSucceeds(results) <==> if last.name == "run_tests" then !last.isError else LatestSucceeds(init)
  {
    var init, last := results[..|results| - 1], results[|results| - 1];
    if last.name != "run_tests" {
      if LatestSucceeds(init) {
        var i :| 0 <= i < |init| && init[i].name == "run_tests" && !init[i].isError
          && forall j :: i < j < |init| ==> init[j].name != "run_tests";
        assert results[i].name == "run_tests";
      }
      if LatestSucceeds(results) {
        var i :| 0 <= i < |results| && results[i].name == "run_tests" && !results[i].isError
          && forall j :: i < j < |results| ==> results[j].name != "run_tests";
        assert init[i].name == "run_tests";
      }
    }
  }

  /** The test item passes exactly when a write is in effect and the latest test run behind the last
      write succeeded. */
  lemma {:induction false} TestPassedIff(continued: seq<string>, results: seq<ToolResult>, plan: Option<TestPlan>)
    ensures TestFinding(continued, results, plan).status.Passed? <==>
      WritePaths(continued, results) != {} && LatestTestSucceeded(continued, results)
  {
    TestStatus(continued, results, plan);
    hide TestFinding, WritePaths, Tests, LatestSucceeds;
    LastTest(AfterEffectiveWrite(continued, results));
    NothingSucceeds();
    assert LastWrite(results) < 0 ==> results[LastWrite(results) + 1..] == results;
  }

  lemma TestStatus(continued: seq<string>, results: seq<ToolResult>, plan: Option<TestPlan>)
    ensures var tests := Tests(AfterEffectiveWrite(continued, results));
            TestFinding(continued, results, plan).status.Passed? <==>
              WritePaths(continued, results) != {} && tests != [] && !tests[|tests| - 1].isError
  {
    hide Refs, Denied, WritePaths, Tests, AfterEffectiveWrite;
  }

  lemma NothingSucceeds()
    ensures !LatestSucceeds([])
  {
  }

  lemma {:induction false} EvidenceExists(results: seq<ToolResult>, paths: set<string>)
    ensures Evidence(results, paths) != [] <==> exists i :: 0 <= i < |results| && IsEvidence(results[i], paths)
  {
    hide IsEvidence;
    if results != [] {
      var init := results[..|results| - 1];
      EvidenceExists(init, paths);
      assert forall i :: 0 <= i < |init| ==> init[i] == results[i];
    }
  }

  lemma {:induction false} Shown(continued: seq<string>, results: seq<ToolResult>)
    requires LastWrite(results) >= 0
    ensures ChangeShown(continued, results) <==>
      exists i :: 0 <= i < |AfterLastWrite(results)| && ShowsChange(AfterLastWrite(results)[i], Effective(results).Values)
    ensures DiffFinding(continued, results) == Some(DIFF_PASSED) <==> ChangeShown(continued, results)
  {
    hide ShowsChange, Effective, LastWrite, AfterLastWrite;
    assert DiffScope(continued, results) == (AfterLastWrite(results), Effective(results).Values);
    assert DIFF_PASSED.status != DIFF_PENDING.status;
  }

  /** Result `i` is a diff that is not empty and names a path `p` of a write in effect. */
  ghost predicate NamesEffective(results: seq<ToolResult>, i: nat, p: string, key: string)
    requires i < |results|
  {
    && results[i].name == "git_diff" && !results[i].isError && !results[i].emptyDiff
    && p in DiffPaths(results[i]) && InEffect(results, key) && KeysMatch(Key(p), key)
  }

  /** While a write of this run is in effect, the diff item passes exactly when a later diff that is not
      empty names a path whose last mention left it changed. */
  lemma {:induction false} DiffPassedIff(continued: seq<string>, results: seq<ToolResult>)
    requires LastWrite(results) >= 0
    ensures DiffFinding(continued, results) == Some(DIFF_PASSED) <==>
      exists i, p, k :: LastWrite(results) < i < |results| && NamesEffective(results, i, p, k)
  {
    Shown(continued, results);
    hide DiffFinding, ChangeShown, Effective, InEffect, Key, KeysMatch, DiffPaths, IsWrite;
    var scope, paths := AfterLastWrite(results), Effective(results).Values;
    var offset := LastWrite(results) + 1;
    assert |scope| == |results| - offset && forall i :: 0 <= i < |scope| ==> scope[i] == results[offset + i];
    if ChangeShown(continued, results) {
      var i :| 0 <= i < |scope| && ShowsChange(scope[i], paths);
      var p :| p in DiffPaths(scope[i]) && MatchesAny(p, paths);
      var w :| w in paths && KeysMatch(Key(p), Key(w));
      var k :| k in Effective(results) && Effective(results)[k] == w;
      EffectiveIffLastMention(results, k);
      assert results[offset + i] == scope[i] && NamesEffective(results, offset + i, p, k);
    }
    if i, p, k :| LastWrite(results) < i < |results| && NamesEffective(results, i, p, k) {
      EffectiveIffLastMention(results, k);
      assert Effective(results)[k] in paths;
      assert MatchesAny(p, paths);
      assert scope[i - offset] == results[i] && ShowsChange(scope[i - offset], paths);
    }
  }

  /** A new write whose paths are in effect moves both items off passed. */
  lemma {:induction false} NewWriteMovesOff(continued: seq<string>, results: seq<ToolResult>, write: ToolResult, plan: Option<TestPlan>)
    requires IsWrite(write)
    ensures !TestFinding(continued, results + [write], plan).status.Passed?
    ensures WritePaths(continued, results + [write]) != {} ==>
      DiffFinding(continued, results + [write]) == Some(DIFF_PENDING)
  {
    var longer := results + [write];
    assert longer[|results|] == write && LastWrite(longer) == |results|;
    assert AfterLastWrite(longer) == [];
  }

  /** But a rollback that leaves no write in effect gives no finding about the diff, so an item that
      passed before stays passed: here after a write, a diff that names it, and its rollback. */
  lemma RollbackKeepsDiffPassed() returns (results: seq<ToolResult>, rollback: ToolResult)
    ensures |results| == 2 && IsWrite(rollback)
    ensures DiffFinding([], results) == Some(DIFF_PASSED) && DiffFinding([], results + [rollback]) == None
  {
    var write := ToolResult("write_file", false, false, Some(true), Some("a"), JDict(End), false, false, []);
    var diff := ToolResult("git_diff", false, false, None, None, JDict(End), false, false, ["a"]);
    results, rollback := [write, diff], write.(name := "rollback_patch");
    assert LeftChanged(write) == ["a"] && TakenBack(write) == [] && IsWrite(write);
    assert LeftChanged(rollback) == [] && TakenBack(rollback) == ["a"] && IsWrite(rollback);
    assert !IsWrite(diff) && DiffPaths(diff) == ["a"];
    TakenBackAgain(write, diff, rollback);
  }

  lemma TakenBackAgain(write: ToolResult, diff: ToolResult, rollback: ToolResult)
    requires IsWrite(write) && LeftChanged(write) == ["a"] && TakenBack(write) == []
    requires IsWrite(rollback) && LeftChanged(rollback) == [] && TakenBack(rollback) == ["a"]
    requires !IsWrite(diff) && diff.name == "git_diff" && !diff.isError && !diff.emptyDiff && DiffPaths(diff) == ["a"]
    ensures DiffFinding([], [write, diff]) == Some(DIFF_PASSED)
    ensures DiffFinding([], [write, diff] + [rollback]) == None
  {
    hide IsWrite, LeftChanged, TakenBack, Key, DiffPaths;
    var none: map<string, string> := map[];
    var results := [write, diff];
    var longer := results + [rollback];
    var paths := Effective(results).Values;
    assert Put(none, ["a"]) == map[Key("a") := "a"] by {
      assert ["a"][..0] == [];
    }
    assert Effective([write]) == map[Key("a") := "a"] by {
      assert [write][..0] == [] && none - Keys([]) == none;
    }
    assert results[..1] == [write] && longer[..2] == results;
    assert Effective(results) == Effective([write]);
    assert Key("a") in Effective(results) && Effective(results)[Key("a")] == "a";
    assert Effective(longer) == none by {
      assert Keys(["a"]) == {Key("a")};
    }
    assert ShowsChange(diff, paths) by {
      assert "a" in DiffPaths(diff) && MatchesAny("a", paths);
    }
    assert LastWrite(results) == 0 && LastWrite(longer) == 2;
    Shown([], results);
    assert AfterLastWrite(results) == [diff] && AfterLastWrite(longer) == [];
    assert ShowsChange(AfterLastWrite(results)[0], paths);
    assert WritePaths([], longer) == {};
  }

  /** The diff item gets a finding at all exactly when a write is in effect. */
  lemma {:induction false} DiffFindingIff(continued: seq<string>, results: seq<ToolResult>)
    ensures DiffFinding(continued, results).Some? <==> WritePaths(continued, results) != {}
  {
    var (scope, paths) := DiffScope(continued, results);
    if ChangeShown(continued, results) {
      var i :| 0 <= i < |scope| && ShowsChange(scope[i], paths);
      var p :| p in DiffPaths(scope[i]) && MatchesAny(p, paths);
      var w :| w in paths && KeysMatch(Key(p), Key(w));
      assert w in WritePaths(continued, results);
    }
  }
}

module VerificationPlans {
  import opened DeliveryFindings
  import opened Numerals
  import opened Prelude
  import opened WriteTimeline

  const CODE_ITEM := "runtime-code-evidence"
  const DIFF_ITEM := "runtime-current-diff"
  const TEST_ITEM := "runtime-post-write-test"
  const REVIEW_ITEM := "runtime-review"

  class PlanItem {
    const id: string
    const enforceDelivery: bool
    var finding: Finding
    var attempts: nat

    constructor (id: string, enforceDelivery: bool, reason: string)
      ensures this.id == id && this.enforceDelivery == enforceDelivery
      ensures finding == Finding(Pending, reason, []) && attempts == 0
    {
      this.id, this.enforceDelivery := id, enforceDelivery;
      finding, attempts := Finding(Pending, reason, []), 0;
    }
  }

  /** The items that an attempt with a tool counts for. */
  function Watched(tool: string): seq<string> {
    if tool in CODE_TOOLS then [CODE_ITEM]
    else if tool == "run_tests" then [TEST_ITEM]
    else if tool == "git_diff" then [DIFF_ITEM, REVIEW_ITEM]
    else []
  }

  function AttemptsAt(id: string, results: seq<ToolResult>): nat {
    if results == [] then 0
    else AttemptsAt(id, results[..|results| - 1]) + if id in Watched(results[|results| - 1].name) then 1 else 0
  }

  /** Findings already carry no more references than an item keeps. */
  lemma RefsAreNewest(continued: seq<string>, results: seq<ToolResult>, plan: Option<TestPlan>)
    ensures Kept(CodeFinding(continued, results)) && Kept(TestFinding(continued, results, plan))
    ensures DiffFinding(continued, results).Some? ==> Kept(DiffFinding(continued, results).value)
  {
    var tests := Tests(AfterEffectiveWrite(continued, results));
    NewestAgain(Evidence(results, WritePaths(continued, results)));
    NewestAgain(tests);
    hide WritePaths, Evidence, Tests, ChangeShown, AfterEffectiveWrite, Refs, Denied;
  }

  lemma NewestAgain(results: seq<ToolResult>)
    ensures Newest4(Refs(results)) == Refs(results)
  {
  }

  predicate Kept(f: Finding) {
    f.(refs := Newest4(f.refs)) == f
  }

  // ---- A run of observations ----

  /** A result list is observed as it grows: each count is the length of a prefix. */
  predicate Growing(counts: seq<nat>, results: seq<ToolResult>) {
    && (forall i :: 0 <= i < |counts| ==> counts[i] <= |results|)
    && forall i :: 0 < i < |counts| ==> counts[i - 1] <= counts[i]
  }

  /** What the diff item holds after a run of observations: each that gives a finding replaces it. */
  function DiffItemAfter(continued: seq<string>, results: seq<ToolResult>, counts: seq<nat>, initial: Finding): Finding
    requires Growing(counts, results)
  {
    if counts == [] then initial
    else
      var latest := DiffFinding(continued, results[..counts[|counts| - 1]]);
      if latest.Some? then latest.value else DiffItemAfter(continued, results, counts[..|counts| - 1], initial)
  }

  /** The last observation at which a write was in effect. */
  ghost predicate LastInEffect(continued: seq<string>, results: seq<ToolResult>, counts: seq<nat>, i: nat)
    requires Growing(counts, results)
  {
    && i < |counts| && WritePaths(continued, results[..counts[i]]) != {}
    && forall j :: i < j < |counts| ==> WritePaths(continued, results[..counts[j]]) == {}
  }

  /** After any run of observations the diff item is passed exactly when the last observation with a
      write in effect showed the change, or when there was none and it was passed before. */
  lemma {:induction false} DiffItemPassedIff(continued: seq<string>, results: seq<ToolResult>, counts: seq<nat>, initial: Finding)
    requires Growing(counts, results)
    ensures DiffItemAfter(continued, results, counts, initial).status.Passed? <==>
      || (exists i: nat :: LastInEffect(continued, results, counts, i) && ChangeShown(continued, results[..counts[i]]))
      || (initial.status.Passed? && forall i :: 0 <= i < |counts| ==> WritePaths(continued, results[..counts[i]]) == {})
  {
    hide ChangeShown, WritePaths;
    if counts != [] {
      var n, before := |counts| - 1, counts[..|counts| - 1];
      DiffFindingIff(continued, results[..counts[n]]);
      if WritePaths(continued, results[..counts[n]]) != {} {
        assert LastInEffect(continued, results, counts, n);
      } else {
        DiffItemPassedIff(continued, results, before, initial);
        assert forall i :: 0 <= i < n ==> before[i] == counts[i];
        forall i: nat
          ensures LastInEffect(continued, results, counts, i) <==> LastInEffect(continued, results, before, i)
        {
          assert i == n || i >= |counts| || i < n;
        }
      }
    }
  }

  /** So a rolled back change stays passed at the item: after a write, a diff that names it and the
      rollback, each of them observed, no write is in effect and the item is passed. */
  lemma RolledBackItemStaysPassed(initial: Finding)
    ensures exists results: seq<ToolResult> ::
      && Growing([1, 2, 3], results) && |results| == 3
      && WritePaths([], results) == {} && DiffItemAfter([], results, [1, 2, 3], initial) == DIFF_PASSED
  {
    hide DiffFinding, WritePaths, DiffItemAfter, IsWrite;
    var results, rollback := RollbackKeepsDiffPassed();
    var longer := results + [rollback];
    assert longer[..3] == longer && longer[..2] == results;
    DiffFindingIff([], longer);
    ObservedTwice([], longer, initial);
  }

  /** An observation without a finding leaves what the one before it has set. */
  lemma ObservedTwice(continued: seq<string>, results: seq<ToolResult>, initial: Finding)
    requires |results| == 3
    ensures Growing([1, 2, 3], results)
    ensures DiffFinding(continued, results[..3]).None? && DiffFinding(continued, results[..2]).Some? ==>
      DiffItemAfter(continued, results, [1, 2, 3], initial) == DiffFinding(continued, results[..2]).value
  {
    hide DiffFinding;
    assert [1, 2, 3][..2] == [1, 2];
    assert DiffItemAfter(continued, results, [1, 2, 3], initial) ==
      if DiffFinding(continued, results[..3]).Some? then DiffFinding(continued, results[..3]).value
      else DiffItemAfter(continued, results, [1, 2], initial);
  }

  lemma {:induction false} AttemptsJoin(id: string, a: seq<ToolResult>, b: seq<ToolResult>)
    ensures AttemptsAt(id, a + b) == AttemptsAt(id, a) + AttemptsAt(id, b)
  {
    hide Watched;
    if b == [] {
      assert a + b == a;
    } else {
      AttemptsJoin(id, a, b[..|b| - 1]);
      assert (a + b)[..|a + b| - 1] == a + b[..|b| - 1];
    }
  }

  lemma NothingAttempted()
    ensures forall id :: AttemptsAt(id, []) == 0
  {
  }

  class VerificationPlan {
    const items: seq<PlanItem>
    const continued: seq<string>
    var observed: nat

    constructor (items: seq<PlanItem>, continued: seq<string>)
      ensures this.items == items && this.continued == continued && observed == 0
    {
      this.items, this.continued, observed := items, continued, 0;
    }

    /** The first item with an id. */
    function Item(id: string): (item: PlanItem?)
      ensures item != null ==> item in items && item.id == id
      ensures item == null ==> forall it :: it in items ==> it.id != id
    {
      FirstItem(items, id)
    }

    method Set(id: string, found: Finding) returns (changed: bool)
      modifies items
      ensures Item(id) == null ==> !changed
      ensures Item(id) != null ==>
        && Item(id).finding == found.(refs := Newest4(found.refs))
        && (changed <==> old(Item(id).finding) != Item(id).finding)
      ensures forall it :: it in items ==> it.attempts == old(it.attempts)
      ensures forall it :: it in items && it != Item(id) ==> it.finding == old(it.finding)
    {
      var item := Item(id);
      if item == null {
        return false;
      }
      var next := found.(refs := Newest4(found.refs));
      if item.finding == next {
        return false;
      }
      item.finding := next;
      return true;
    }

    method RecordAttempt(result: ToolResult) returns (changed: bool)
      modifies items
      ensures forall it :: it in items ==>
        && it.finding == old(it.finding)
        && it.attempts == old(it.attempts) + if it == Item(it.id) && it.id in Watched(result.name) then 1 else 0
      ensures changed <==> exists it :: it in items && it.attempts != old(it.attempts)
    {
      changed := false;
      var ids := Watched(result.name);
      for i := 0 to |ids|
        invariant forall it :: it in items ==>
          && it.finding == old(it.finding)
          && it.attempts == old(it.attempts) + if it == Item(it.id) && it.id in ids[..i] then 1 else 0
        invariant changed <==> exists it :: it in items && it.attempts != old(it.attempts)
      {
        assert ids[..i + 1] == ids[..i] + [ids[i]] && ids[i] !in ids[..i];
        var item := Item(ids[i]);
        if item != null {
          item.attempts := item.attempts + 1;
          assert item.attempts != old(item.attempts);
          changed := true;
        }
      }
      assert ids[..|ids|] == ids;
    }

    method RecordAttempts(results: seq<ToolResult>) returns (changed: bool)
      modifies items
      ensures forall it :: it in items ==>
        && it.finding == old(it.finding)
        && it.attempts == old(it.attempts) + if it == Item(it.id) then AttemptsAt(it.id, results) else 0
      ensures changed <==> exists it :: it in items && it.attempts != old(it.attempts)
    {
      changed := false;
      for i := 0 to |results|
        invariant forall it :: it in items ==>
          && it.finding == old(it.finding)
          && it.attempts == old(it.attempts) + if it == Item(it.id) then AttemptsAt(it.id, results[..i]) else 0
        invariant changed <==> exists it :: it in items && it.attempts != old(it.attempts)
      {
        assert results[..i + 1][..i] == results[..i];
        label before:
        var recorded := RecordAttempt(results[i]);
        if recorded {
          ghost var it: PlanItem :| it in items && it.attempts != old@before(it.attempts);
          assert it.attempts != old(it.attempts);
        }
        changed := changed || recorded;
      }
      assert results[..|results|] == results;
    }

    /** Which finding an item gets from the three that are derived; the diff may give none. */
    ghost function Derived(it: PlanItem, code: Finding, diff: Option<Finding>, test: Finding): Finding
      reads it
    {
      if it != Item(it.id) then it.finding
      else if it.id == CODE_ITEM then code
      else if it.id == TEST_ITEM then test
      else if it.id == DIFF_ITEM && diff.Some? then diff.value
      else it.finding
    }

    method SetFindings(code: Finding, diff: Option<Finding>, test: Finding) returns (changed: bool)
      requires Kept(code) && Kept(test) && (diff.Some? ==> Kept(diff.value))
      modifies items
      ensures forall it :: it in items ==>
        it.finding == old(Derived(it, code, diff, test)) && it.attempts == old(it.attempts)
      ensures changed <==> exists it :: it in items && it.finding != old(it.finding)
    {
      hide Newest4, FirstItem;
      changed := Set(CODE_ITEM, code);
      var more := false;
      if diff.Some? {
        more := Set(DIFF_ITEM, diff.value);
      }
      var last := Set(TEST_ITEM, test);
      changed := changed || more || last;
    }

    /** `observe`: counts the attempts of the new results and derives the findings from all of them. */
    method Observe(results: seq<ToolResult>, plan: Option<TestPlan>) returns (changed: bool)
      modifies this, items
      ensures items == [] ==> !changed && observed == old(observed)
      ensures items != [] ==> observed == |results|
      ensures forall it :: it in items ==> it.finding == old(Derived(it,
        CodeFinding(continued, results), DiffFinding(continued, results), TestFinding(continued, results, plan)))
      ensures var unseen := if old(observed) <= |results| then results[old(observed)..] else [];
              forall it :: it in items ==>
                it.attempts == old(it.attempts) + if it == Item(it.id) then AttemptsAt(it.id, unseen) else 0
      ensures changed <==>
        exists it :: it in items && (it.finding != old(it.finding) || it.attempts != old(it.attempts))
    {
      RefsAreNewest(continued, results, plan);
      hide CodeFinding, DiffFinding, TestFinding, Newest4, AttemptsAt, FirstItem, Kept;
      if items == [] {
        return false;
      }
      var unseen := if observed <= |results| then results[observed..] else [];
      observed := |results|;
      changed := RecordAttempts(unseen);
      var updated := SetFindings(
        CodeFinding(continued, results), DiffFinding(continued, results), TestFinding(continued, results, plan));
      changed := changed || updated;
    }

    /** `observe` called again and again on one growing list. The diff item then holds what the run of
        observations leaves; the other two derived items what the last one gives; and each result has
        been counted once, as an attempt on the items it concerns. */
    method ObserveAll(results: seq<ToolResult>, counts: seq<nat>, plans: seq<Option<TestPlan>>)
      requires Growing(counts, results) && |plans| == |counts| > 0 && observed <= counts[0]
      requires items != []
      modifies this, items
      ensures old(observed) <= observed == counts[|counts| - 1] <= |results|
      ensures Item(DIFF_ITEM) != null ==>
        Item(DIFF_ITEM).finding == DiffItemAfter(continued, results, counts, old(Item(DIFF_ITEM).finding))
      ensures Item(CODE_ITEM) != null ==> Item(CODE_ITEM).finding == CodeFinding(continued, results[..observed])
      ensures Item(TEST_ITEM) != null ==>
        Item(TEST_ITEM).finding == TestFinding(continued, results[..observed], plans[|plans| - 1])
      ensures forall it :: it in items && it == Item(it.id) ==>
        it.attempts == old(it.attempts) + AttemptsAt(it.id, results[old(observed)..observed])
    {
      hide CodeFinding, DiffFinding, TestFinding, AttemptsAt, FirstItem;
      ghost var start := observed;
      assert results[start..start] == [];
      NothingAttempted();
      var i := 0;
      while i < |counts|
        invariant i <= |counts|
        invariant start <= observed <= |results| && observed == if i == 0 then start else counts[i - 1]
        invariant Item(DIFF_ITEM) != null ==>
          Item(DIFF_ITEM).finding == DiffItemAfter(continued, results, counts[..i], old(Item(DIFF_ITEM).finding))
        invariant i > 0 && Item(CODE_ITEM) != null ==>
          Item(CODE_ITEM).finding == CodeFinding(continued, results[..observed])
        invariant i > 0 && Item(TEST_ITEM) != null ==>
          Item(TEST_ITEM).finding == TestFinding(continued, results[..observed], plans[i - 1])
        invariant forall it :: it in items && it == Item(it.id) ==>
          it.attempts == old(it.attempts) + AttemptsAt(it.id, results[start..observed])
      {
        ghost var before := observed;
        var _ := Observe(results[..counts[i]], plans[i]);
        assert counts[..i + 1][..i] == counts[..i];
        assert results[..counts[i]][before..] == results[before..observed];
        assert results[start..before] + results[before..observed] == results[start..observed];
        forall it | it in items {
          AttemptsJoin(it.id, results[start..before], results[before..observed]);
        }
        i := i + 1;
      }
      assert counts[..i] == counts;
    }
  }

  function FirstItem(items: seq<PlanItem>, id: string): (item: PlanItem?)
    ensures item != null ==> item in items && item.id == id
    ensures item == null ==> forall it :: it in items ==> it.id != id
  {
    if items == [] then null else if items[0].id == id then items[0] else FirstItem(items[1..], id)
  }
}
