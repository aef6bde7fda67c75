/**
 Aggregation of per-action policy decisions into one scenario verdict
 (pkg/validate/validate.go:298-318, pkg/validate/validate.go:345-476). The policy engine is a parameter.
 */
module Scenario {
  import opened Wrappers
  import opened Sorting
  import Strings
  import Decimal

  /** An action of a scenario; `body` stands for target, intent and payload. */
  datatype Action = Action(kind: string, body: string, riskTags: seq<string>)

  datatype Decision = Decision(allow: bool, policyRef: string, reason: string, reasons: seq<string>,
    hits: seq<string>, hints: seq<string>)

  /** Policy evaluation of an action with a valid kind; it may fail. */
  type Policy = Action -> Result<Decision, string>

  datatype ActionResult = ActionResult(index: nat, kind: string, pass: bool, riskLevel: string,
    ruleIDs: seq<string>, reasons: seq<string>, hints: seq<string>)

  datatype Evaluation = Evaluation(pass: bool, riskLevel: string, policyRef: string, reasons: seq<string>,
    ruleIDs: seq<string>, hints: seq<string>, results: seq<ActionResult>)

  const UNLABELED := "sys.unlabeled_deny"

  /** Position of the first dot. */
  function FirstDot(s: string): (k: nat)
    ensures k <= |s| && '.' !in s[..k] && (k < |s| ==> s[k] == '.')
  {
    if s == "" || s[0] == '.' then 0 else 1 + FirstDot(s[1..])
  }

  /** `splitKind`. */
  function SplitKind(kind: string): Option<(string, string)> {
    var s := Strings.TrimSpace(kind);
    var k := FirstDot(s);
    if k == |s| then None
    else if Strings.TrimSpace(s[..k]) == "" || Strings.TrimSpace(s[k + 1..]) == "" then None
    else Some((s[..k], s[k + 1..]))
  }

  predicate ValidKind(a: Action) {
    SplitKind(a.kind).Some?
  }

  /** The kind splits at its first dot into a tool and an operation, neither of them blank. */
  ghost predicate SplitsInto(kind: string, tool: string, operation: string) {
    && Strings.TrimSpace(kind) == tool + "." + operation && '.' !in tool
    && Strings.TrimSpace(tool) != "" && Strings.TrimSpace(operation) != ""
  }

  /** The kind names a tool and an operation. */
  ghost predicate Evaluable(a: Action) {
    exists tool, operation :: SplitsInto(a.kind, tool, operation)
  }

  lemma {:induction false} FirstDotOf(tool: string, rest: string)
    requires '.' !in tool
    ensures FirstDot(tool + "." + rest) == |tool|
  {
    var s := tool + "." + rest;
    if tool != "" {
      assert s[1..] == tool[1..] + "." + rest;
      FirstDotOf(tool[1..], rest);
    }
  }

  lemma SplitKindExactly(kind: string, tool: string, operation: string)
    ensures SplitKind(kind) == Some((tool, operation)) <==> SplitsInto(kind, tool, operation)
  {
    hide Strings.TrimSpace, FirstDot;
    var s := Strings.TrimSpace(kind);
    if SplitsInto(kind, tool, operation) {
      FirstDotOf(tool, operation);
      assert s[..|tool|] == tool && s[|tool| + 1..] == operation;
    }
    if SplitKind(kind) == Some((tool, operation)) {
      var k := FirstDot(s);
      assert s == s[..k] + [s[k]] + s[k + 1..];
    }
  }

  /** Exactly the kinds of that form are sent to the policy. */
  lemma ValidKindExactly(a: Action)
    ensures ValidKind(a) <==> Evaluable(a)
  {
    hide SplitKind, SplitsInto;
    if ValidKind(a) {
      var (tool, operation) := SplitKind(a.kind).value;
      SplitKindExactly(a.kind, tool, operation);
    }
    if tool, operation :| SplitsInto(a.kind, tool, operation) {
      SplitKindExactly(a.kind, tool, operation);
    }
  }

  /** An action whose evaluation returned an error. */
  predicate Fails(policy: Policy, a: Action) {
    ValidKind(a) && policy(a).Err?
  }

  predicate Passes(policy: Policy, a: Action) {
    ValidKind(a) && policy(a).Ok? && policy(a).value.allow
  }

  function RulesOf(policy: Policy, a: Action): seq<string> {
    if !ValidKind(a) || policy(a).Err? then []
    else
      var d := policy(a).value;
      d.hits + if !d.allow && d.hits == [] then [UNLABELED] else []
  }

  function HintsOf(policy: Policy, a: Action): seq<string> {
    if !ValidKind(a) || policy(a).Err? then [] else policy(a).value.hints
  }

  function ReasonsOf(policy: Policy, i: nat, a: Action): seq<string> {
    if !ValidKind(a) then ["action[" + Decimal.Numeral(i) + "] invalid kind: " + a.kind]
    else if policy(a).Err? || policy(a).value.allow then []
    else if policy(a).value.reasons != [] then policy(a).value.reasons
    else if policy(a).value.reason != "" then [policy(a).value.reason]
    else []
  }

  function ResultOf(policy: Policy, i: nat, a: Action): ActionResult {
    if !ValidKind(a) then
      ActionResult(i, a.kind, false, "high", ["sys.invalid_kind"], ReasonsOf(policy, i, a), [])
    else if policy(a).Err? then ActionResult(i, a.kind, false, "high", [], [], [])
    else
      var d := policy(a).value;
      var risk := if !d.allow then "high" else if "breakglass" in a.riskTags then "medium" else "low";
      ActionResult(i, a.kind, d.allow, risk, d.hits, d.reasons, d.hints)
  }

  /** The first non-empty policy reference among the evaluated actions. */
  function FirstPolicyRef(policy: Policy, actions: seq<Action>): string {
    if actions == [] then ""
    else
      var before, last := FirstPolicyRef(policy, actions[..|actions| - 1]), actions[|actions| - 1];
      NextPolicyRef(policy, before, last)
  }

  function NextPolicyRef(policy: Policy, ref: string, a: Action): string {
    if ref != "" || !ValidKind(a) || policy(a).Err? then ref else policy(a).value.policyRef
  }

  // ----- The loop

  function AllRules(policy: Policy, actions: seq<Action>): seq<string> {
    if actions == [] then []
    else AllRules(policy, actions[..|actions| - 1]) + RulesOf(policy, actions[|actions| - 1])
  }

  function AllHints(policy: Policy, actions: seq<Action>): seq<string> {
    if actions == [] then []
    else AllHints(policy, actions[..|actions| - 1]) + HintsOf(policy, actions[|actions| - 1])
  }

  function AllReasons(policy: Policy, actions: seq<Action>): seq<string> {
    if actions == [] then []
    else AllReasons(policy, actions[..|actions| - 1]) + ReasonsOf(policy, |actions| - 1, actions[|actions| - 1])
  }

  function AllResults(policy: Policy, actions: seq<Action>): (r: seq<ActionResult>)
    ensures |r| == |actions|
  {
    if actions == [] then []
    else AllResults(policy, actions[..|actions| - 1]) + [ResultOf(policy, |actions| - 1, actions[|actions| - 1])]
  }

  predicate AllPass(policy: Policy, actions: seq<Action>) {
    actions == [] || (AllPass(policy, actions[..|actions| - 1]) && Passes(policy, actions[|actions| - 1]))
  }

  /** The accumulator after the actions seen so far. */
  function Accumulated(policy: Policy, seen: seq<Action>): Evaluation {
    Evaluation(AllPass(policy, seen), if AllPass(policy, seen) then "low" else "high", FirstPolicyRef(policy, seen),
      AllReasons(policy, seen), AllRules(policy, seen), AllHints(policy, seen), AllResults(policy, seen))
  }

  /** One round on the accumulator. */
  function Extended(policy: Policy, i: nat, a: Action, res: Evaluation): Evaluation {
    var pass := Passes(policy, a);
    Evaluation(res.pass && pass, if pass then res.riskLevel else "high", NextPolicyRef(policy, res.policyRef, a),
      res.reasons + ReasonsOf(policy, i, a), res.ruleIDs + RulesOf(policy, a), res.hints + HintsOf(policy, a),
      res.results + [ResultOf(policy, i, a)])
  }

  lemma AccumulatedSnoc(policy: Policy, seen: seq<Action>, a: Action)
    ensures Accumulated(policy, seen + [a]) == Extended(policy, |seen|, a, Accumulated(policy, seen))
  {
    hide Passes, RulesOf, HintsOf, ReasonsOf, ResultOf, NextPolicyRef;
    assert (seen + [a])[..|seen|] == seen;
  }

  /** One round of the loop. */
  method EvaluateAction(policy: Policy, i: nat, action: Action, before: Evaluation)
    returns (r: Result<Evaluation, string>)
    ensures r.Err? <==> Fails(policy, action)
    ensures r.Err? <==> Evaluable(action) && policy(action).Err?
    ensures r.Err? ==> policy(action) == Err(r.error)
    ensures r.Ok? ==> r.value == Extended(policy, i, action, before)
  {
    hide SplitKind, Evaluable;
    ValidKindExactly(action);
    var res := before;
    var split := SplitKind(action.kind);
    if split.None? {
      var reason := "action[" + Decimal.Numeral(i) + "] invalid kind: " + action.kind;
      res := res.(pass := false, riskLevel := "high", reasons := res.reasons + [reason],
        results := res.results + [ActionResult(i, action.kind, false, "high", ["sys.invalid_kind"], [reason], [])]);
      return Ok(res);
    }
    var evaluated := policy(action);
    if evaluated.Err? { return Err(evaluated.error); }
    var decision := evaluated.value;
    if res.policyRef == "" {
      res := res.(policyRef := decision.policyRef);
    }
    if !decision.allow {
      res := res.(pass := false, riskLevel := "high");
      if |decision.reasons| > 0 {
        res := res.(reasons := res.reasons + decision.reasons);
      } else if decision.reason != "" {
        res := res.(reasons := res.reasons + [decision.reason]);
      }
    }
    res := res.(ruleIDs := res.ruleIDs + decision.hits, hints := res.hints + decision.hints);
    if !decision.allow && |decision.hits| == 0 {
      res := res.(ruleIDs := res.ruleIDs + [UNLABELED]);
    }
    var risk := if !decision.allow then "high" else if "breakglass" in action.riskTags then "medium" else "low";
    res := res.(results := res.results
      + [ActionResult(i, action.kind, decision.allow, risk, decision.hits, decision.reasons, decision.hints)]);
    return Ok(res);
  }

  /** What `evaluateScenarioWithRuntime` returns for an action list, stated without the loop. */
  ghost predicate Aggregates(policy: Policy, actions: seq<Action>, res: Evaluation) {
    && |res.results| == |actions|
    && (forall i :: 0 <= i < |actions| ==> res.results[i] == ResultOf(policy, i, actions[i]))
    && (res.pass <==> forall i :: 0 <= i < |actions| ==> res.results[i].pass)
    && res.riskLevel == (if res.pass then "low" else "high")
    && res.policyRef == FirstPolicyRef(policy, actions)
    && StrictlySorted(Strings.Less, res.ruleIDs)
    && (forall x :: x in res.ruleIDs <==> x != "" && exists i :: 0 <= i < |actions| && x in RulesOf(policy, actions[i]))
    && StrictlySorted(Strings.Less, res.hints)
    && (forall x :: x in res.hints <==> x != "" && exists i :: 0 <= i < |actions| && x in HintsOf(policy, actions[i]))
    && StrictlySorted(Strings.Less, res.reasons)
    && (forall x :: x in res.reasons <==>
          x != "" && exists i :: 0 <= i < |actions| && x in ReasonsOf(policy, i, actions[i]))
  }

  // ----- The same, written out

  ghost function InvalidKindReason(i: nat, a: Action): string {
    "action[" + Decimal.Numeral(i) + "] invalid kind: " + a.kind
  }

  /** The result of one action: the complaint about its kind, or the decision field by field. */
  ghost predicate ReportsAction(policy: Policy, i: nat, a: Action, r: ActionResult) {
    && r.index == i && r.kind == a.kind
    && if !Evaluable(a) then
         && !r.pass && r.riskLevel == "high" && r.ruleIDs == ["sys.invalid_kind"]
         && r.reasons == [InvalidKindReason(i, a)] && r.hints == []
       else
         && policy(a).Ok?
         && var d := policy(a).value;
            && r.pass == d.allow && r.ruleIDs == d.hits && r.reasons == d.reasons && r.hints == d.hints
            && r.riskLevel == if !d.allow then "high" else if "breakglass" in a.riskTags then "medium" else "low"
  }

  ghost predicate GivesRule(policy: Policy, a: Action, x: string) {
    && Evaluable(a) && policy(a).Ok?
    && var d := policy(a).value;
       x in d.hits || (!d.allow && d.hits == [] && x == "sys.unlabeled_deny")
  }

  ghost predicate GivesHint(policy: Policy, a: Action, x: string) {
    Evaluable(a) && policy(a).Ok? && x in policy(a).value.hints
  }

  ghost predicate GivesReason(policy: Policy, i: nat, a: Action, x: string) {
    if !Evaluable(a) then x == InvalidKindReason(i, a)
    else
      && policy(a).Ok?
      && var d := policy(a).value;
         !d.allow && if d.reasons != [] then x in d.reasons else x == d.reason
  }

  ghost predicate GivesPolicyRef(policy: Policy, a: Action, ref: string) {
    Evaluable(a) && policy(a).Ok? && policy(a).value.policyRef == ref
  }

  /** `ref` is the first non-empty policy reference among the decisions, or empty if there is none. */
  ghost predicate IsFirstRef(policy: Policy, actions: seq<Action>, ref: string) {
    if ref == "" then forall i, x :: 0 <= i < |actions| && GivesPolicyRef(policy, actions[i], x) ==> x == ""
    else exists k :: FirstRefAt(policy, actions, ref, k)
  }

  ghost predicate FirstRefAt(policy: Policy, actions: seq<Action>, ref: string, k: int) {
    && 0 <= k < |actions| && GivesPolicyRef(policy, actions[k], ref)
    && forall i, x :: 0 <= i < k && GivesPolicyRef(policy, actions[i], x) ==> x == ""
  }

  /** What the evaluation of a scenario reports. */
  ghost predicate Reports(policy: Policy, actions: seq<Action>, res: Evaluation) {
    && |res.results| == |actions|
    && (forall i :: 0 <= i < |actions| ==> ReportsAction(policy, i, actions[i], res.results[i]))
    && (res.pass <==> forall i :: 0 <= i < |actions| ==> res.results[i].pass)
    && res.riskLevel == (if res.pass then "low" else "high")
    && IsFirstRef(policy, actions, res.policyRef)
    && StrictlySorted(Strings.Less, res.ruleIDs)
    && (forall x :: x in res.ruleIDs <==> x != "" && exists i :: 0 <= i < |actions| && GivesRule(policy, actions[i], x))
    && StrictlySorted(Strings.Less, res.hints)
    && (forall x :: x in res.hints <==> x != "" && exists i :: 0 <= i < |actions| && GivesHint(policy, actions[i], x))
    && StrictlySorted(Strings.Less, res.reasons)
    && (forall x :: x in res.reasons <==>
          x != "" && exists i :: 0 <= i < |actions| && GivesReason(policy, i, actions[i], x))
  }

  /** Each part an action contributes is the part written out; an empty reason is no reason. */
  lemma ContributionsWritten(policy: Policy, i: nat, a: Action, x: string)
    requires !Fails(policy, a)
    ensures ReportsAction(policy, i, a, ResultOf(policy, i, a))
    ensures x in RulesOf(policy, a) <==> GivesRule(policy, a, x)
    ensures x in HintsOf(policy, a) <==> GivesHint(policy, a, x)
    ensures x != "" ==> (x in ReasonsOf(policy, i, a) <==> GivesReason(policy, i, a, x))
  {
    hide SplitKind, Evaluable;
    ValidKindExactly(a);
  }

  lemma {:induction false} FirstRefWritten(policy: Policy, actions: seq<Action>)
    requires forall i :: 0 <= i < |actions| ==> !Fails(policy, actions[i])
    ensures IsFirstRef(policy, actions, FirstPolicyRef(policy, actions))
  {
    hide SplitKind, Evaluable;
    if actions != [] {
      var n := |actions| - 1;
      var before, ref := FirstPolicyRef(policy, actions[..n]), FirstPolicyRef(policy, actions);
      FirstRefWritten(policy, actions[..n]);
      ValidKindExactly(actions[n]);
      assert forall i :: 0 <= i < n ==> actions[..n][i] == actions[i];
      if before != "" {
        var k :| FirstRefAt(policy, actions[..n], before, k);
        assert FirstRefAt(policy, actions, before, k);
      } else if ref != "" {
        assert FirstRefAt(policy, actions, ref, n);
      }
    }
  }

  lemma UnionsWritten(policy: Policy, actions: seq<Action>, x: string)
    requires x != "" && forall i :: 0 <= i < |actions| ==> !Fails(policy, actions[i])
    ensures (exists i :: 0 <= i < |actions| && x in RulesOf(policy, actions[i]))
      <==> exists i :: 0 <= i < |actions| && GivesRule(policy, actions[i], x)
    ensures (exists i :: 0 <= i < |actions| && x in HintsOf(policy, actions[i]))
      <==> exists i :: 0 <= i < |actions| && GivesHint(policy, actions[i], x)
    ensures (exists i :: 0 <= i < |actions| && x in ReasonsOf(policy, i, actions[i]))
      <==> exists i :: 0 <= i < |actions| && GivesReason(policy, i, actions[i], x)
  {
    hide RulesOf, HintsOf, ReasonsOf, GivesRule, GivesHint, GivesReason, Fails;
    forall i | 0 <= i < |actions|
      ensures x in RulesOf(policy, actions[i]) <==> GivesRule(policy, actions[i], x)
    {
      ContributionsWritten(policy, i, actions[i], x);
    }
    forall i | 0 <= i < |actions|
      ensures x in HintsOf(policy, actions[i]) <==> GivesHint(policy, actions[i], x)
    {
      ContributionsWritten(policy, i, actions[i], x);
    }
    forall i | 0 <= i < |actions|
      ensures x in ReasonsOf(policy, i, actions[i]) <==> GivesReason(policy, i, actions[i], x)
    {
      ContributionsWritten(policy, i, actions[i], x);
    }
  }

  lemma AggregatesReport(policy: Policy, actions: seq<Action>, res: Evaluation)
    requires Aggregates(policy, actions, res) && forall i :: 0 <= i < |actions| ==> !Fails(policy, actions[i])
    ensures Reports(policy, actions, res)
  {
    hide RulesOf, HintsOf, ReasonsOf, ResultOf, GivesRule, GivesHint, GivesReason, ReportsAction, FirstPolicyRef,
         IsFirstRef, Fails, StrictlySorted;
    FirstRefWritten(policy, actions);
    forall i | 0 <= i < |actions| ensures ReportsAction(policy, i, actions[i], res.results[i]) {
      ContributionsWritten(policy, i, actions[i], "");
    }
    forall x
      ensures x in res.ruleIDs <==> x != "" && exists i :: 0 <= i < |actions| && GivesRule(policy, actions[i], x)
      ensures x in res.hints <==> x != "" && exists i :: 0 <= i < |actions| && GivesHint(policy, actions[i], x)
      ensures x in res.reasons <==> x != "" && exists i :: 0 <= i < |actions| && GivesReason(policy, i, actions[i], x)
    {
      if x != "" { UnionsWritten(policy, actions, x); }
    }
  }

  /** The first action whose evaluation fails, with its error. */
  ghost predicate FailsAt(policy: Policy, actions: seq<Action>, i: nat, error: string) {
    && i < |actions| && Evaluable(actions[i]) && policy(actions[i]) == Err(error)
    && forall j :: 0 <= j < i && Evaluable(actions[j]) ==> policy(actions[j]).Ok?
  }

  lemma FailureWritten(policy: Policy, actions: seq<Action>, i: nat, error: string)
    requires i < |actions| && Fails(policy, actions[i]) && policy(actions[i]) == Err(error)
    requires forall k :: 0 <= k < i ==> !Fails(policy, actions[k])
    ensures FailsAt(policy, actions, i, error)
  {
    hide SplitKind, Evaluable;
    forall k | 0 <= k <= i ensures ValidKind(actions[k]) <==> Evaluable(actions[k]) { ValidKindExactly(actions[k]); }
  }

  /**
   `evaluateScenarioWithRuntime`: it fails exactly when the policy fails on some action; otherwise there is
   one result per action at its index, the scenario passes exactly when all of them do, the risk is "high"
   exactly when it does not pass, and the three lists are the strictly sorted unions.
   */
  method EvaluateScenario(policy: Policy, actions: seq<Action>) returns (r: Result<Evaluation, string>)
    ensures r.Err? <==> exists i :: 0 <= i < |actions| && Fails(policy, actions[i])
    ensures r.Ok? ==> Aggregates(policy, actions, r.value) && Reports(policy, actions, r.value)
    ensures r.Err? ==> exists i: nat :: FailsAt(policy, actions, i, r.error)
  {
    hide Extended, Aggregates, Fails, Strings.Canonical, Accumulated, Reports, FailsAt;
    var res := Evaluation(true, "low", "", [], [], [], []);
    NothingAccumulated(policy);
    for i := 0 to |actions|
      invariant res == Accumulated(policy, actions[..i])
      invariant forall k :: 0 <= k < i ==> !Fails(policy, actions[k])
    {
      var next := EvaluateAction(policy, i, actions[i], res);
      if next.Err? {
        FailureWritten(policy, actions, i, next.error);
        return Err(next.error);
      }
      AccumulatedSnoc(policy, actions[..i], actions[i]);
      assert actions[..i + 1] == actions[..i] + [actions[i]];
      res := next.value;
    }
    assert actions[..|actions|] == actions;
    var ruleIDs := Strings.SortedDedupe(res.ruleIDs);
    var hints := Strings.SortedDedupe(res.hints);
    var reasons := Strings.SortedDedupe(res.reasons);
    Canonicalise(policy, actions);
    res := res.(ruleIDs := ruleIDs, hints := hints, reasons := reasons);
    AggregatesReport(policy, actions, res);
    return Ok(res);
  }

  lemma NothingAccumulated(policy: Policy)
    ensures Accumulated(policy, []) == Evaluation(true, "low", "", [], [], [], [])
  {
  }

  lemma {:induction false} RulesMembers(policy: Policy, actions: seq<Action>, x: string)
    ensures x in AllRules(policy, actions) <==> exists i :: 0 <= i < |actions| && x in RulesOf(policy, actions[i])
  {
    hide RulesOf;
    if actions != [] {
      var n := |actions| - 1;
      var before := actions[..n];
      RulesMembers(policy, before, x);
      if i :| 0 <= i < n && x in RulesOf(policy, before[i]) { assert x in RulesOf(policy, actions[i]); }
      if i :| 0 <= i < |actions| && x in RulesOf(policy, actions[i]) {
        if i < n { assert x in RulesOf(policy, before[i]); }
      }
    }
  }

  lemma {:induction false} HintsMembers(policy: Policy, actions: seq<Action>, x: string)
    ensures x in AllHints(policy, actions) <==> exists i :: 0 <= i < |actions| && x in HintsOf(policy, actions[i])
  {
    hide HintsOf;
    if actions != [] {
      var n := |actions| - 1;
      var before := actions[..n];
      HintsMembers(policy, before, x);
      if i :| 0 <= i < n && x in HintsOf(policy, before[i]) { assert x in HintsOf(policy, actions[i]); }
      if i :| 0 <= i < |actions| && x in HintsOf(policy, actions[i]) {
        if i < n { assert x in HintsOf(policy, before[i]); }
      }
    }
  }

  lemma {:induction false} ReasonsMembers(policy: Policy, actions: seq<Action>, x: string)
    ensures x in AllReasons(policy, actions)
      <==> exists i :: 0 <= i < |actions| && x in ReasonsOf(policy, i, actions[i])
  {
    hide ReasonsOf;
    if actions != [] {
      var n := |actions| - 1;
      var before := actions[..n];
      ReasonsMembers(policy, before, x);
      if i :| 0 <= i < n && x in ReasonsOf(policy, i, before[i]) { assert x in ReasonsOf(policy, i, actions[i]); }
      if i :| 0 <= i < |actions| && x in ReasonsOf(policy, i, actions[i]) {
        if i < n { assert x in ReasonsOf(policy, i, before[i]); }
      }
    }
  }

  lemma {:induction false} AllIndices(policy: Policy, actions: seq<Action>, results: seq<ActionResult>)
    requires results == AllResults(policy, actions)
    ensures |results| == |actions|
    ensures forall i :: 0 <= i < |actions| ==> results[i] == ResultOf(policy, i, actions[i])
    ensures AllPass(policy, actions) <==> forall i :: 0 <= i < |actions| ==> results[i].pass
  {
    hide ResultOf, Passes;
    if actions != [] {
      var n := |actions| - 1;
      var before := AllResults(policy, actions[..n]);
      AllIndices(policy, actions[..n], before);
      ResultPasses(policy, n, actions[n]);
      assert results == before + [ResultOf(policy, n, actions[n])];
      assert forall i :: 0 <= i < n ==> results[i] == before[i];
      assert (forall i :: 0 <= i <= n ==> results[i].pass)
        <==> (forall i :: 0 <= i < n ==> before[i].pass) && results[n].pass;
    }
  }

  lemma Canonicalise(policy: Policy, actions: seq<Action>)
    ensures var res := Accumulated(policy, actions);
            Aggregates(policy, actions, res.(ruleIDs := Strings.Canonical(res.ruleIDs),
              hints := Strings.Canonical(res.hints), reasons := Strings.Canonical(res.reasons)))
  {
    hide Strings.Canonical, RulesOf, HintsOf, ReasonsOf, ResultOf, AllRules, AllHints, AllReasons,
         AllResults, AllPass, FirstPolicyRef, StrictlySorted;
    var res := Accumulated(policy, actions);
    Strings.CanonicalSpec(res.ruleIDs);
    Strings.CanonicalSpec(res.hints);
    Strings.CanonicalSpec(res.reasons);
    AllIndices(policy, actions, res.results);
    forall x
      ensures x in res.ruleIDs <==> exists i :: 0 <= i < |actions| && x in RulesOf(policy, actions[i])
      ensures x in res.hints <==> exists i :: 0 <= i < |actions| && x in HintsOf(policy, actions[i])
      ensures x in res.reasons <==> exists i :: 0 <= i < |actions| && x in ReasonsOf(policy, i, actions[i])
    {
      RulesMembers(policy, actions, x);
      HintsMembers(policy, actions, x);
      ReasonsMembers(policy, actions, x);
    }
  }

  lemma ResultPasses(policy: Policy, i: nat, a: Action)
    ensures ResultOf(policy, i, a).pass == Passes(policy, a)
  {
    hide SplitKind;
  }

  // ----- What the verdict depends on

  /** `sys.unlabeled_deny` is reported exactly for a denied action without hits, or when a policy hit has that name. */
  lemma UnlabeledDeny(policy: Policy, actions: seq<Action>, res: Evaluation)
    requires Aggregates(policy, actions, res)
    ensures "sys.unlabeled_deny" in res.ruleIDs <==>
      exists i :: 0 <= i < |actions| && ReportsUnlabeled(policy, actions[i])
  {
    hide SplitKind;
    forall i | 0 <= i < |actions|
      ensures ReportsUnlabeled(policy, actions[i]) <==> UNLABELED in RulesOf(policy, actions[i])
    {
    }
  }

  predicate ReportsUnlabeled(policy: Policy, a: Action) {
    && ValidKind(a) && policy(a).Ok?
    && ((!policy(a).value.allow && policy(a).value.hits == []) || "sys.unlabeled_deny" in policy(a).value.hits)
  }

  /** Equal sets of actions give equal unions. */
  lemma SameContributions(policy: Policy, a: seq<Action>, b: seq<Action>, x: string)
    requires Elements(a) == Elements(b)
    ensures (exists i :: 0 <= i < |a| && x in RulesOf(policy, a[i])) ==>
      exists i :: 0 <= i < |b| && x in RulesOf(policy, b[i])
    ensures (exists i :: 0 <= i < |a| && x in HintsOf(policy, a[i])) ==>
      exists i :: 0 <= i < |b| && x in HintsOf(policy, b[i])
  {
    hide RulesOf, HintsOf;
    if i :| 0 <= i < |a| && x in RulesOf(policy, a[i]) {
      assert a[i] in Elements(b);
      var j :| 0 <= j < |b| && b[j] == a[i];
      assert x in RulesOf(policy, b[j]);
    }
    if i :| 0 <= i < |a| && x in HintsOf(policy, a[i]) {
      assert a[i] in Elements(b);
      var j :| 0 <= j < |b| && b[j] == a[i];
      assert x in HintsOf(policy, b[j]);
    }
  }

  lemma SamePass(policy: Policy, a: seq<Action>, b: seq<Action>, ra: Evaluation, rb: Evaluation)
    requires Elements(a) == Elements(b) && Aggregates(policy, a, ra) && Aggregates(policy, b, rb) && ra.pass
    ensures rb.pass
  {
    hide RulesOf, HintsOf, ReasonsOf, ResultOf, Passes, StrictlySorted;
    forall j | 0 <= j < |b| ensures rb.results[j].pass {
      assert b[j] in Elements(a);
      var i :| 0 <= i < |a| && a[i] == b[j];
      ResultPasses(policy, i, a[i]);
      ResultPasses(policy, j, b[j]);
      assert ra.results[i].pass;
    }
  }

  /**
   Permuting or repeating actions leaves pass, risk level, rule ids and hints unchanged: they depend only on
   the set of actions.
   */
  lemma VerdictDependsOnSet(policy: Policy, a: seq<Action>, b: seq<Action>, ra: Evaluation, rb: Evaluation)
    requires Elements(a) == Elements(b) && Aggregates(policy, a, ra) && Aggregates(policy, b, rb)
    ensures ra.pass == rb.pass && ra.riskLevel == rb.riskLevel
    ensures ra.ruleIDs == rb.ruleIDs && ra.hints == rb.hints
  {
    hide RulesOf, HintsOf, ReasonsOf, ResultOf, Strings.Less;
    if ra.pass { SamePass(policy, a, b, ra, rb); }
    if rb.pass { SamePass(policy, b, a, rb, ra); }
    forall x ensures (x in ra.ruleIDs <==> x in rb.ruleIDs) && (x in ra.hints <==> x in rb.hints) {
      SameContributions(policy, a, b, x);
      SameContributions(policy, b, a, x);
    }
    Strings.LessIsStrictOrder();
    assert Elements(ra.ruleIDs) == Elements(rb.ruleIDs);
    assert Elements(ra.hints) == Elements(rb.hints);
    StrictlySortedUnique(Strings.Less, ra.ruleIDs, rb.ruleIDs);
    StrictlySortedUnique(Strings.Less, ra.hints, rb.hints);
  }
}
