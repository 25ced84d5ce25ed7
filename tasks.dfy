/** The background worker `evaluate_rules_async`: resolve the names, run
    the rules, and fold every outcome (including exceptions) into a result
    dictionary with a `status` of `success` or `error`. */
module Tasks {
  import opened Json
  import Models
  import opened Evaluator
  import opened RuleService

  /** The overall verdict: APPROVED when no rule failed. */
  datatype Verdict = Approved | Rejected

  function VerdictText(v: Verdict): string {
    match v
    case Approved => "APPROVED"
    case Rejected => "REJECTED"
  }

  function VerdictOf(failedRules: seq<string>): Verdict {
    if failedRules == [] then Approved else Rejected
  }

  /** `str(RuleNotFoundError())`: the exception's default detail. */
  const NotFoundText: string := "Rule was not found."

  /** The prefix the worker puts before the text of any other exception. */
  const UnexpectedPrefix: string := "An unexpected error occurred: "

  /** The text of the exception that escaped evaluation. Python's own
      message depends on the offending value's type; the model keeps one
      fixed, non-empty text per cause. */
  function FaultText(f: Fault): (t: string)
    ensures t != []
  {
    match f
    case NotIterable => "object is not iterable"
    case NotAMapping => "condition is not a mapping"
    case UnhashableOperator => "unhashable type"
    case FieldNotAString => "field has no attribute 'split'"
  }

  /** The dictionary the worker returns. */
  datatype WorkerResult =
    | Success(result: Verdict, passedRules: seq<string>, failedRules: seq<string>)
    | Error(error: string)

  /** The `status` entry of the dictionary. */
  function Status(r: WorkerResult): string {
    if r.Success? then "success" else "error"
  }

  /** `evaluate_rules_async(rule_names, payload)`, run against the rules as
      stored when the worker executes. */
  function EvaluateRulesAsync(store: seq<Models.Rule>, ruleNames: seq<string>, payload: JSON): (r: WorkerResult)
    ensures r == Error(NotFoundText) <==> exists n :: n in ruleNames && !IsActiveRule(store, n)
    ensures r.Error? ==> r.error == NotFoundText || UnexpectedPrefix < r.error
    ensures r.Success? ==> (r.result == Approved <==> r.failedRules == [])
    ensures Status(r) == "success"
        <==> GetRulesByNames(store, ruleNames).Resolved?
             && Aggregate(GetRulesByNames(store, ruleNames).pairs, payload).Completed?
    ensures r.Success? ==>
      Aggregate(GetRulesByNames(store, ruleNames).pairs, payload) == Completed(r.passedRules, r.failedRules)
  {
    match GetRulesByNames(store, ruleNames)
    case RuleNotFound => Error(NotFoundText)
    case Resolved(pairs) =>
      match Aggregate(pairs, payload)
      case Raised(f) => Error(UnexpectedPrefix + FaultText(f))
      case Completed(passed, failed) => Success(VerdictOf(failed), passed, failed)
  }

  /** The worker approves exactly when every requested name belongs to an
      active rule and every one of those rules' conditions is true. */
  lemma ApprovedIffEveryRulePasses(store: seq<Models.Rule>, ruleNames: seq<string>, payload: JSON)
    ensures EvaluateRulesAsync(store, ruleNames, payload).Success?
         && EvaluateRulesAsync(store, ruleNames, payload).result == Approved
        <==> (GetRulesByNames(store, ruleNames).Resolved?
              && var pairs := GetRulesByNames(store, ruleNames).pairs;
                 forall i :: 0 <= i < |pairs| ==> EvaluateCondition(pairs[i].1, payload) == Returns(true))
  {
    if GetRulesByNames(store, ruleNames).Resolved? {
      NoFailureIff(GetRulesByNames(store, ruleNames).pairs, payload);
    }
  }

  /** A sequence without repeats holds each value at most once. */
  lemma {:induction false} DistinctAtMostOnce(s: seq<string>, x: string)
    requires forall i, j :: 0 <= i < |s| && 0 <= j < |s| && s[i] == s[j] ==> i == j
    ensures multiset(s)[x] <= 1
    decreases |s|
  {
    if s != [] {
      var tail := s[1..];
      assert forall i, j :: 0 <= i < |tail| && 0 <= j < |tail| && tail[i] == tail[j] ==> i == j by {
        forall i, j | 0 <= i < |tail| && 0 <= j < |tail| && tail[i] == tail[j] ensures i == j {
          assert s[i + 1] == s[j + 1];
        }
      }
      DistinctAtMostOnce(tail, x);
      assert s == [s[0]] + tail;
      assert forall k :: 0 <= k < |tail| ==> tail[k] != s[0] by {
        forall k | 0 <= k < |tail| ensures tail[k] != s[0] {
          assert tail[k] == s[k + 1];
        }
      }
      assert s[0] !in tail;
    }
  }

  /** With unique rule names, a successful run reports every requested
      name in exactly one of the two lists and reports nothing else. */
  lemma EveryRequestedRuleReported(store: seq<Models.Rule>, ruleNames: seq<string>, payload: JSON, n: string)
    requires Models.UniqueNames(store)
    requires EvaluateRulesAsync(store, ruleNames, payload).Success?
    ensures var r := EvaluateRulesAsync(store, ruleNames, payload);
      (n in r.passedRules || n in r.failedRules) <==> n in ruleNames
    ensures var r := EvaluateRulesAsync(store, ruleNames, payload);
      !(n in r.passedRules && n in r.failedRules)
  {
    var pairs := GetRulesByNames(store, ruleNames).pairs;
    var r := EvaluateRulesAsync(store, ruleNames, payload);
    AggregatePartition(pairs, payload);
    ResolvedExactlyOnce(store, ruleNames);
    NamesAt(pairs);
    var names := Names(pairs);
    assert multiset(r.passedRules) + multiset(r.failedRules) == multiset(names);
    assert n in names <==> n in ruleNames by {
      if n in names {
        var k :| 0 <= k < |names| && names[k] == n;
        assert pairs[k] in pairs;
      }
      if n in ruleNames {
        var k :| 0 <= k < |pairs| && pairs[k].0 == n;
        assert names[k] == n;
      }
    }
    DistinctAtMostOnce(names, n);
  }
}
