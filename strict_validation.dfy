/** The validator and the evaluator read a condition tree differently in
    two places, so a stored, validated condition can still make evaluation
    raise, or hold where it should not. This module exhibits such inputs against the validator as
    written and gives a validator that agrees with the evaluator, with the
    guarantee the stored-condition check is there for: an accepted
    condition evaluates without raising, on every payload. */
module StrictValidation {
  import opened Json
  import opened Models
  import opened Evaluator
  import opened RuleService
  import Tasks
  import Views

  /** `{"AND": 1, "OR": []}`: the validator finds no list under `AND`,
      falls through to the `OR` list and accepts; the evaluator takes the
      `AND` branch and tries to iterate an integer. */
  lemma AndBesideOrListAcceptedButRaises(payload: JSON)
    ensures var c := JObject(map["AND" := JInt(1), "OR" := JArray([])]);
      ValidateConditionJson(c) == Accepted && EvaluateCondition(c, payload) == Raises(NotIterable)
  {
    var m := map["AND" := JInt(1), "OR" := JArray([])];
    assert "AND" in m && !m["AND"].JArray?;
    assert "OR" in m && m["OR"] == JArray([]);
  }

  /** `{"AND": {}, "OR": [{"field": "age", "operator": ">", "value": 100}]}`:
      the validator again falls through to the `OR` list and accepts; the
      evaluator takes the `AND` branch, and `all` over an empty dict is
      True, so the condition holds on every payload whatever the `OR` list
      says. */
  lemma AndDictBesideOrListApprovesEverything(payload: JSON)
    ensures var leaf := JObject(map["field" := JString("age"), "operator" := JString(">"), "value" := JInt(100)]);
      var c := JObject(map["AND" := JObject(map[]), "OR" := JArray([leaf])]);
      ValidateConditionJson(c) == Accepted && EvaluateCondition(c, payload) == Returns(true)
  {
    var leaf := map["field" := JString("age"), "operator" := JString(">"), "value" := JInt(100)];
    var m := map["AND" := JObject(map[]), "OR" := JArray([JObject(leaf)])];
    assert "AND" in m && !m["AND"].JArray?;
    assert "OR" in m && m["OR"] == JArray([JObject(leaf)]);
    assert "AND" !in leaf && "OR" !in leaf;
    assert RequiredKeys <= leaf.Keys;
    assert leaf["operator"] == JString(">");
    assert ValidateConditionJson(JObject(leaf)) == Accepted;
    assert ValidateEach([JObject(leaf)]) == ValidateEach([]) by {
      assert [JObject(leaf)][1..] == [];
    }
    assert m["AND"] == JObject(map[]);
    assert EvaluateLogic(true, m["AND"], payload) == Returns(true);
  }

  /** `{"field": 1, "operator": "==", "value": 1}`: the validator checks
      only that the keys exist and the operator is known; the evaluator
      calls `split` on the integer field. */
  lemma NonStringFieldAcceptedButRaises(payload: JSON)
    ensures var c := JObject(map["field" := JInt(1), "operator" := JString("=="), "value" := JInt(1)]);
      ValidateConditionJson(c) == Accepted && EvaluateCondition(c, payload) == Raises(FieldNotAString)
  {
    var m := map["field" := JInt(1), "operator" := JString("=="), "value" := JInt(1)];
    assert "AND" !in m && "OR" !in m;
    assert RequiredKeys <= m.Keys;
    assert m["operator"] == JString("==") && m["field"] == JInt(1);
  }

  /** The validator as the evaluator reads the tree: the `AND` key decides
      whenever it is present and must then hold a list; `OR` likewise when
      `AND` is absent; a leaf's field must be a string. */
  function ValidateStrict(c: JSON): Validation
    decreases c
  {
    match c
    case JObject(m) =>
      if "AND" in m then
        if m["AND"].JArray? then ValidateStrictEach(m["AND"].items) else Refused(LogicNotAList)
      else if "OR" in m then
        if m["OR"].JArray? then ValidateStrictEach(m["OR"].items) else Refused(LogicNotAList)
      else if ValidateSubcondition(m).Refused? then ValidateSubcondition(m)
      else if !m["field"].JString? then Refused(FieldNotString)
      else Accepted
    case _ => Refused(NotAnObject)
  }

  function ValidateStrictEach(items: seq<JSON>): Validation
    decreases items
  {
    if items == [] then Accepted
    else if ValidateStrict(items[0]).Refused? then ValidateStrict(items[0])
    else ValidateStrictEach(items[1..])
  }

  /** The three example conditions are refused. */
  lemma StrictRefusesTheExamples()
    ensures ValidateStrict(JObject(map["AND" := JInt(1), "OR" := JArray([])])) == Refused(LogicNotAList)
    ensures var leaf := JObject(map["field" := JString("age"), "operator" := JString(">"), "value" := JInt(100)]);
      ValidateStrict(JObject(map["AND" := JObject(map[]), "OR" := JArray([leaf])])) == Refused(LogicNotAList)
    ensures ValidateStrict(JObject(map["field" := JInt(1), "operator" := JString("=="), "value" := JInt(1)]))
         == Refused(FieldNotString)
  {
    var m := map["field" := JInt(1), "operator" := JString("=="), "value" := JInt(1)];
    assert "AND" !in m && "OR" !in m;
    assert RequiredKeys <= m.Keys;
    assert m["operator"] == JString("==") && m["field"] == JInt(1);
  }

  /** Under the strict validator a logic node is decided by its own list:
      an `AND` node holds iff every child holds, an `OR` node (without
      `AND`) iff some child holds with every child before it false. A
      dict under `AND` can no longer make the node hold vacuously. */
  lemma StrictLogicReadsItsList(c: JSON, payload: JSON)
    requires ValidateStrict(c) == Accepted
    requires c.JObject? && ("AND" in c.fields || "OR" in c.fields)
    ensures "AND" in c.fields ==>
      && c.fields["AND"].JArray?
      && (EvaluateCondition(c, payload) == Returns(true)
          <==> forall i :: 0 <= i < |c.fields["AND"].items| ==> EvaluateCondition(c.fields["AND"].items[i], payload) == Returns(true))
    ensures "AND" !in c.fields ==>
      && c.fields["OR"].JArray?
      && (EvaluateCondition(c, payload) == Returns(true)
          <==> exists k :: 0 <= k < |c.fields["OR"].items| && DecidedAt(c.fields["OR"].items, payload, k, true))
  {
    if "AND" in c.fields {
      AllTrueIff(c.fields["AND"].items, payload);
    } else {
      AnyTrueIff(c.fields["OR"].items, payload);
    }
  }

  /** The strict validator only ever refuses more: whatever it accepts,
      the validator as written accepts too. */
  lemma {:induction false} StrictImpliesAccepted(c: JSON)
    requires ValidateStrict(c) == Accepted
    ensures ValidateConditionJson(c) == Accepted
    decreases c, 1
  {
    var m := c.fields;
    if "AND" in m {
      StrictEachImpliesAccepted(m["AND"].items);
    } else if "OR" in m {
      StrictEachImpliesAccepted(m["OR"].items);
    }
  }

  lemma {:induction false} StrictEachImpliesAccepted(items: seq<JSON>)
    requires ValidateStrictEach(items) == Accepted
    ensures ValidateEach(items) == Accepted
    decreases items, 0
  {
    if items != [] {
      StrictImpliesAccepted(items[0]);
      StrictEachImpliesAccepted(items[1..]);
    }
  }

  /** The guarantee: a strictly accepted condition evaluates to True or
      False on every payload, never raising. */
  lemma {:induction false} StrictNeverRaises(c: JSON, payload: JSON)
    requires ValidateStrict(c) == Accepted
    ensures EvaluateCondition(c, payload).Returns?
    decreases c, 1
  {
    var m := c.fields;
    if "AND" in m {
      StrictEachNeverRaises(m["AND"].items, payload);
    } else if "OR" in m {
      StrictEachNeverRaises(m["OR"].items, payload);
    } else {
      assert m["field"].JString? && m["operator"].JString?;
    }
  }

  lemma {:induction false} StrictEachNeverRaises(items: seq<JSON>, payload: JSON)
    requires ValidateStrictEach(items) == Accepted
    ensures EvaluateAll(items, payload).Returns? && EvaluateAny(items, payload).Returns?
    decreases items, 0
  {
    if items != [] {
      StrictNeverRaises(items[0], payload);
      StrictEachNeverRaises(items[1..], payload);
    }
  }

  /** With every stored condition strictly accepted, `evaluate` never
      answers 500 and the worker never reports an unexpected error: every
      error left is a refused body or a missing rule. */
  lemma StrictStoreNeverFails(store: seq<Rule>, req: Views.Request)
    requires forall i :: 0 <= i < |store| ==> ValidateStrict(store[i].condition) == Accepted
    ensures Views.Evaluate(store, req).code != 500
    ensures req.Valid? ==>
      var r := Tasks.EvaluateRulesAsync(store, req.rules, req.payload);
      r.Error? ==> r.error == Tasks.NotFoundText
  {
    if req.Valid? && GetRulesByNames(store, req.rules).Resolved? {
      var pairs := GetRulesByNames(store, req.rules).pairs;
      forall i | 0 <= i < |pairs| ensures EvaluateCondition(pairs[i].1, req.payload).Returns? {
        assert pairs[i] in pairs;
        var k :| 0 <= k < |store| && store[k] == Rule(pairs[i].0, pairs[i].1, true);
        StrictNeverRaises(pairs[i].1, req.payload);
      }
      AggregateCompletes(pairs, req.payload);
    }
  }
}
