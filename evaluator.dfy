/** `RuleEvaluation.evaluate_condition` and `RuleEvaluation.evaluate_rules`:
    the recursive interpreter of a condition tree against a payload, and
    the loop that sorts named rules into passed and failed. */
module Evaluator {
  import opened Json
  import opened Operators
  import Models

  /** The cause of an exception that `evaluate_condition` does not catch
      (only TypeError and ValueError from the operator call are caught). */
  datatype Fault =
    | NotIterable         // the value under AND/OR is a number, bool or null
    | NotAMapping         // a condition node, or an element met while iterating, is not a dict
    | UnhashableOperator  // `op not in OPERATORS` with a list or dict operator
    | FieldNotAString     // `field.split('.')` on a truthy non-string field

  /** What a call of `evaluate_condition` does: return a bool or raise. */
  datatype Outcome = Returns(value: bool) | Raises(fault: Fault)

  /** `s.split('.')`: the pieces between dots, empty pieces included. */
  function SplitDots(s: string): (parts: seq<string>)
    ensures |parts| >= 1
    decreases |s|
  {
    if s == [] then [""]
    else if s[0] == '.' then [""] + SplitDots(s[1..])
    else
      var rest := SplitDots(s[1..]);
      [[s[0]] + rest[0]] + rest[1..]
  }

  /** `'.'.join(parts)`. */
  function JoinDots(parts: seq<string>): string
    decreases |parts|
  {
    if |parts| <= 1 then (if parts == [] then "" else parts[0])
    else parts[0] + "." + JoinDots(parts[1..])
  }

  /** Splitting loses nothing: joining the pieces with dots gives the
      field back. */
  lemma {:induction false} SplitDotsJoin(s: string)
    ensures JoinDots(SplitDots(s)) == s
    decreases |s|
  {
    if s != [] {
      var rest := SplitDots(s[1..]);
      SplitDotsJoin(s[1..]);
      if s[0] != '.' {
        var parts := SplitDots(s);
        assert parts == [[s[0]] + rest[0]] + rest[1..];
        if |rest| > 1 {
          assert parts[1..] == rest[1..];
          assert JoinDots(rest) == rest[0] + "." + JoinDots(rest[1..]);
          assert JoinDots(parts) == ([s[0]] + rest[0]) + "." + JoinDots(rest[1..]);
        }
      }
    }
  }

  /** No piece holds a dot. */
  lemma {:induction false} SplitDotsNoDot(s: string)
    ensures forall i :: 0 <= i < |SplitDots(s)| ==> '.' !in SplitDots(s)[i]
    decreases |s|
  {
    if s != [] {
      var rest := SplitDots(s[1..]);
      SplitDotsNoDot(s[1..]);
      var parts := SplitDots(s);
      if s[0] == '.' {
        assert parts == [""] + rest;
        assert forall i :: 1 <= i < |parts| ==> parts[i] == rest[i - 1];
      } else {
        assert parts == [[s[0]] + rest[0]] + rest[1..];
        assert forall i :: 1 <= i < |parts| ==> parts[i] == rest[i];
      }
    }
  }

  /** A field without dots is a single piece, looked up at the top level. */
  lemma {:induction false} SplitWithoutDots(s: string)
    requires '.' !in s
    ensures SplitDots(s) == [s]
    decreases |s|
  {
    if s != [] {
      assert '.' !in s[1..] by {
        forall k | 0 <= k < |s[1..]| ensures s[1..][k] != '.' {
          assert s[1..][k] == s[k + 1];
        }
      }
      SplitWithoutDots(s[1..]);
      assert [s[0]] + s[1..] == s;
    }
  }

  /** The walk down the payload: each piece must name a key of the dict
      reached so far; a non-dict or a missing key ends the walk. */
  function Resolve(value: JSON, path: seq<string>): Option<JSON>
    decreases |path|
  {
    if path == [] then Some(value)
    else if value.JObject? && path[0] in value.fields then Resolve(value.fields[path[0]], path[1..])
    else None
  }

  /** The `for part in field_parts` loop: move the cursor one key down per
      piece, giving up at the first piece the cursor cannot follow. */
  method WalkPath(payload: JSON, parts: seq<string>) returns (r: Option<JSON>)
    ensures r == Resolve(payload, parts)
  {
    var cursor := payload;
    var i := 0;
    while i < |parts|
      invariant 0 <= i <= |parts|
      invariant Resolve(payload, parts) == Resolve(cursor, parts[i..])
    {
      if cursor.JObject? && parts[i] in cursor.fields {
        assert parts[i..][1..] == parts[i + 1..];
        cursor := cursor.fields[parts[i]];
      } else {
        return None;
      }
      i := i + 1;
    }
    return Some(cursor);
  }

  /** Walking a path is walking a prefix and then the rest from where the
      prefix ended. */
  lemma {:induction false} ResolveSplit(value: JSON, path: seq<string>, k: nat)
    requires k <= |path|
    ensures Resolve(value, path)
        == match Resolve(value, path[..k])
           case None => None
           case Some(w) => Resolve(w, path[k..])
    decreases k
  {
    if k > 0 {
      assert path[..k][1..] == path[1..][..k - 1];
      assert path[k..] == path[1..][k - 1..];
      if value.JObject? && path[0] in value.fields {
        ResolveSplit(value.fields[path[0]], path[1..], k - 1);
      }
    }
  }

  /** A walk that meets a non-dict or a missing key at any depth fails. */
  lemma BrokenPathFails(value: JSON, path: seq<string>, k: nat, w: JSON)
    requires k < |path|
    requires Resolve(value, path[..k]) == Some(w)
    requires !w.JObject? || path[k] !in w.fields
    ensures Resolve(value, path) == None
  {
    ResolveSplit(value, path, k);
  }

  /** `evaluate_condition(c, payload)`. */
  function EvaluateCondition(c: JSON, payload: JSON): Outcome
    decreases c
  {
    match c
    case JObject(m) =>
      if "AND" in m then EvaluateLogic(true, m["AND"], payload)
      else if "OR" in m then EvaluateLogic(false, m["OR"], payload)
      else EvaluateLeaf(m, payload)
    case _ => Raises(NotAMapping)
  }

  /** `all(...)` (conjunction) or `any(...)` over the generator that
      iterates the value under the key. Iterating a str or dict yields
      strings, and the first of them raises when evaluated; an empty str or
      dict gives `all([])` or `any([])`; other scalars cannot be iterated. */
  function EvaluateLogic(conjunction: bool, operand: JSON, payload: JSON): Outcome
    decreases operand
  {
    match operand
    case JArray(items) => if conjunction then EvaluateAll(items, payload) else EvaluateAny(items, payload)
    case JString(s) => if s == [] then Returns(conjunction) else Raises(NotAMapping)
    case JObject(m) => if m == map[] then Returns(conjunction) else Raises(NotAMapping)
    case _ => Raises(NotIterable)
  }

  /** `all`, stopping at the first false child. */
  function EvaluateAll(items: seq<JSON>, payload: JSON): Outcome
    decreases items
  {
    if items == [] then Returns(true)
    else match EvaluateCondition(items[0], payload)
      case Raises(f) => Raises(f)
      case Returns(b) => if b then EvaluateAll(items[1..], payload) else Returns(false)
  }

  /** `any`, stopping at the first true child. */
  function EvaluateAny(items: seq<JSON>, payload: JSON): Outcome
    decreases items
  {
    if items == [] then Returns(false)
    else match EvaluateCondition(items[0], payload)
      case Raises(f) => Raises(f)
      case Returns(b) => if b then Returns(true) else EvaluateAny(items[1..], payload)
  }

  /** The leaf branch: the truthiness guard, the operator table lookup, the
      dotted walk and the operator call, whose TypeError becomes False. */
  function EvaluateLeaf(m: map<string, JSON>, payload: JSON): Outcome {
    var field, op, value := Get(m, "field"), Get(m, "operator"), Get(m, "value");
    if !(field.Some? && Truthy(field.value) && op.Some? && Truthy(op.value)
         && value.Some? && value.value != JNull) then
      Returns(false)
    else if !Hashable(op.value) then Raises(UnhashableOperator)
    else if !op.value.JString? || ParseOperator(op.value.s).None? then Returns(false)
    else if !field.value.JString? then Raises(FieldNotAString)
    else match Resolve(payload, SplitDots(field.value.s))
      case None => Returns(false)
      case Some(v) => Returns(Apply(ParseOperator(op.value.s).value, v, value.value) == Some(true))
  }

  /** An AND node is true iff every child is true. */
  lemma {:induction false} AllTrueIff(items: seq<JSON>, payload: JSON)
    ensures EvaluateAll(items, payload) == Returns(true)
        <==> forall i :: 0 <= i < |items| ==> EvaluateCondition(items[i], payload) == Returns(true)
    decreases |items|
  {
    if items != [] {
      AllTrueIff(items[1..], payload);
      assert forall i :: 1 <= i < |items| ==> items[i] == items[1..][i - 1];
    }
  }

  /** An OR node is false iff every child is false. */
  lemma {:induction false} AnyFalseIff(items: seq<JSON>, payload: JSON)
    ensures EvaluateAny(items, payload) == Returns(false)
        <==> forall i :: 0 <= i < |items| ==> EvaluateCondition(items[i], payload) == Returns(false)
    decreases |items|
  {
    if items != [] {
      AnyFalseIff(items[1..], payload);
      assert forall i :: 1 <= i < |items| ==> items[i] == items[1..][i - 1];
    }
  }

  /** Child `k` returns `b` and every child before it returns the other
      value: the point where `any` (b true) or `all` (b false) stops. */
  predicate DecidedAt(items: seq<JSON>, payload: JSON, k: int, b: bool)
    requires 0 <= k < |items|
  {
    && EvaluateCondition(items[k], payload) == Returns(b)
    && forall j :: 0 <= j < k ==> EvaluateCondition(items[j], payload) == Returns(!b)
  }

  /** Past a first child that returns the other value, being decided at
      `k` is being decided at `k - 1` in the rest of the list. */
  lemma DecidedAtShift(items: seq<JSON>, payload: JSON, k: int, b: bool)
    requires 1 <= k < |items|
    requires EvaluateCondition(items[0], payload) == Returns(!b)
    ensures DecidedAt(items, payload, k, b) <==> DecidedAt(items[1..], payload, k - 1, b)
  {
    assert forall j :: 1 <= j < |items| ==> items[j] == items[1..][j - 1];
    assert items[k] == items[1..][k - 1];
  }

  /** An OR node is true iff some child is true and every child before it
      is false (a raising child before it would have ended `any`). */
  lemma {:induction false} AnyTrueIff(items: seq<JSON>, payload: JSON)
    ensures EvaluateAny(items, payload) == Returns(true)
        <==> exists k :: 0 <= k < |items| && DecidedAt(items, payload, k, true)
    decreases |items|
  {
    if items != [] {
      var head := EvaluateCondition(items[0], payload);
      if head == Returns(true) {
        assert DecidedAt(items, payload, 0, true);
      } else if head == Returns(false) {
        AnyTrueIff(items[1..], payload);
        if EvaluateAny(items[1..], payload) == Returns(true) {
          var k :| 0 <= k < |items[1..]| && DecidedAt(items[1..], payload, k, true);
          DecidedAtShift(items, payload, k + 1, true);
        }
        if exists k :: 0 <= k < |items| && DecidedAt(items, payload, k, true) {
          var k :| 0 <= k < |items| && DecidedAt(items, payload, k, true);
          DecidedAtShift(items, payload, k, true);
        }
      } else {
        forall k | 0 <= k < |items| ensures !DecidedAt(items, payload, k, true) {
          if k > 0 {
            assert EvaluateCondition(items[0], payload) != Returns(false);
          }
        }
      }
    }
  }

  /** An AND node is false iff some child is false and every child before
      it is true. */
  lemma {:induction false} AllFalseIff(items: seq<JSON>, payload: JSON)
    ensures EvaluateAll(items, payload) == Returns(false)
        <==> exists k :: 0 <= k < |items| && DecidedAt(items, payload, k, false)
    decreases |items|
  {
    if items != [] {
      var head := EvaluateCondition(items[0], payload);
      if head == Returns(false) {
        assert DecidedAt(items, payload, 0, false);
      } else if head == Returns(true) {
        AllFalseIff(items[1..], payload);
        if EvaluateAll(items[1..], payload) == Returns(false) {
          var k :| 0 <= k < |items[1..]| && DecidedAt(items[1..], payload, k, false);
          DecidedAtShift(items, payload, k + 1, false);
        }
        if exists k :: 0 <= k < |items| && DecidedAt(items, payload, k, false) {
          var k :| 0 <= k < |items| && DecidedAt(items, payload, k, false);
          DecidedAtShift(items, payload, k, false);
        }
      } else {
        forall k | 0 <= k < |items| ensures !DecidedAt(items, payload, k, false) {
          if k > 0 {
            assert EvaluateCondition(items[0], payload) != Returns(true);
          }
        }
      }
    }
  }

  /** Short-circuit: once `all` has met a false child (or raised), children
      after it are never evaluated, so appending any children changes nothing. */
  lemma {:induction false} AllShortCircuits(items: seq<JSON>, rest: seq<JSON>, payload: JSON)
    requires EvaluateAll(items, payload) != Returns(true)
    ensures EvaluateAll(items + rest, payload) == EvaluateAll(items, payload)
    decreases |items|
  {
    assert items != [];
    assert (items + rest)[0] == items[0];
    assert (items + rest)[1..] == items[1..] + rest;
    if EvaluateCondition(items[0], payload) == Returns(true) {
      AllShortCircuits(items[1..], rest, payload);
    }
  }

  /** Short-circuit: once `any` has met a true child (or raised), children
      after it are never evaluated. */
  lemma {:induction false} AnyShortCircuits(items: seq<JSON>, rest: seq<JSON>, payload: JSON)
    requires EvaluateAny(items, payload) != Returns(false)
    ensures EvaluateAny(items + rest, payload) == EvaluateAny(items, payload)
    decreases |items|
  {
    assert items != [];
    assert (items + rest)[0] == items[0];
    assert (items + rest)[1..] == items[1..] + rest;
    if EvaluateCondition(items[0], payload) == Returns(false) {
      AnyShortCircuits(items[1..], rest, payload);
    }
  }

  /** `{"AND": [a, b]}` behaves as Python's `a and b` when neither child
      raises. */
  lemma AndOfTwo(a: JSON, b: JSON, payload: JSON)
    requires EvaluateCondition(a, payload).Returns? && EvaluateCondition(b, payload).Returns?
    ensures EvaluateCondition(JObject(map["AND" := JArray([a, b])]), payload)
         == Returns(EvaluateCondition(a, payload).value && EvaluateCondition(b, payload).value)
  {
    var m := map["AND" := JArray([a, b])];
    assert EvaluateCondition(JObject(m), payload) == EvaluateAll([a, b], payload);
    assert [a, b][1..] == [b];
    assert EvaluateAll([b], payload) == EvaluateCondition(b, payload) by {
      assert [b][1..] == [];
    }
  }

  /** `{"OR": [a, b]}` behaves as Python's `a or b` when neither child
      raises. */
  lemma OrOfTwo(a: JSON, b: JSON, payload: JSON)
    requires EvaluateCondition(a, payload).Returns? && EvaluateCondition(b, payload).Returns?
    ensures EvaluateCondition(JObject(map["OR" := JArray([a, b])]), payload)
         == Returns(EvaluateCondition(a, payload).value || EvaluateCondition(b, payload).value)
  {
    var m := map["OR" := JArray([a, b])];
    assert "AND" !in m;
    assert EvaluateCondition(JObject(m), payload) == EvaluateAny([a, b], payload);
    assert [a, b][1..] == [b];
    assert EvaluateAny([b], payload) == EvaluateCondition(b, payload) by {
      assert [b][1..] == [];
    }
  }

  /** Dispatch precedence: an `AND` key decides the node, whatever else the
      node holds (an `OR` key, leaf keys). */
  lemma AndKeyWins(m: map<string, JSON>, payload: JSON)
    requires "AND" in m
    ensures EvaluateCondition(JObject(m), payload)
         == EvaluateCondition(JObject(map["AND" := m["AND"]]), payload)
  {
  }

  /** Without `AND`, an `OR` key decides the node over any leaf keys. */
  lemma OrKeyWins(m: map<string, JSON>, payload: JSON)
    requires "AND" !in m && "OR" in m
    ensures EvaluateCondition(JObject(m), payload)
         == EvaluateCondition(JObject(map["OR" := m["OR"]]), payload)
  {
  }

  /** Empty logic lists: `all([])` is true and `any([])` is false. */
  lemma EmptyLists(payload: JSON)
    ensures EvaluateCondition(JObject(map["AND" := JArray([])]), payload) == Returns(true)
    ensures EvaluateCondition(JObject(map["OR" := JArray([])]), payload) == Returns(false)
  {
  }

  /** Fail-closed leaves: a missing or falsy `field` or `operator`, a missing
      or null `value`, or an operator token outside the table makes the leaf
      false, never an exception. */
  lemma IncompleteLeafIsFalse(m: map<string, JSON>, payload: JSON)
    requires "AND" !in m && "OR" !in m
    requires || "field" !in m || !Truthy(m["field"])
             || "operator" !in m || !Truthy(m["operator"])
             || "value" !in m || m["value"] == JNull
             || (Hashable(m["operator"]) && !(m["operator"].JString? && m["operator"].s in Models.ValidOperators))
    ensures EvaluateCondition(JObject(m), payload) == Returns(false)
  {
  }

  /** A complete leaf with a string field is true exactly when the field's
      path resolves and the operator, applied without raising, says true;
      in every other case it is false, never an exception. */
  lemma LeafTrueIff(m: map<string, JSON>, payload: JSON)
    requires "AND" !in m && "OR" !in m
    requires "field" in m && m["field"].JString?
    requires "operator" in m && m["operator"].JString? && m["operator"].s in Models.ValidOperators
    requires "value" in m && m["value"] != JNull
    ensures EvaluateCondition(JObject(m), payload).Returns?
    ensures EvaluateCondition(JObject(m), payload) == Returns(true)
        <==> m["field"].s != ""
             && (exists v :: Resolve(payload, SplitDots(m["field"].s)) == Some(v)
                             && Apply(ParseOperator(m["operator"].s).value, v, m["value"]) == Some(true))
  {
  }

  /** A leaf whose dotted path breaks at any depth is false. */
  lemma BrokenPathLeafIsFalse(m: map<string, JSON>, payload: JSON, k: nat, w: JSON)
    requires "AND" !in m && "OR" !in m
    requires "field" in m && m["field"].JString?
    requires "operator" in m && m["operator"].JString? && m["operator"].s in Models.ValidOperators
    requires "value" in m && m["value"] != JNull
    requires k < |SplitDots(m["field"].s)|
    requires Resolve(payload, SplitDots(m["field"].s)[..k]) == Some(w)
    requires !w.JObject? || SplitDots(m["field"].s)[k] !in w.fields
    ensures EvaluateCondition(JObject(m), payload) == Returns(false)
  {
    BrokenPathFails(payload, SplitDots(m["field"].s), k, w);
  }

  /** The outcome of `evaluate_rules`: the two name lists, or the exception
      that escaped `evaluate_condition` for some rule. */
  datatype RulesOutcome =
    | Completed(passedRules: seq<string>, failedRules: seq<string>)
    | Raised(fault: Fault)

  /** The specification of `evaluate_rules`, by the prefix the loop has done. */
  function Aggregate(ruleConditions: seq<(string, JSON)>, payload: JSON): RulesOutcome
    decreases |ruleConditions|
  {
    if ruleConditions == [] then Completed([], [])
    else
      var last := ruleConditions[|ruleConditions| - 1];
      match Aggregate(ruleConditions[..|ruleConditions| - 1], payload)
      case Raised(f) => Raised(f)
      case Completed(passed, failed) =>
        match EvaluateCondition(last.1, payload)
        case Raises(f) => Raised(f)
        case Returns(b) =>
          if b then Completed(passed + [last.0], failed) else Completed(passed, failed + [last.0])
  }

  /** Once a rule has raised, the rest of the list does not matter. */
  lemma {:induction false} RaisedPrefixRaises(ruleConditions: seq<(string, JSON)>, k: nat, payload: JSON)
    requires k <= |ruleConditions|
    requires Aggregate(ruleConditions[..k], payload).Raised?
    ensures Aggregate(ruleConditions, payload) == Aggregate(ruleConditions[..k], payload)
    decreases |ruleConditions| - k
  {
    if k < |ruleConditions| {
      var next := ruleConditions[..k + 1];
      assert next[..k] == ruleConditions[..k];
      RaisedPrefixRaises(ruleConditions, k + 1, payload);
    } else {
      assert ruleConditions[..k] == ruleConditions;
    }
  }

  /** `evaluate_rules`: one pass over the pairs, appending each name to the
      passed or the failed list. */
  method EvaluateRules(ruleConditions: seq<(string, JSON)>, payload: JSON) returns (r: RulesOutcome)
    ensures r == Aggregate(ruleConditions, payload)
  {
    var passed: seq<string> := [];
    var failed: seq<string> := [];
    var i := 0;
    while i < |ruleConditions|
      invariant 0 <= i <= |ruleConditions|
      invariant Aggregate(ruleConditions[..i], payload) == Completed(passed, failed)
    {
      var (name, condition) := ruleConditions[i];
      assert ruleConditions[..i + 1][..i] == ruleConditions[..i];
      var outcome := EvaluateCondition(condition, payload);
      if outcome.Raises? {
        RaisedPrefixRaises(ruleConditions, i + 1, payload);
        return Raised(outcome.fault);
      }
      if outcome.value {
        passed := passed + [name];
      } else {
        failed := failed + [name];
      }
      i := i + 1;
    }
    assert ruleConditions[..i] == ruleConditions;
    r := Completed(passed, failed);
  }

  /** The rule names, in order. */
  function Names(ruleConditions: seq<(string, JSON)>): seq<string>
    decreases |ruleConditions|
  {
    if ruleConditions == [] then []
    else Names(ruleConditions[..|ruleConditions| - 1]) + [ruleConditions[|ruleConditions| - 1].0]
  }

  /** `Names` lists the first components, position by position. */
  lemma {:induction false} NamesAt(ruleConditions: seq<(string, JSON)>)
    ensures |Names(ruleConditions)| == |ruleConditions|
    ensures forall i :: 0 <= i < |ruleConditions| ==> Names(ruleConditions)[i] == ruleConditions[i].0
    decreases |ruleConditions|
  {
    if ruleConditions != [] {
      NamesAt(ruleConditions[..|ruleConditions| - 1]);
    }
  }

  /** The names, in input order, of the rules whose condition returns `b`. */
  function NamesWhere(ruleConditions: seq<(string, JSON)>, payload: JSON, b: bool): seq<string>
    decreases |ruleConditions|
  {
    if ruleConditions == [] then []
    else
      var last := ruleConditions[|ruleConditions| - 1];
      NamesWhere(ruleConditions[..|ruleConditions| - 1], payload, b)
        + (if EvaluateCondition(last.1, payload) == Returns(b) then [last.0] else [])
  }

  /** `evaluate_rules` returns exactly when no condition raises. */
  lemma {:induction false} AggregateCompletes(ruleConditions: seq<(string, JSON)>, payload: JSON)
    ensures Aggregate(ruleConditions, payload).Completed?
        <==> forall i :: 0 <= i < |ruleConditions| ==> EvaluateCondition(ruleConditions[i].1, payload).Returns?
    decreases |ruleConditions|
  {
    if ruleConditions != [] {
      var n := |ruleConditions| - 1;
      var init := ruleConditions[..n];
      AggregateCompletes(init, payload);
      assert forall i :: 0 <= i < n ==> init[i] == ruleConditions[i];
    }
  }

  /** When it returns, the passed list holds the names of the true rules
      and the failed list those of the false ones, each in input order. */
  lemma {:induction false} AggregateLists(ruleConditions: seq<(string, JSON)>, payload: JSON)
    requires Aggregate(ruleConditions, payload).Completed?
    ensures Aggregate(ruleConditions, payload).passedRules == NamesWhere(ruleConditions, payload, true)
    ensures Aggregate(ruleConditions, payload).failedRules == NamesWhere(ruleConditions, payload, false)
    decreases |ruleConditions|
  {
    if ruleConditions != [] {
      AggregateLists(ruleConditions[..|ruleConditions| - 1], payload);
    }
  }

  /** When no condition raises, every name lands in one of the two lists:
      their lengths add up to the number of rules. */
  lemma {:induction false} NamesWherePartition(ruleConditions: seq<(string, JSON)>, payload: JSON)
    requires forall i :: 0 <= i < |ruleConditions| ==> EvaluateCondition(ruleConditions[i].1, payload).Returns?
    ensures |NamesWhere(ruleConditions, payload, true)| + |NamesWhere(ruleConditions, payload, false)|
         == |ruleConditions|
    decreases |ruleConditions|
  {
    if ruleConditions != [] {
      var n := |ruleConditions| - 1;
      var init := ruleConditions[..n];
      assert forall i :: 0 <= i < n ==> EvaluateCondition(init[i].1, payload).Returns? by {
        assert forall i :: 0 <= i < n ==> init[i] == ruleConditions[i];
      }
      NamesWherePartition(init, payload);
      var last := ruleConditions[n];
      var passed, failed := NamesWhere(init, payload, true), NamesWhere(init, payload, false);
      assert Names(ruleConditions) == Names(init) + [last.0];
      if EvaluateCondition(last.1, payload) == Returns(true) {
        assert NamesWhere(ruleConditions, payload, true) == passed + [last.0];
        assert NamesWhere(ruleConditions, payload, false) == failed;
      } else {
        assert EvaluateCondition(last.1, payload) == Returns(false);
        assert NamesWhere(ruleConditions, payload, true) == passed;
        assert NamesWhere(ruleConditions, payload, false) == failed + [last.0];
      }
    }
  }

  /** ... and together the two lists hold each input name as often as the
      input does. */
  lemma {:induction false} NamesWhereMultiset(ruleConditions: seq<(string, JSON)>, payload: JSON)
    requires forall i :: 0 <= i < |ruleConditions| ==> EvaluateCondition(ruleConditions[i].1, payload).Returns?
    ensures multiset(NamesWhere(ruleConditions, payload, true)) + multiset(NamesWhere(ruleConditions, payload, false))
         == multiset(Names(ruleConditions))
    decreases |ruleConditions|
  {
    if ruleConditions != [] {
      var n := |ruleConditions| - 1;
      var init := ruleConditions[..n];
      assert forall i :: 0 <= i < n ==> EvaluateCondition(init[i].1, payload).Returns? by {
        assert forall i :: 0 <= i < n ==> init[i] == ruleConditions[i];
      }
      NamesWhereMultiset(init, payload);
      NamesWhereStep(ruleConditions, payload);
      BalanceStep(NamesWhere(init, payload, true), NamesWhere(init, payload, false), Names(init), ruleConditions[n].0,
                  NamesWhere(ruleConditions, payload, true), NamesWhere(ruleConditions, payload, false));
    }
  }

  /** One more rule whose condition returns adds its name to the input
      names and to exactly one of the two lists. */
  lemma NamesWhereStep(ruleConditions: seq<(string, JSON)>, payload: JSON)
    requires ruleConditions != []
    requires EvaluateCondition(ruleConditions[|ruleConditions| - 1].1, payload).Returns?
    ensures var n := |ruleConditions| - 1;
      var x, init := ruleConditions[n].0, ruleConditions[..n];
      var passed, failed := NamesWhere(init, payload, true), NamesWhere(init, payload, false);
      && Names(ruleConditions) == Names(init) + [x]
      && ((NamesWhere(ruleConditions, payload, true) == passed + [x] && NamesWhere(ruleConditions, payload, false) == failed)
          || (NamesWhere(ruleConditions, payload, true) == passed && NamesWhere(ruleConditions, payload, false) == failed + [x]))
  {
  }

  /** Adding a name to the input and to exactly one of the two lists keeps
      the lists' multiset union equal to the input's. */
  lemma BalanceStep(passed: seq<string>, failed: seq<string>, names: seq<string>, x: string,
                    passed': seq<string>, failed': seq<string>)
    requires multiset(passed) + multiset(failed) == multiset(names)
    requires (passed' == passed + [x] && failed' == failed) || (passed' == passed && failed' == failed + [x])
    ensures multiset(passed') + multiset(failed') == multiset(names + [x])
  {
  }

  /** The whole contract of `evaluate_rules` on one page. */
  lemma AggregatePartition(ruleConditions: seq<(string, JSON)>, payload: JSON)
    requires Aggregate(ruleConditions, payload).Completed?
    ensures |Aggregate(ruleConditions, payload).passedRules| + |Aggregate(ruleConditions, payload).failedRules|
         == |ruleConditions|
    ensures multiset(Aggregate(ruleConditions, payload).passedRules)
          + multiset(Aggregate(ruleConditions, payload).failedRules)
         == multiset(Names(ruleConditions))
  {
    AggregateCompletes(ruleConditions, payload);
    AggregateLists(ruleConditions, payload);
    NamesWherePartition(ruleConditions, payload);
    NamesWhereMultiset(ruleConditions, payload);
  }

  /** Every rule passes (nothing failed, nothing raised) iff every
      condition returns true. */
  lemma NoFailureIff(ruleConditions: seq<(string, JSON)>, payload: JSON)
    ensures Aggregate(ruleConditions, payload) == Completed(Names(ruleConditions), [])
        <==> forall i :: 0 <= i < |ruleConditions| ==> EvaluateCondition(ruleConditions[i].1, payload) == Returns(true)
    ensures (Aggregate(ruleConditions, payload).Completed? && Aggregate(ruleConditions, payload).failedRules == [])
        <==> forall i :: 0 <= i < |ruleConditions| ==> EvaluateCondition(ruleConditions[i].1, payload) == Returns(true)
  {
    NoFailureIffRec(ruleConditions, payload);
  }

  lemma {:induction false} NoFailureIffRec(ruleConditions: seq<(string, JSON)>, payload: JSON)
    ensures (Aggregate(ruleConditions, payload).Completed? && Aggregate(ruleConditions, payload).failedRules == [])
        <==> Aggregate(ruleConditions, payload) == Completed(Names(ruleConditions), [])
    ensures Aggregate(ruleConditions, payload) == Completed(Names(ruleConditions), [])
        <==> forall i :: 0 <= i < |ruleConditions| ==> EvaluateCondition(ruleConditions[i].1, payload) == Returns(true)
    decreases |ruleConditions|
  {
    if ruleConditions != [] {
      var n := |ruleConditions| - 1;
      var init := ruleConditions[..n];
      NoFailureIffRec(init, payload);
      assert forall i :: 0 <= i < n ==> init[i] == ruleConditions[i];
    }
  }
}
