/** The rule model: the structural validator that guards a rule's condition
    tree (`validate_condition_json`, `validate_subcondition`), the rule
    record with its unique name, and the active-only name filter
    (`RuleQuerySet.by_names`). */
module Models {
  import opened Json

  /** The operator tokens a leaf condition may carry. */
  const ValidOperators: set<string> := {"==", "!=", ">", "<", ">=", "<=", "contains"}

  /** The keys a leaf condition must have. */
  const RequiredKeys: set<string> := {"field", "operator", "value"}

  /** Why a condition is refused. `OperatorUnhashable` stands for the
      TypeError that the operator-set membership test raises on a list or
      dict operator: the condition is refused all the same. `FieldNotString`
      is produced only by the stricter validator of `StrictValidation`. */
  datatype Rejection =
    | NotAnObject
    | LogicNotAList
    | MissingLeafKeys
    | OperatorUnhashable
    | UnknownOperator
    | FieldNotString

  datatype Validation = Accepted | Refused(reason: Rejection)

  /** `validate_condition_json`: an `AND` list wins, then an `OR` list; a
      node with either key but no list under the winning key is refused;
      a node with neither key is a leaf. */
  function ValidateConditionJson(c: JSON): Validation
    decreases c
  {
    match c
    case JObject(m) =>
      if "AND" in m || "OR" in m then
        if "AND" in m && m["AND"].JArray? then ValidateEach(m["AND"].items)
        else if "OR" in m && m["OR"].JArray? then ValidateEach(m["OR"].items)
        else Refused(LogicNotAList)
      else
        ValidateSubcondition(m)
    case _ => Refused(NotAnObject)
  }

  /** The `for` loop over a sub-condition list: the first refusal is raised. */
  function ValidateEach(items: seq<JSON>): Validation
    decreases items
  {
    if items == [] then Accepted
    else if ValidateConditionJson(items[0]).Refused? then ValidateConditionJson(items[0])
    else ValidateEach(items[1..])
  }

  /** `validate_subcondition`: all three keys, then an operator among the seven. */
  function ValidateSubcondition(m: map<string, JSON>): Validation {
    if !(RequiredKeys <= m.Keys) then Refused(MissingLeafKeys)
    else if !Hashable(m["operator"]) then Refused(OperatorUnhashable)
    else if !(m["operator"].JString? && m["operator"].s in ValidOperators) then Refused(UnknownOperator)
    else Accepted
  }

  /** A sub-condition list is accepted exactly when every element is. */
  lemma {:induction false} ValidateEachAccepted(items: seq<JSON>)
    ensures ValidateEach(items) == Accepted
        <==> forall i :: 0 <= i < |items| ==> ValidateConditionJson(items[i]) == Accepted
    decreases |items|
  {
    if items != [] {
      ValidateEachAccepted(items[1..]);
      assert forall i :: 1 <= i < |items| ==> items[i] == items[1..][i - 1];
    }
  }

  /** When `AND` holds a list, the node is valid iff every element is,
      and an `OR` key beside it is never looked at. */
  lemma AndListDecides(m: map<string, JSON>)
    requires "AND" in m && m["AND"].JArray?
    ensures ValidateConditionJson(JObject(m)) == Accepted
        <==> forall i :: 0 <= i < |m["AND"].items| ==> ValidateConditionJson(m["AND"].items[i]) == Accepted
    ensures ValidateConditionJson(JObject(m)) == ValidateConditionJson(JObject(m - {"OR"}))
  {
    ValidateEachAccepted(m["AND"].items);
  }

  /** When `AND` is absent or holds no list and `OR` holds a list, the
      node is valid iff every `OR` element is. */
  lemma OrListDecides(m: map<string, JSON>)
    requires !("AND" in m && m["AND"].JArray?)
    requires "OR" in m && m["OR"].JArray?
    ensures ValidateConditionJson(JObject(m)) == Accepted
        <==> forall i :: 0 <= i < |m["OR"].items| ==> ValidateConditionJson(m["OR"].items[i]) == Accepted
  {
    ValidateEachAccepted(m["OR"].items);
  }

  /** A node naming `AND` or `OR` without a list under either is refused,
      whatever leaf keys it also has. */
  lemma LogicWithoutListRefused(m: map<string, JSON>)
    requires "AND" in m || "OR" in m
    requires !("AND" in m && m["AND"].JArray?) && !("OR" in m && m["OR"].JArray?)
    ensures ValidateConditionJson(JObject(m)) == Refused(LogicNotAList)
  {
  }

  /** A leaf (no `AND`, no `OR`) is accepted iff it has all three keys and
      its operator is one of the seven tokens; non-objects are refused. */
  lemma LeafAcceptedIff(c: JSON)
    requires !(c.JObject? && ("AND" in c.fields || "OR" in c.fields))
    ensures ValidateConditionJson(c) == Accepted
        <==> c.JObject? && "field" in c.fields && "operator" in c.fields && "value" in c.fields
             && c.fields["operator"].JString? && c.fields["operator"].s in ValidOperators
  {
  }

  /** Empty `AND` and `OR` lists are accepted: nothing demands a child. */
  lemma EmptyLogicAccepted(key: string)
    requires key == "AND" || key == "OR"
    ensures ValidateConditionJson(JObject(map[key := JArray([])])) == Accepted
  {
  }

  /** A stored rule. `created_by` and the timestamps play no part in
      evaluation and are not modelled. */
  datatype Rule = Rule(name: string, condition: JSON, isActive: bool)

  /** `unique=True` on `Rule.name`: no two stored rules share a name. */
  predicate UniqueNames(store: seq<Rule>) {
    forall i, j :: 0 <= i < |store| && 0 <= j < |store| && store[i].name == store[j].name ==> i == j
  }

  /** Storing a new rule: refused when its name is taken, else appended. */
  function CreateRule(store: seq<Rule>, rule: Rule): (r: Option<seq<Rule>>)
    ensures r.None? <==> exists i :: 0 <= i < |store| && store[i].name == rule.name
    ensures r.Some? ==> r.value == store + [rule]
    ensures UniqueNames(store) && r.Some? ==> UniqueNames(r.value)
  {
    if exists x :: x in store && x.name == rule.name then None else Some(store + [rule])
  }

  /** `by_names`: `filter(name__in=names, is_active=True)`, in store order. */
  function ByNames(store: seq<Rule>, names: seq<string>): seq<Rule>
    decreases |store|
  {
    if store == [] then []
    else (if store[0].name in names && store[0].isActive then [store[0]] else []) + ByNames(store[1..], names)
  }

  /** The filter keeps exactly the active rules whose name was requested. */
  lemma {:induction false} ByNamesMembers(store: seq<Rule>, names: seq<string>)
    ensures forall x :: x in ByNames(store, names) <==> x in store && x.name in names && x.isActive
    ensures |ByNames(store, names)| <= |store|
    decreases |store|
  {
    if store != [] {
      ByNamesMembers(store[1..], names);
      assert forall x :: x in store <==> x == store[0] || x in store[1..] by {
        assert store == [store[0]] + store[1..];
      }
    }
  }

  /** The filter keeps names unique. */
  lemma {:induction false} ByNamesUnique(store: seq<Rule>, names: seq<string>)
    requires UniqueNames(store)
    ensures UniqueNames(ByNames(store, names))
    decreases |store|
  {
    if store != [] {
      var tail := store[1..];
      assert UniqueNames(tail) by {
        forall i, j | 0 <= i < |tail| && 0 <= j < |tail| && tail[i].name == tail[j].name ensures i == j {
          assert store[i + 1].name == store[j + 1].name;
        }
      }
      ByNamesUnique(tail, names);
      ByNamesMembers(tail, names);
      var rest := ByNames(tail, names);
      forall x | x in rest ensures x.name != store[0].name {
        var k :| 0 <= k < |tail| && tail[k] == x;
        assert store[k + 1] == x;
      }
    }
  }
}
