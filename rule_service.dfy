/** `RuleService.get_rules_by_names`: all-or-nothing resolution of rule
    names to stored conditions, over the active-only name filter. */
module RuleService {
  import opened Json
  import opened Models

  /** The pairs `(name, condition)`, or the RuleNotFoundError it raises. */
  datatype Resolution = Resolved(pairs: seq<(string, JSON)>) | RuleNotFound

  /** Some stored rule with this name is active. */
  predicate IsActiveRule(store: seq<Rule>, name: string) {
    exists i :: 0 <= i < |store| && store[i].name == name && store[i].isActive
  }

  function Pairs(rules: seq<Rule>): (r: seq<(string, JSON)>)
    ensures |r| == |rules|
    ensures forall i :: 0 <= i < |rules| ==> r[i] == (rules[i].name, rules[i].condition)
  {
    seq(|rules|, i requires 0 <= i < |rules| => (rules[i].name, rules[i].condition))
  }

  /** `get_rules_by_names`: the set of requested names minus the set of
      names found among active rules must be empty; then every matching
      active rule is returned as a pair. */
  function GetRulesByNames(store: seq<Rule>, names: seq<string>): (r: Resolution)
    ensures r.Resolved? <==> forall n :: n in names ==> IsActiveRule(store, n)
    ensures r.Resolved? ==>
      forall p :: p in r.pairs ==> p.0 in names && Rule(p.0, p.1, true) in store
  {
    var rules := ByNames(store, names);
    ByNamesMembers(store, names);
    var found := set x | x in rules :: x.name;
    var missing := (set n | n in names) - found;
    assert forall i :: 0 <= i < |store| && store[i].name in names && store[i].isActive ==> store[i].name in found by {
      forall i | 0 <= i < |store| && store[i].name in names && store[i].isActive ensures store[i].name in found {
        assert store[i] in rules;
      }
    }
    if missing != {} then
      assert exists n :: n in names && !IsActiveRule(store, n) by {
        var n :| n in missing;
        assert n in names && n !in found;
      }
      RuleNotFound
    else
      assert forall n :: n in names ==> IsActiveRule(store, n) by {
        forall n | n in names ensures IsActiveRule(store, n) {
          assert n !in missing;
          var x :| x in rules && x.name == n;
          var i :| 0 <= i < |store| && store[i] == x;
        }
      }
      Resolved(Pairs(rules))
  }

  /** With unique rule names (as the store guarantees), a successful
      resolution lists every requested name exactly once, each with the
      condition of the active rule stored under that name. */
  lemma ResolvedExactlyOnce(store: seq<Rule>, names: seq<string>)
    requires UniqueNames(store)
    requires GetRulesByNames(store, names).Resolved?
    ensures var pairs := GetRulesByNames(store, names).pairs;
      forall n :: n in names ==> exists k :: 0 <= k < |pairs| && pairs[k].0 == n
    ensures var pairs := GetRulesByNames(store, names).pairs;
      forall i, j :: 0 <= i < |pairs| && 0 <= j < |pairs| && pairs[i].0 == pairs[j].0 ==> i == j
  {
    var rules := ByNames(store, names);
    var pairs := Pairs(rules);
    assert GetRulesByNames(store, names).pairs == pairs;
    ByNamesUnique(store, names);
    ByNamesMembers(store, names);
    forall i, j | 0 <= i < |pairs| && 0 <= j < |pairs| && pairs[i].0 == pairs[j].0 ensures i == j {
      assert rules[i].name == rules[j].name;
    }
    forall n | n in names ensures exists k :: 0 <= k < |pairs| && pairs[k].0 == n {
      var i :| 0 <= i < |store| && store[i].name == n && store[i].isActive;
      assert store[i] in rules;
      var k :| 0 <= k < |rules| && rules[k] == store[i];
      assert pairs[k].0 == n;
    }
  }

  /** Filtering distributes over concatenation. */
  lemma {:induction false} ByNamesAppend(a: seq<Rule>, b: seq<Rule>, names: seq<string>)
    ensures ByNames(a + b, names) == ByNames(a, names) + ByNames(b, names)
    decreases |a|
  {
    if a == [] {
      assert a + b == b;
    } else {
      ByNamesAppend(a[1..], b, names);
      var head := if a[0].name in names && a[0].isActive then [a[0]] else [];
      assert (a + b)[0] == a[0];
      assert (a + b)[1..] == a[1..] + b;
      assert ByNames(a + b, names) == head + ByNames(a[1..] + b, names);
      assert ByNames(a, names) == head + ByNames(a[1..], names);
    }
  }

  /** `ByNames` cannot tell an inactive rule from a missing one. */
  lemma ByNamesSkipsInactive(store: seq<Rule>, k: nat, names: seq<string>)
    requires k < |store|
    ensures ByNames(store[k := store[k].(isActive := false)], names) == ByNames(store[..k] + store[k + 1..], names)
  {
    var before, after := store[..k], store[k + 1..];
    var inactive := [store[k].(isActive := false)];
    assert store[k := store[k].(isActive := false)] == before + (inactive + after);
    ByNamesAppend(before, inactive + after, names);
    ByNamesAppend(inactive, after, names);
    assert inactive[1..] == [];
    ByNamesAppend(before, after, names);
  }

  /** Resolution treats an inactive rule exactly as an absent one. */
  lemma InactiveIsAbsent(store: seq<Rule>, k: nat, names: seq<string>)
    requires k < |store|
    ensures GetRulesByNames(store[k := store[k].(isActive := false)], names)
         == GetRulesByNames(store[..k] + store[k + 1..], names)
  {
    ByNamesSkipsInactive(store, k, names);
  }

  /** Resolution depends only on which names are requested, not on their
      order or repetition. */
  lemma {:induction false} OnlyNameSetMatters(store: seq<Rule>, names: seq<string>, names': seq<string>)
    requires forall n :: n in names <==> n in names'
    ensures ByNames(store, names) == ByNames(store, names')
    ensures GetRulesByNames(store, names) == GetRulesByNames(store, names')
    decreases |store|
  {
    if store != [] {
      OnlyNameSetMatters(store[1..], names, names');
    }
    assert (set n | n in names) == (set n | n in names');
  }
}
