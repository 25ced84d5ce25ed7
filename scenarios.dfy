/** Concrete conditions and payloads from the service's own test cases,
    evaluated by the model. */
module Scenarios {
  import opened Json
  import opened Evaluator
  import Models
  import Operators

  function Leaf(field: string, op: string, value: JSON): JSON {
    JObject(map["field" := JString(field), "operator" := JString(op), "value" := value])
  }

  function Person(age: int, country: string): JSON {
    JObject(map["age" := JInt(age), "country" := JString(country)])
  }

  /** Adults living in Thailand or Singapore. */
  function AdultInRegion(): JSON {
    JObject(map["AND" := JArray([
      Leaf("age", ">=", JInt(18)),
      JObject(map["OR" := JArray([
        Leaf("country", "==", JString("Thailand")),
        Leaf("country", "==", JString("Singapore"))])])])])
  }

  /** A leaf on a plain (dot-free) top-level key applies its operator to
      the payload's value under that key. */
  lemma PlainLeaf(field: string, op: string, value: JSON, payload: JSON)
    requires field != "" && '.' !in field
    requires op in Models.ValidOperators && value != JNull
    requires payload.JObject? && field in payload.fields
    ensures EvaluateCondition(Leaf(field, op, value), payload)
         == Returns(Operators.Apply(Operators.ParseOperator(op).value, payload.fields[field], value) == Some(true))
  {
    SplitWithoutDots(field);
    assert Resolve(payload, [field]) == Some(payload.fields[field]) by {
      assert [field][1..] == [];
    }
    var m := Leaf(field, op, value).fields;
    assert "AND" !in m && "OR" !in m;
    assert m["field"] == JString(field) && m["operator"] == JString(op) && m["value"] == value;
  }

  /** The age test of the example, on any person. */
  lemma AgeLeaf(age: int, country: string)
    ensures EvaluateCondition(Leaf("age", ">=", JInt(18)), Person(age, country)) == Returns(age >= 18)
  {
    var p := Person(age, country);
    assert '.' !in "age";
    assert ">=" in Models.ValidOperators;
    assert "age" in p.fields && p.fields["age"] == JInt(age);
    PlainLeaf("age", ">=", JInt(18), p);
    assert Operators.ParseOperator(">=") == Some(Operators.Ge);
    assert Operators.Apply(Operators.Ge, JInt(age), JInt(18)) == Some(age >= 18);
  }

  /** The country test of the example, on any person. */
  lemma CountryLeaf(age: int, country: string, place: string)
    ensures EvaluateCondition(Leaf("country", "==", JString(place)), Person(age, country))
         == Returns(country == place)
  {
    var p := Person(age, country);
    assert '.' !in "country";
    assert "==" in Models.ValidOperators;
    assert "country" in p.fields && p.fields["country"] == JString(country);
    PlainLeaf("country", "==", JString(place), p);
    assert Operators.ParseOperator("==") == Some(Operators.Eq);
    assert Operators.Apply(Operators.Eq, JString(country), JString(place)) == Some(country == place);
  }

  /** The nested example: true exactly for adults in either country. */
  lemma AdultInRegionMeaning(age: int, country: string)
    ensures EvaluateCondition(AdultInRegion(), Person(age, country))
         == Returns(age >= 18 && (country == "Thailand" || country == "Singapore"))
  {
    var p := Person(age, country);
    var thai, sing := Leaf("country", "==", JString("Thailand")), Leaf("country", "==", JString("Singapore"));
    AgeLeaf(age, country);
    CountryLeaf(age, country, "Thailand");
    CountryLeaf(age, country, "Singapore");
    OrOfTwo(thai, sing, p);
    AndOfTwo(Leaf("age", ">=", JInt(18)), JObject(map["OR" := JArray([thai, sing])]), p);
  }

  /** The cases listed in the tests. */
  lemma AdultInRegionCases()
    ensures EvaluateCondition(AdultInRegion(), Person(18, "Thailand")) == Returns(true)
    ensures EvaluateCondition(AdultInRegion(), Person(21, "Singapore")) == Returns(true)
    ensures EvaluateCondition(AdultInRegion(), Person(17, "Thailand")) == Returns(false)
    ensures EvaluateCondition(AdultInRegion(), Person(21, "Japan")) == Returns(false)
  {
    AdultInRegionMeaning(18, "Thailand");
    AdultInRegionMeaning(21, "Singapore");
    AdultInRegionMeaning(17, "Thailand");
    AdultInRegionMeaning(21, "Japan");
  }
}
