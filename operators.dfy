/** `RuleEvaluation.OPERATORS`: the seven leaf operators and what each does
    to the value resolved from the payload and the value in the rule. */
module Operators {
  import opened Json
  import Models

  datatype Operator = Eq | Ne | Gt | Lt | Ge | Le | Contains

  /** Looking a token up in the operator table. The table's keys are
      exactly the tokens the validator accepts. */
  function ParseOperator(token: string): (r: Option<Operator>)
    ensures r.Some? <==> token in Models.ValidOperators
  {
    match token
    case "==" => Some(Eq)
    case "!=" => Some(Ne)
    case ">" => Some(Gt)
    case "<" => Some(Lt)
    case ">=" => Some(Ge)
    case "<=" => Some(Le)
    case "contains" => Some(Contains)
    case _ => None
  }

  /** Python's `needle in hay` on two strings, scanning start positions. */
  predicate IsSubstring(needle: string, hay: string)
    decreases |hay|
  {
    needle <= hay || (hay != [] && IsSubstring(needle, hay[1..]))
  }

  /** The scan agrees with "some suffix of `hay` starts with `needle`". */
  lemma {:induction false} SubstringAt(needle: string, hay: string)
    ensures IsSubstring(needle, hay) <==> exists i :: 0 <= i <= |hay| && needle <= hay[i..]
    decreases |hay|
  {
    if hay == [] {
      assert hay[0..] == hay;
    } else {
      var rest := hay[1..];
      SubstringAt(needle, rest);
      if IsSubstring(needle, hay) {
        if needle <= hay {
          assert hay[0..] == hay;
        } else {
          var i :| 0 <= i <= |rest| && needle <= rest[i..];
          assert rest[i..] == hay[i + 1..];
        }
      }
      if exists i :: 0 <= i <= |hay| && needle <= hay[i..] {
        var i :| 0 <= i <= |hay| && needle <= hay[i..];
        if i == 0 {
          assert hay[0..] == hay;
        } else {
          assert rest[i - 1..] == hay[i..];
        }
      }
    }
  }

  /** The `contains` lambda: `b in a` when `a` is a list, string or dict,
      False for anything else. None stands for the TypeError that `in`
      raises on a string with a non-string needle, or on a dict with an
      unhashable needle. */
  function ContainsOp(a: JSON, b: JSON): Option<bool> {
    match a
    case JArray(xs) => Some(exists i :: 0 <= i < |xs| && PyEq(xs[i], b))
    case JString(s) => if b.JString? then Some(IsSubstring(b.s, s)) else None
    case JObject(m) => if Hashable(b) then Some(b.JString? && b.s in m) else None
    case _ => Some(false)
  }

  /** What `contains` means for each kind of container. */
  lemma ContainsMeaning(a: JSON, b: JSON)
    ensures a.JArray? ==> (ContainsOp(a, b) == Some(true) <==> exists x :: x in a.items && PyEq(x, b))
    ensures a.JString? ==>
      (ContainsOp(a, b) == Some(true) <==> b.JString? && exists i :: 0 <= i <= |a.s| && b.s <= a.s[i..])
    ensures a.JObject? ==> (ContainsOp(a, b) == Some(true) <==> b.JString? && b.s in a.fields)
    ensures !a.JArray? && !a.JString? && !a.JObject? ==> ContainsOp(a, b) == Some(false)
  {
    if a.JString? && b.JString? {
      SubstringAt(b.s, a.s);
    }
    if a.JArray? {
      if exists x :: x in a.items && PyEq(x, b) {
        var x :| x in a.items && PyEq(x, b);
        var i :| 0 <= i < |a.items| && a.items[i] == x;
      }
    }
  }

  /** `OPERATORS[op](a, b)`; None where the call raises TypeError. */
  function Apply(op: Operator, a: JSON, b: JSON): Option<bool> {
    match op
    case Eq => Some(PyEq(a, b))
    case Ne => Some(!PyEq(a, b))
    case Gt => Order(Greater, a, b)
    case Lt => Order(Less, a, b)
    case Ge => Order(AtLeast, a, b)
    case Le => Order(AtMost, a, b)
    case Contains => ContainsOp(a, b)
  }

  /** `==` and `!=` never raise and always disagree; the ordering operators
      raise on the same operand pairs as their converses and agree with them. */
  lemma ApplyProperties(a: JSON, b: JSON)
    ensures Apply(Eq, a, b).Some? && Apply(Ne, a, b).Some?
    ensures Apply(Eq, a, b).value != Apply(Ne, a, b).value
    ensures Apply(Eq, a, b) == Apply(Eq, b, a)
    ensures Apply(Gt, a, b) == Apply(Lt, b, a)
    ensures Apply(Ge, a, b) == Apply(Le, b, a)
  {
    PyEqSymmetric(a, b);
    OrderConverse(Greater, a, b);
    OrderConverse(AtLeast, a, b);
  }
}
