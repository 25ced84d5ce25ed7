/** JSON values as the service receives them (request payloads and stored
    condition trees), together with the parts of Python's value semantics
    that the rule engine relies on: truthiness, hashability, `==` and the
    four ordering operators. */
module Json {

  datatype Option<+T> = None | Some(value: T)

  /** A decoded JSON document. Every JSON number is an integer here:
      floating-point values are not modelled. */
  datatype JSON =
    | JNull
    | JBool(b: bool)
    | JInt(i: int)
    | JString(s: string)
    | JArray(items: seq<JSON>)
    | JObject(fields: map<string, JSON>)

  /** `dict.get(key)`: None when the key is absent. */
  function Get(m: map<string, JSON>, key: string): (r: Option<JSON>)
    ensures r.Some? <==> key in m
    ensures r.Some? ==> r.value == m[key]
  {
    if key in m then Some(m[key]) else None
  }

  /** Python's `bool(v)`: null, false, 0 and empty containers are false. */
  predicate Truthy(v: JSON) {
    match v
    case JNull => false
    case JBool(b) => b
    case JInt(i) => i != 0
    case JString(s) => s != []
    case JArray(xs) => xs != []
    case JObject(m) => m != map[]
  }

  /** `list` and `dict` cannot be hashed (set or dict membership raises
      TypeError for them); every other JSON value can. */
  predicate Hashable(v: JSON) {
    !v.JArray? && !v.JObject?
  }

  /** `bool` is a subclass of `int`: `True` compares as 1 and `False` as 0. */
  function AsNumber(v: JSON): (r: Option<int>)
    ensures r.Some? <==> v.JBool? || v.JInt?
  {
    match v
    case JBool(b) => Some(if b then 1 else 0)
    case JInt(i) => Some(i)
    case _ => None
  }

  /** Python's `a == b` on decoded JSON. It never raises: values of kinds
      that cannot be equal compare unequal, numbers (bools included) compare
      by value, lists element-wise and dicts key-wise. */
  predicate PyEq(a: JSON, b: JSON)
    decreases a
  {
    match (a, b)
    case (JNull, JNull) => true
    case (JString(s), JString(t)) => s == t
    case (JArray(xs), JArray(ys)) =>
      |xs| == |ys| && forall i :: 0 <= i < |xs| ==> PyEq(xs[i], ys[i])
    case (JObject(m), JObject(n)) =>
      m.Keys == n.Keys && forall k :: k in m ==> PyEq(m[k], n[k])
    case _ =>
      AsNumber(a).Some? && AsNumber(b).Some? && AsNumber(a).value == AsNumber(b).value
  }

  lemma {:induction false} PyEqReflexive(a: JSON)
    ensures PyEq(a, a)
    decreases a
  {
    match a
    case JArray(xs) =>
      forall i | 0 <= i < |xs| ensures PyEq(xs[i], xs[i]) {
        PyEqReflexive(xs[i]);
      }
    case JObject(m) =>
      forall k | k in m ensures PyEq(m[k], m[k]) {
        PyEqReflexive(m[k]);
      }
    case _ =>
  }

  lemma {:induction false} PyEqSymmetric(a: JSON, b: JSON)
    ensures PyEq(a, b) == PyEq(b, a)
    decreases a
  {
    match (a, b)
    case (JArray(xs), JArray(ys)) =>
      if |xs| == |ys| {
        forall i | 0 <= i < |xs| ensures PyEq(xs[i], ys[i]) == PyEq(ys[i], xs[i]) {
          PyEqSymmetric(xs[i], ys[i]);
        }
      }
    case (JObject(m), JObject(n)) =>
      if m.Keys == n.Keys {
        forall k | k in m ensures PyEq(m[k], n[k]) == PyEq(n[k], m[k]) {
          PyEqSymmetric(m[k], n[k]);
        }
      }
    case _ =>
  }

  /** The ordering operators `<`, `<=`, `>`, `>=`. */
  datatype Rel = Less | AtMost | Greater | AtLeast

  predicate Holds(rel: Rel, x: int, y: int) {
    match rel
    case Less => x < y
    case AtMost => x <= y
    case Greater => x > y
    case AtLeast => x >= y
  }

  /** The operator Python tries on the right operand: `a < b` is `b > a`. */
  function Converse(rel: Rel): Rel {
    match rel
    case Less => Greater
    case AtMost => AtLeast
    case Greater => Less
    case AtLeast => AtMost
  }

  /** Python's `a <rel> b` on decoded JSON; None where Python raises
      TypeError (null, dicts, and operands of different kinds). */
  function Order(rel: Rel, a: JSON, b: JSON): Option<bool>
    decreases a
  {
    match (a, b)
    case (JString(s), JString(t)) => Some(StrOrder(rel, s, t))
    case (JArray(xs), JArray(ys)) => SeqOrder(rel, xs, ys)
    case _ =>
      if AsNumber(a).Some? && AsNumber(b).Some? then
        Some(Holds(rel, AsNumber(a).value, AsNumber(b).value))
      else
        None
  }

  /** Strings are ordered by code point at the first position where they
      differ, and by length when one is a prefix of the other. */
  predicate StrOrder(rel: Rel, s: string, t: string)
    decreases |s|
  {
    if s == [] || t == [] then Holds(rel, |s|, |t|)
    else if s[0] == t[0] then StrOrder(rel, s[1..], t[1..])
    else Holds(rel, s[0] as int, t[0] as int)
  }

  /** Lists: the first index whose items differ under `==` decides, by
      applying the same operator to those two items (which may raise);
      when there is none, the lengths decide. */
  function SeqOrder(rel: Rel, xs: seq<JSON>, ys: seq<JSON>): Option<bool>
    decreases xs
  {
    if xs == [] || ys == [] then Some(Holds(rel, |xs|, |ys|))
    else if PyEq(xs[0], ys[0]) then SeqOrder(rel, xs[1..], ys[1..])
    else Order(rel, xs[0], ys[0])
  }

  lemma {:induction false} StrOrderConverse(rel: Rel, s: string, t: string)
    ensures StrOrder(rel, s, t) == StrOrder(Converse(rel), t, s)
    decreases |s|
  {
    if s != [] && t != [] && s[0] == t[0] {
      StrOrderConverse(rel, s[1..], t[1..]);
    }
  }

  /** `a < b` and `b > a` (and `a <= b`, `b >= a`) agree, including on
      whether they raise. */
  lemma {:induction false} OrderConverse(rel: Rel, a: JSON, b: JSON)
    ensures Order(rel, a, b) == Order(Converse(rel), b, a)
    decreases a
  {
    match (a, b)
    case (JString(s), JString(t)) => StrOrderConverse(rel, s, t);
    case (JArray(xs), JArray(ys)) => SeqOrderConverse(rel, xs, ys);
    case _ =>
  }

  lemma {:induction false} SeqOrderConverse(rel: Rel, xs: seq<JSON>, ys: seq<JSON>)
    ensures SeqOrder(rel, xs, ys) == SeqOrder(Converse(rel), ys, xs)
    decreases xs
  {
    if xs != [] && ys != [] {
      PyEqSymmetric(xs[0], ys[0]);
      if PyEq(xs[0], ys[0]) {
        SeqOrderConverse(rel, xs[1..], ys[1..]);
      } else {
        OrderConverse(rel, xs[0], ys[0]);
      }
    }
  }
}
