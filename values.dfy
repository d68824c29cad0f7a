/** The values a settings tree holds (what YAML or JSON decode to), and
    Python's `==` on them, which the list commands use to find a value.
 */
module Values {
  import opened Wrappers

  datatype Value =
    | Null
    | Bool(b: bool)
    | Int(i: int)
    | Float(f: real)
    | Str(s: string)
    | List(items: seq<Value>)
    | Dict(entries: map<string, Value>)

  /** The number a value stands for in Python's numeric tower, where `bool`
      is a subclass of `int` and ints compare equal to floats of the same
      value. */
  function Number(v: Value): Option<real>
  {
    match v
    case Bool(b) => Some(if b then 1.0 else 0.0)
    case Int(i) => Some(i as real)
    case Float(f) => Some(f)
    case _ => None
  }

  /** Python's `==`: numbers by value across bool, int and float; strings by
      content; lists element by element; dicts by keys and values. */
  predicate Equal(a: Value, b: Value)
  {
    if Number(a).Some? || Number(b).Some? then Number(a) == Number(b)
    else match a
      case List(xs) =>
        b.List? && |xs| == |b.items| && forall i :: 0 <= i < |xs| ==> Equal(xs[i], b.items[i])
      case Dict(m) =>
        b.Dict? && m.Keys == b.entries.Keys && forall k :: k in m ==> Equal(m[k], b.entries[k])
      case _ => a == b
  }

  /** Every value equals itself. */
  lemma {:induction false} EqualReflexive(a: Value)
    ensures Equal(a, a)
  {
    match a
    case List(xs) =>
      forall i | 0 <= i < |xs| ensures Equal(xs[i], xs[i]) {
        EqualReflexive(xs[i]);
      }
    case Dict(m) =>
      forall k | k in m ensures Equal(m[k], m[k]) {
        EqualReflexive(m[k]);
      }
    case _ =>
  }

  /** `==` does not depend on the order of its operands. */
  lemma {:induction false} EqualSymmetric(a: Value, b: Value)
    requires Equal(a, b)
    ensures Equal(b, a)
  {
    if Number(a).None? && Number(b).None? {
      match a
      case List(xs) =>
        forall i | 0 <= i < |xs| ensures Equal(b.items[i], xs[i]) {
          EqualSymmetric(xs[i], b.items[i]);
        }
      case Dict(m) =>
        forall k | k in b.entries ensures Equal(b.entries[k], m[k]) {
          EqualSymmetric(m[k], b.entries[k]);
        }
      case _ =>
    }
  }
}
