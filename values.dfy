/**
 * The dynamic values held in record fields and form state. A record is a
 * JavaScript object whose keys are field ids; it is modelled as a map from
 * key to value, with `undefined` for a missing key. Map union `a + b` is
 * right-biased, exactly like the object spread `{...a, ...b}`.
 */
module Values {
  import opened Strings
  import Seqs

  /** The primitive values a record field can hold. Numbers are integers here. */
  datatype Value = Undefined | Null | Bool(b: bool) | Num(n: int) | Str(s: string)

  /** A record, form state or filter: an object with string keys. */
  type RecordData = map<string, Value>

  /** `obj[key]`: `undefined` when the key is absent. */
  function Get(r: RecordData, key: string): (v: Value)
    ensures key !in r ==> v == Undefined
    ensures key in r ==> v == r[key]
  {
    if key in r then r[key] else Undefined
  }

  /** JavaScript truthiness (`Boolean(v)`). */
  predicate Truthy(v: Value) {
    match v
    case Undefined => false
    case Null => false
    case Bool(b) => b
    case Num(n) => n != 0
    case Str(s) => s != ""
  }

  /** `String(v)`. */
  function ToStr(v: Value): (r: string)
    ensures v.Str? ==> r == v.s
  {
    match v
    case Undefined => "undefined"
    case Null => "null"
    case Bool(b) => if b then "true" else "false"
    case Num(n) => IntToString(n)
    case Str(s) => s
  }

  // ---------------------------------------------------------------------
  // ordering used by the record table's `<` / `>` comparator

  function Rank(v: Value): nat {
    match v
    case Undefined => 0
    case Null => 1
    case Bool(_) => 2
    case Num(_) => 3
    case Str(_) => 4
  }

  /**
   * `a < b` on field values: numeric on numbers, code-point lexicographic
   * on strings, `false < true`; values of different kinds are ordered by
   * kind.
   */
  predicate ValueLt(a: Value, b: Value) {
    if Rank(a) != Rank(b) then Rank(a) < Rank(b)
    else match (a, b)
      case (Bool(x), Bool(y)) => !x && y
      case (Num(x), Num(y)) => x < y
      case (Str(x), Str(y)) => StrLt(x, y)
      case _ => false
  }

  lemma ValueLtIrreflexive(a: Value)
    ensures !ValueLt(a, a)
  {
    if a.Str? { StrLtIrreflexive(a.s); }
  }

  lemma ValueLtTransitive(a: Value, b: Value, c: Value)
    requires ValueLt(a, b) && ValueLt(b, c)
    ensures ValueLt(a, c)
  {
    if a.Str? && b.Str? && c.Str? { StrLtTransitive(a.s, b.s, c.s); }
  }

  /** Any two different values are ordered one way or the other. */
  lemma ValueLtTotal(a: Value, b: Value)
    ensures a == b || ValueLt(a, b) || ValueLt(b, a)
  {
    if a.Str? && b.Str? { StrLtTotal(a.s, b.s); }
  }

  /** `ValueLt` is a strict total order, so "has to follow" under it is a strict weak order. */
  lemma ValueLtStrictWeakOrder()
    ensures Seqs.StrictWeakOrder((x: Value, y: Value) => ValueLt(y, x))
  {
    forall a: Value, b: Value | ValueLt(b, a)
      ensures !ValueLt(a, b)
    {
      if ValueLt(a, b) {
        ValueLtTransitive(a, b, a);
        ValueLtIrreflexive(a);
      }
    }
    forall a: Value, b: Value, c: Value | ValueLt(c, a)
      ensures ValueLt(b, a) || ValueLt(c, b)
    {
      ValueLtTotal(a, b);
      ValueLtTotal(b, c);
      if !ValueLt(b, a) && !ValueLt(c, b) {
        if a != b {
          ValueLtTransitive(c, a, b);
        }
      }
    }
  }
}
