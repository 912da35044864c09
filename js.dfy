/**
  JavaScript values as the dashboard code sees them: the primitive values a
  record field, a chart bound or a table cell can hold, the truthiness test
  behind `if (x)` and `x || y`, lodash's `_.isFinite`, and the ordering the
  `<` operator gives two strings.  Numbers are exact reals: IEEE rounding is
  not modelled.
*/
module Js {

  datatype Option<+T> = None | Some(value: T) {
    function GetOr(default: T): T {
      match this
      case Some(v) => v
      case None => default
    }
  }

  /** A call that would throw in the source (a `TypeError` on `undefined.x`). */
  datatype Result<+T> = Success(value: T) | Failure(error: string)

  /** A primitive JavaScript value. */
  datatype Value =
    | Undefined
    | Null
    | Bool(b: bool)
    | Num(n: real)
    | NaN
    | PosInfinity
    | NegInfinity
    | Str(s: string)

  /** The values that `if (v)` rejects: undefined, null, false, 0, NaN and ''. */
  predicate Falsy(v: Value) {
    v.Undefined? || v.Null? || v == Bool(false) || v == Num(0.0) || v.NaN? || v == Str("")
  }

  predicate Truthy(v: Value) {
    !Falsy(v)
  }

  /** lodash 3 `_.isFinite`: a number that is neither NaN nor an infinity. */
  predicate IsFinite(v: Value) {
    v.Num?
  }

  /** `v || fallback` */
  function OrElse(v: Value, fallback: Value): (r: Value)
    ensures Truthy(v) ==> r == v
    ensures Falsy(v) ==> r == fallback
  {
    if Truthy(v) then v else fallback
  }

  /**
    `a < b` on two strings, character by character, a proper prefix first.
    A Dafny `char` is a Unicode scalar value, so characters compare by code
    point; JavaScript compares UTF-16 code units, which orders characters
    beyond U+FFFF differently from U+E000..U+FFFF.
  */
  predicate StrLt(a: string, b: string) {
    if |b| == 0 then false
    else if |a| == 0 then true
    else if a[0] != b[0] then a[0] < b[0]
    else StrLt(a[1..], b[1..])
  }

  lemma {:induction false} StrLtIrreflexive(a: string)
    ensures !StrLt(a, a)
  {
    if |a| > 0 {
      StrLtIrreflexive(a[1..]);
    }
  }

  lemma {:induction false} StrLtTransitive(a: string, b: string, c: string)
    requires StrLt(a, b) && StrLt(b, c)
    ensures StrLt(a, c)
  {
    if |a| > 0 && a[0] == b[0] && b[0] == c[0] {
      StrLtTransitive(a[1..], b[1..], c[1..]);
    }
  }

  lemma {:induction false} StrLtTotal(a: string, b: string)
    requires a != b
    ensures StrLt(a, b) || StrLt(b, a)
  {
    if |a| > 0 && |b| > 0 && a[0] == b[0] {
      assert a == [a[0]] + a[1..] && b == [b[0]] + b[1..];
      StrLtTotal(a[1..], b[1..]);
    }
  }
}
