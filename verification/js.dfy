/** JavaScript values as the source sees them: numbers that may be NaN or
    infinite, the JSON-shaped values that arrive from the database and
    over HTTP, truthiness, nullish coalescing and `Number()`. Built-ins
    whose exact behaviour is out of scope (string-to-number conversion,
    number formatting, `JSON.parse`, `parseFloat`) are fields of a `Host`
    record that every operation needing them takes as a parameter. */
module Js {
  import opened Basics
  import opened Text

  /** An IEEE-754 double reasoned about as a real, plus its special values.
      Rounding is not modelled. */
  datatype JsNum = Finite(val: real) | NaN | Infinity(negative: bool)

  datatype JsVal =
    | Str(s: string)
    | Num(n: JsNum)
    | Bool(b: bool)
    | Null
    | Undef
    | Obj(fields: Dict<JsVal>)
    | Arr(items: seq<JsVal>)

  type NonEmptyString = s: string | |s| > 0 witness "0"

  /** The built-ins the model does not interpret. */
  datatype Host = Host(
    /** `Number(s)` for a string `s`. */
    stringToNumber: string -> JsNum,
    /** `String(n)` / `n.toString()`; never the empty string. */
    numberToString: JsNum -> NonEmptyString,
    /** `JSON.parse(s)`; `None` when it throws. */
    parseJson: string -> Option<JsVal>,
    /** `parseFloat(s)`. */
    parseFloat: string -> JsNum,
    /** `Number(v)` for an object or array `v` (via its primitive value). */
    compositeToNumber: JsVal -> JsNum
  )

  /** `!!v`. */
  predicate Truthy(v: JsVal)
  {
    match v
    case Str(s) => |s| > 0
    case Num(n) => n.Infinity? || (n.Finite? && n.val != 0.0)
    case Bool(b) => b
    case Null => false
    case Undef => false
    case Obj(_) => true
    case Arr(_) => true
  }

  /** `v === null || v === undefined`. */
  predicate Nullish(v: JsVal)
  {
    v.Null? || v.Undef?
  }

  /** `Object.entries(v)` for a value that is neither null nor undefined:
      an object's own properties in order, an array's elements or a
      string's characters under the keys "0", "1", …, and nothing for a
      number or a boolean. */
  function OwnEntries(v: JsVal): (r: Dict<JsVal>)
    ensures v.Obj? ==> r == v.fields
    ensures v.Arr? ==> |r| == |v.items|
                       && forall i :: 0 <= i < |r| ==> r[i] == (NatToString(i), v.items[i])
    ensures v.Str? ==> |r| == |v.s|
                       && forall i :: 0 <= i < |r| ==> r[i] == (NatToString(i), Str([v.s[i]]))
    ensures !v.Obj? && !v.Arr? && !v.Str? ==> r == []
  {
    match v
    case Obj(fields) => fields
    case Arr(items) => seq(|items|, i requires 0 <= i < |items| => (NatToString(i), items[i]))
    case Str(s) => seq(|s|, i requires 0 <= i < |s| => (NatToString(i), Str([s[i]])))
    case _ => []
  }

  /** A key naming an array or string element. */
  predicate IsIndexKey(k: string)
  {
    |k| > 0 && forall i :: 0 <= i < |k| ==> IsDigit(k[i])
  }

  /** Entries of arrays and strings are named by distinct index keys. */
  lemma OwnEntriesDistinct(v: JsVal)
    ensures v.Arr? || v.Str? ==> DistinctKeys(OwnEntries(v))
    ensures v.Arr? || v.Str? ==> forall k :: k in KeySet(OwnEntries(v)) ==> IsIndexKey(k)
  {
    if v.Arr? || v.Str? {
      var r := OwnEntries(v);
      forall i, j | 0 <= i < j < |r| ensures r[i].0 != r[j].0 {
        assert r[i].0 == NatToString(i) && r[j].0 == NatToString(j);
        if r[i].0 == r[j].0 { NatToStringInjective(i, j); }
      }
      forall k | k in KeySet(r) ensures IsIndexKey(k) {
        var i :| 0 <= i < |r| && r[i].0 == k;
        assert r[i].0 == NatToString(i);
      }
    }
  }

  /** `v[k]` where `k` is an own enumerable property name: for objects the
      property, for arrays and strings the indexed element. The names the
      source reads are never `length` or an inherited member. */
  function Prop(v: JsVal, k: string): (r: JsVal)
    ensures v.Obj? ==> r == (match Get(v.fields, k) case Some(x) => x case None => Undef)
    ensures (v.Arr? || v.Str?) && !IsIndexKey(k) ==> r == Undef
    ensures !v.Obj? && !v.Arr? && !v.Str? ==> r == Undef
  {
    OwnEntriesDistinct(v);
    match Get(OwnEntries(v), k) case Some(x) => x case None => Undef
  }

  /** A falsy value has no properties to read. */
  lemma FalsyProp(v: JsVal, k: string)
    requires !Truthy(v)
    ensures Prop(v, k) == Undef
  {
    if v.Str? {
      assert OwnEntries(v) == [];
    }
  }

  /** `vs[0] ?? vs[1] ?? … ?? vs[n-1]`: the first value that is neither
      null nor undefined, or the last value when all of them are. */
  function Coalesce(vs: seq<JsVal>): (r: JsVal)
    requires |vs| >= 1
    ensures r in vs
    ensures !Nullish(r) <==> exists i :: 0 <= i < |vs| && !Nullish(vs[i])
    ensures !Nullish(r) ==> exists i :: 0 <= i < |vs| && vs[i] == r
                                        && forall j :: 0 <= j < i ==> Nullish(vs[j])
  {
    if |vs| == 1 || !Nullish(vs[0]) then vs[0]
    else
      var r := Coalesce(vs[1..]);
      assert !Nullish(r) ==> exists i :: 0 <= i < |vs| && vs[i] == r
                                         && forall j :: 0 <= j < i ==> Nullish(vs[j]) by {
        if !Nullish(r) {
          var i :| 0 <= i < |vs[1..]| && vs[1..][i] == r && forall j :: 0 <= j < i ==> Nullish(vs[1..][j]);
          assert vs[i + 1] == r;
          forall j | 0 <= j < i + 1 ensures Nullish(vs[j]) {
            if j > 0 { assert vs[j] == vs[1..][j - 1]; }
          }
        }
      }
      assert (exists i :: 0 <= i < |vs| && !Nullish(vs[i])) ==> !Nullish(r) by {
        if exists i :: 0 <= i < |vs| && !Nullish(vs[i]) {
          var i :| 0 <= i < |vs| && !Nullish(vs[i]);
          assert i > 0 && vs[i] == vs[1..][i - 1];
        }
      }
      r
  }

  /** `Number(v)`, section 7.1.4 of ECMA-262, with the string and object
      conversions left to the host. */
  function ToNumber(v: JsVal, h: Host): (r: JsNum)
    ensures v.Num? ==> r == v.n
    ensures v.Undef? ==> r == NaN
    ensures v.Null? ==> r == Finite(0.0)
    ensures v.Bool? ==> r == Finite(if v.b then 1.0 else 0.0)
  {
    match v
    case Str(s) => h.stringToNumber(s)
    case Num(n) => n
    case Bool(b) => Finite(if b then 1.0 else 0.0)
    case Null => Finite(0.0)
    case Undef => NaN
    case Obj(_) => h.compositeToNumber(v)
    case Arr(_) => h.compositeToNumber(v)
  }

  /** `typeof v === "number" && !Number.isNaN(v)`: the number, if any. */
  function NonNaNNumber(v: JsVal): (r: Option<JsNum>)
    ensures r.Some? <==> v.Num? && !v.n.NaN?
    ensures r.Some? ==> r.value == v.n
  {
    if v.Num? && !v.n.NaN? then Some(v.n) else None
  }

  /** `k * x` for a real factor `k`, with IEEE special values. */
  function Scale(k: real, x: JsNum): (r: JsNum)
    ensures x.Finite? ==> r == Finite(k * x.val)
    ensures r.NaN? <==> x.NaN? || (x.Infinity? && k == 0.0)
  {
    if x.Finite? then Finite(k * x.val)
    else if x.NaN? || k == 0.0 then NaN
    else Infinity(if k > 0.0 then x.negative else !x.negative)
  }

  /** Scaling a finite number gives the finite product. */
  lemma ScaleFinite(k: real, v: real)
    ensures Scale(k, Finite(v)) == Finite(k * v)
  {
  }

  /** `x >= c` for a number `x` and a finite bound `c`: false for NaN. */
  predicate AtLeast(x: JsNum, c: real)
  {
    match x
    case Finite(v) => v >= c
    case NaN => false
    case Infinity(negative) => !negative
  }

  /** `x / k` for a positive real divisor `k`. */
  function DivideBy(x: JsNum, k: real): (r: JsNum)
    requires k > 0.0
    ensures x.Finite? ==> r == Finite(x.val / k)
    ensures r.NaN? <==> x.NaN?
  {
    match x
    case Finite(v) => Finite(v / k)
    case NaN => NaN
    case Infinity(neg) => Infinity(neg)
  }

  /** Scaling by a positive count and dividing by it again gives the
      value back, special values included. */
  lemma ScaleThenDivide(k: real, x: JsNum)
    requires k > 0.0
    ensures DivideBy(Scale(k, x), k) == x
  {
    if x.Finite? {
      assert k * x.val / k == x.val;
    }
  }
}
