/**
 * JavaScript values as the browser client handles them: the results of `JSON.parse`,
 * the records built from the edit dialog, and the replies of the GitLab API.
 *
 * Numbers are integers (floating point is not modelled). An object is the ordered
 * list of its own enumerable properties, in insertion order, which is the order
 * `for…in`, `JSON.stringify` and `Object.keys` use. A `Date` holds its time value,
 * milliseconds since 1970-01-01T00:00:00Z.
 */
module JsValues {

  import opened Wrappers
  import opened Text

  datatype JsValue =
    | Undefined
    | Null
    | Bool(b: bool)
    | Num(n: int)
    | Str(s: string)
    | Arr(elems: seq<JsValue>)
    | Obj(entries: seq<(string, JsValue)>)
    | Date(time: int)

  /** The `TypeError` raised when a property of `null` or `undefined` is read. */
  const TypeError: string := "TypeError"

  /** `typeof v`. */
  function TypeOf(v: JsValue): (r: string)
    ensures r in {"undefined", "object", "boolean", "number", "string"}
    ensures r == "undefined" <==> v.Undefined?
    ensures r == "string" <==> v.Str?
  {
    match v
    case Undefined => "undefined"
    case Null => "object"
    case Bool(_) => "boolean"
    case Num(_) => "number"
    case Str(_) => "string"
    case Arr(_) => "object"
    case Obj(_) => "object"
    case Date(_) => "object"
  }

  /** `Array.isArray(v)`. */
  predicate IsArray(v: JsValue) {
    v.Arr?
  }

  /** `v instanceof Date`. */
  predicate IsDate(v: JsValue) {
    v.Date?
  }

  /** The keys of a list of properties, in order. */
  function Keys(entries: seq<(string, JsValue)>): (r: seq<string>)
    ensures |r| == |entries|
    ensures forall i :: 0 <= i < |entries| ==> r[i] == entries[i].0
  {
    if entries == [] then [] else Keys(entries[..|entries| - 1]) + [entries[|entries| - 1].0]
  }

  /** No key occurs twice: the shape every JavaScript object has. */
  predicate DistinctKeys(entries: seq<(string, JsValue)>) {
    forall i, j :: 0 <= i < j < |entries| ==> entries[i].0 != entries[j].0
  }

  /** The value of property `k` in a list of properties; `undefined` when absent. */
  function Lookup(entries: seq<(string, JsValue)>, k: string): (r: JsValue)
    ensures r != Undefined ==> exists i :: 0 <= i < |entries| && entries[i] == (k, r)
    ensures (forall i :: 0 <= i < |entries| ==> entries[i].0 != k) ==> r == Undefined
  {
    if entries == [] then Undefined
    else if entries[0].0 == k then entries[0].1
    else Lookup(entries[1..], k)
  }

  lemma {:induction false} LookupAt(entries: seq<(string, JsValue)>, i: nat)
    requires DistinctKeys(entries) && i < |entries|
    ensures Lookup(entries, entries[i].0) == entries[i].1
  {
    if i > 0 {
      LookupAt(entries[1..], i - 1);
    }
  }

  /** The canonical array index a property name denotes, if it is one ("0", "1", …, no leading zero). */
  function IndexKey(k: string): (r: Option<nat>)
    ensures r.Some? ==> Decimal(r.value) == k
  {
    if |k| >= 1 && (forall i :: 0 <= i < |k| ==> IsDigit(k[i])) && (k == "0" || k[0] != '0')
    then
      DecimalOfDigits(k);
      Some(DigitsValue(k))
    else None
  }

  /** A digit string without a leading zero is the decimal form of its value. */
  lemma {:induction false} DecimalOfDigits(k: string)
    requires |k| >= 1 && (forall i :: 0 <= i < |k| ==> IsDigit(k[i])) && (k == "0" || k[0] != '0')
    ensures Decimal(DigitsValue(k)) == k
    decreases |k|
  {
    var n := DigitsValue(k);
    var last := k[|k| - 1] as int - '0' as int;
    if |k| == 1 {
      assert k[..|k| - 1] == [];
      assert DigitsValue(k[..|k| - 1]) == 0;
      assert n == 10 * DigitsValue(k[..|k| - 1]) + last;
      assert DigitChar(last) == k[0];
    } else {
      var front := k[..|k| - 1];
      assert front[0] == k[0];
      assert front != "0";
      DecimalOfDigits(front);
      DigitsBound(front);
      assert n / 10 == DigitsValue(front) && n % 10 == last;
      assert DigitChar(last) == k[|k| - 1];
      assert k == front + [k[|k| - 1]];
    }
  }

  /**
   * A digit string that does not start with `0` has a positive value, and one of two or
   * more digits has a value of 10 or more.
   */
  lemma {:induction false} DigitsBound(k: string)
    requires |k| >= 1 && (forall i :: 0 <= i < |k| ==> IsDigit(k[i])) && k[0] != '0'
    ensures DigitsValue(k) >= 1
    ensures |k| >= 2 ==> DigitsValue(k) >= 10
    decreases |k|
  {
    if |k| > 1 {
      var front := k[..|k| - 1];
      assert front[0] == k[0];
      DigitsBound(front);
      assert DigitsValue(k) == 10 * DigitsValue(front) + (k[|k| - 1] as int - '0' as int);
    }
  }

  lemma {:induction false} DecimalLeading(n: nat)
    ensures Decimal(n)[0] == '0' ==> n == 0
    decreases n
  {
    if n >= 10 {
      DecimalLeading(n / 10);
      assert Decimal(n)[0] == Decimal(n / 10)[0];
    }
  }

  /** Every array index reads back as itself. */
  lemma IndexKeyOfDecimal(i: nat)
    ensures IndexKey(Decimal(i)) == Some(i)
  {
    DecimalValue(i);
    DecimalLeading(i);
  }

  /** The own enumerable property names `for…in` visits on an object-typed value. */
  function OwnKeys(v: JsValue): (r: seq<string>)
    ensures v.Obj? ==> r == Keys(v.entries)
    ensures v.Arr? ==> r == IndexNames(|v.elems|)
    ensures !v.Obj? && !v.Arr? ==> r == []
  {
    match v
    case Obj(entries) => Keys(entries)
    case Arr(elems) => IndexNames(|elems|)
    case _ => []
  }

  /** The names of the indices `0`, …, `n - 1`. */
  function IndexNames(n: nat): (r: seq<string>)
    ensures |r| == n
    ensures forall i :: 0 <= i < n ==> r[i] == Decimal(i)
  {
    if n == 0 then [] else IndexNames(n - 1) + [Decimal(n - 1)]
  }

  /**
   * `v[k]`: reading a property. It raises a `TypeError` on `null` and `undefined`.
   * The properties objects inherit from their prototypes are not modelled.
   */
  function Get(v: JsValue, k: string): (r: Result<JsValue, string>)
    ensures r.Failure? <==> v.Null? || v.Undefined?
    ensures v.Obj? ==> r == Success(Lookup(v.entries, k))
  {
    match v
    case Undefined => Failure(TypeError)
    case Null => Failure(TypeError)
    case Obj(entries) => Success(Lookup(entries, k))
    case Arr(elems) =>
      if k == "length" then Success(Num(|elems|))
      else (match IndexKey(k)
            case Some(i) => if i < |elems| then Success(elems[i]) else Success(Undefined)
            case None => Success(Undefined))
    case _ => Success(Undefined)
  }

  /** Every own key of an array reads its own element. */
  lemma GetArrayIndex(elems: seq<JsValue>, i: nat)
    requires i < |elems|
    ensures Get(Arr(elems), Decimal(i)) == Success(elems[i])
  {
    IndexKeyOfDecimal(i);
    assert Decimal(i) != "length" by {
      assert IsDigit(Decimal(i)[0]);
    }
  }

  /**
   * `a === b`. Primitives compare by value; objects, arrays and dates by identity,
   * and the values this model compares always come from distinct objects.
   */
  predicate StrictEquals(a: JsValue, b: JsValue) {
    match a
    case Undefined => b.Undefined?
    case Null => b.Null?
    case Bool(x) => b.Bool? && b.b == x
    case Num(x) => b.Num? && b.n == x
    case Str(x) => b.Str? && b.s == x
    case _ => false
  }

  lemma StrictEqualsSymmetric(a: JsValue, b: JsValue)
    ensures StrictEquals(a, b) <==> StrictEquals(b, a)
  {
  }

  /** `elems.includes(x)` (for the values modelled, SameValueZero is `===`). */
  predicate Includes(elems: seq<JsValue>, x: JsValue) {
    exists i :: 0 <= i < |elems| && StrictEquals(elems[i], x)
  }

  /** The string elements of an array, the only ones the model compares by value. */
  function Strings(elems: seq<JsValue>): (r: seq<string>)
    ensures forall s :: s in r <==> Str(s) in elems
  {
    if elems == [] then []
    else (if elems[0].Str? then [elems[0].s] else []) + Strings(elems[1..])
  }
}
