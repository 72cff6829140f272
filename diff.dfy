/**
 * Comparing two versions of a bookmark before it is saved: `keyCheck` and
 * `bookmarkDiff` of the browser client. The result lists the names of the fields
 * that changed; the sentinel `__inconsistent_keys__` alone says that the two
 * values cannot be compared (different types, an array on one side only, …).
 *
 * A JavaScript `Set` keeps insertion order and drops repeats; it is a sequence
 * without duplicates here.
 */
module BookmarkDiffs {

  import opened Wrappers
  import opened JsValues

  /** The sentinel change reported for values of different shapes. */
  const Inconsistent: string := "__inconsistent_keys__"

  /** `set.add(x)`. */
  function Add(s: seq<string>, x: string): (r: seq<string>)
    ensures forall y :: y in r <==> y in s || y == x
    ensures Unique(s) ==> Unique(r)
  {
    if x in s then s else s + [x]
  }

  /** `if (c) set.add(x)`. */
  function AddIf(s: seq<string>, c: bool, x: string): (r: seq<string>)
    ensures forall y :: y in r <==> y in s || (c && y == x)
    ensures Unique(s) ==> Unique(r)
  {
    if c then Add(s, x) else s
  }

  /** `new Set([...s, ...t])` for a set `s`: the members of `s`, then the new members of `t`. */
  function AddAll(s: seq<string>, t: seq<string>): (r: seq<string>)
    ensures forall y :: y in r <==> y in s || y in t
    ensures Unique(s) ==> Unique(r)
    decreases |t|
  {
    if t == [] then s else Add(AddAll(s, t[..|t| - 1]), t[|t| - 1])
  }

  predicate Unique(s: seq<string>) {
    forall i, j :: 0 <= i < j < |s| ==> s[i] != s[j]
  }

  predicate Nullish(v: JsValue) {
    v.Null? || v.Undefined?
  }

  /** `v[k]` where reading it cannot fail, `undefined` otherwise. */
  function At(v: JsValue, k: string): (r: JsValue)
    ensures !Nullish(v) ==> Get(v, k) == Success(r)
  {
    match Get(v, k)
    case Success(x) => x
    case Failure(_) => Undefined
  }

  /**
   * What one iteration of `keyCheck` adds for property `p`, whose values are `v1`
   * and `v2` in the two bookmarks.
   */
  function CheckEntry(v1: JsValue, v2: JsValue, p: string): (r: Option<string>)
    ensures r.Some? ==> r.value == p || r.value == Inconsistent
  {
    if TypeOf(v1) != TypeOf(v2) then
      (if TypeOf(v2) == "undefined" then Some(p) else Some(Inconsistent))
    else if IsDate(v1) != IsDate(v2) then Some(Inconsistent)
    else if IsArray(v1) != IsArray(v2) then Some(Inconsistent)
    else None
  }

  /** The two values have different shapes, and the second one is there. */
  predicate Conflict(v1: JsValue, v2: JsValue) {
    !v2.Undefined? && (TypeOf(v1) != TypeOf(v2) || IsDate(v1) != IsDate(v2) || IsArray(v1) != IsArray(v2))
  }

  /** The property is there in the first value only. */
  predicate Missing(v1: JsValue, v2: JsValue) {
    !v1.Undefined? && v2.Undefined?
  }

  /** A property is reported inconsistent exactly on a conflict, and by name exactly when the other side lacks it. */
  lemma CheckEntryMeaning(v1: JsValue, v2: JsValue, p: string)
    ensures CheckEntry(v1, v2, p) ==
      if Conflict(v1, v2) then Some(Inconsistent) else if Missing(v1, v2) then Some(p) else None
  {
  }

  /** What the loop does with the outcome of `CheckEntry`. */
  function Step(changes: seq<string>, o: Option<string>): (r: seq<string>)
    ensures forall y :: y in r <==> y in changes || o == Some(y)
    ensures Unique(changes) ==> Unique(r)
  {
    match o
    case None => changes
    case Some(x) => Add(changes, x)
  }

  /** `keyCheck(b1, b2)` over the first `|keys|` keys of the loop: the changes it has collected by then. */
  function KeyCheckOf(b1: JsValue, b2: JsValue, keys: seq<string>): (r: Result<seq<string>, string>)
    ensures r.Success? ==> Unique(r.value)
    ensures r.Failure? ==> r.error == TypeError
    decreases |keys|
  {
    if keys == [] then Success([])
    else
      match KeyCheckOf(b1, b2, keys[..|keys| - 1])
      case Failure(e) => Failure(e)
      case Success(changes) =>
        var p := keys[|keys| - 1];
        match Get(b1, p)
        case Failure(e) => Failure(e)
        case Success(v1) =>
          match Get(b2, p)
          case Failure(e) => Failure(e)
          case Success(v2) => Success(Step(changes, CheckEntry(v1, v2, p)))
  }

  /** One more key read from two readable values. */
  lemma KeyCheckStep(b1: JsValue, b2: JsValue, keys: seq<string>, i: nat, changes: seq<string>)
    requires i < |keys| && KeyCheckOf(b1, b2, keys[..i]) == Success(changes)
    requires !Nullish(b1) && !Nullish(b2)
    ensures KeyCheckOf(b1, b2, keys[..i + 1]) ==
      Success(Step(changes, CheckEntry(At(b1, keys[i]), At(b2, keys[i]), keys[i])))
  {
    assert keys[..i + 1][..i] == keys[..i];
  }

  /** The same step, for the two values the loop has read. */
  lemma KeyCheckValuesStep(b1: JsValue, b2: JsValue, keys: seq<string>, i: nat, changes: seq<string>,
                           v1: JsValue, v2: JsValue) returns (next: seq<string>)
    requires i < |keys| && KeyCheckOf(b1, b2, keys[..i]) == Success(changes)
    requires Get(b1, keys[i]) == Success(v1) && Get(b2, keys[i]) == Success(v2)
    ensures next == Step(changes, CheckEntry(v1, v2, keys[i]))
    ensures KeyCheckOf(b1, b2, keys[..i + 1]) == Success(next)
  {
    KeyCheckStep(b1, b2, keys, i, changes);
    next := Step(changes, CheckEntry(v1, v2, keys[i]));
  }

  /** Once the loop has raised an error, the whole call raises it. */
  lemma {:induction false} KeyCheckFailureSticks(b1: JsValue, b2: JsValue, keys: seq<string>, j: nat)
    requires j <= |keys| && KeyCheckOf(b1, b2, keys[..j]).Failure?
    ensures KeyCheckOf(b1, b2, keys) == KeyCheckOf(b1, b2, keys[..j])
    decreases |keys| - j
  {
    if j < |keys| {
      assert keys[..j + 1][..j] == keys[..j];
      KeyCheckFailureSticks(b1, b2, keys, j + 1);
    } else {
      assert keys[..j] == keys;
    }
  }

  /** Reading key `i` of the loop fails: so does the whole call. */
  lemma KeyCheckFails(b1: JsValue, b2: JsValue, keys: seq<string>, i: nat, changes: seq<string>)
    requires i < |keys| && KeyCheckOf(b1, b2, keys[..i]) == Success(changes)
    requires Nullish(b1) || Nullish(b2)
    ensures KeyCheckOf(b1, b2, keys) == Failure(TypeError)
  {
    assert keys[..i + 1][..i] == keys[..i];
    KeyCheckFailureSticks(b1, b2, keys, i + 1);
  }

  /**
   * `keyCheck(bookmark1, bookmark2)`: for every own property of the first bookmark,
   * its name when the second lacks it, the sentinel when the two values differ in
   * type, in being a `Date` or in being an array.
   */
  method KeyCheck(b1: JsValue, b2: JsValue) returns (r: Result<seq<string>, string>)
    ensures r == KeyCheckOf(b1, b2, OwnKeys(b1))
  {
    var keys := OwnKeys(b1);
    var changes: seq<string> := [];
    var i := 0;
    while i < |keys|
      invariant 0 <= i <= |keys|
      invariant KeyCheckOf(b1, b2, keys[..i]) == Success(changes)
    {
      var p := keys[i];
      // `bookmark1` has a key, so it is an object and reading from it cannot fail.
      var v1 := Get(b1, p).value;
      var g2 := Get(b2, p);
      if g2.Failure? {
        KeyCheckFails(b1, b2, keys, i, changes);
        return Failure(g2.error);
      }
      var v2 := g2.value;
      ghost var next := KeyCheckValuesStep(b1, b2, keys, i, changes, v1, v2);
      changes := CheckProperty(changes, v1, v2, p);
      i := i + 1;
    }
    assert keys[..i] == keys;
    return Success(changes);
  }

  /** The body of the loop over the keys: what one property adds to the changes. */
  method CheckProperty(changes: seq<string>, v1: JsValue, v2: JsValue, p: string) returns (r: seq<string>)
    ensures r == Step(changes, CheckEntry(v1, v2, p))
  {
    r := changes;
    if TypeOf(v1) != TypeOf(v2) {
      if TypeOf(v2) == "undefined" {
        r := Add(r, p);
      } else {
        r := Add(r, Inconsistent);
      }
    } else if IsDate(v1) != IsDate(v2) {
      r := Add(r, Inconsistent);
    } else if IsArray(v1) != IsArray(v2) {
      r := Add(r, Inconsistent);
    }
  }

  /** Some key in `keys` makes the loop add `x`. */
  predicate Reported(b1: JsValue, b2: JsValue, keys: seq<string>, x: string) {
    exists k :: k in keys && CheckEntry(At(b1, k), At(b2, k), k) == Some(x)
  }

  /** The loop fails exactly when it reads a property of `null` or `undefined`. */
  lemma {:induction false} KeyCheckSuccess(b1: JsValue, b2: JsValue, keys: seq<string>)
    ensures KeyCheckOf(b1, b2, keys).Success? <==> keys == [] || (!Nullish(b1) && !Nullish(b2))
    decreases |keys|
  {
    if keys != [] {
      KeyCheckSuccess(b1, b2, keys[..|keys| - 1]);
    }
  }

  /** On two readable values, the loop collects exactly what its keys report. */
  lemma {:induction false} KeyCheckMembers(b1: JsValue, b2: JsValue, keys: seq<string>)
    requires !Nullish(b1) && !Nullish(b2)
    ensures KeyCheckOf(b1, b2, keys).Success?
    ensures forall x :: x in KeyCheckOf(b1, b2, keys).value <==> Reported(b1, b2, keys, x)
    decreases |keys|
  {
    if keys != [] {
      var n := |keys| - 1;
      var front, p := keys[..n], keys[n];
      KeyCheckMembers(b1, b2, front);
      KeyCheckStep(b1, b2, keys, n, KeyCheckOf(b1, b2, front).value);
      assert keys[..n + 1] == keys;
      forall x ensures x in KeyCheckOf(b1, b2, keys).value <==> Reported(b1, b2, keys, x) {
        ReportedSnoc(b1, b2, front, p, x);
      }
    }
  }

  lemma ReportedSnoc(b1: JsValue, b2: JsValue, front: seq<string>, p: string, x: string)
    ensures Reported(b1, b2, front + [p], x) <==>
      Reported(b1, b2, front, x) || CheckEntry(At(b1, p), At(b2, p), p) == Some(x)
  {
    var keys := front + [p];
    if Reported(b1, b2, keys, x) {
      var k :| k in keys && CheckEntry(At(b1, k), At(b2, k), k) == Some(x);
      ReportedIn(b1, b2, front, p, x, k);
    }
    if Reported(b1, b2, front, x) {
      var k :| k in front && CheckEntry(At(b1, k), At(b2, k), k) == Some(x);
      assert k in keys;
    }
    if CheckEntry(At(b1, p), At(b2, p), p) == Some(x) {
      assert p in keys;
    }
  }

  /** A key of `front + [p]` that reports `x` is `p` or a key of `front`. */
  lemma ReportedIn(b1: JsValue, b2: JsValue, front: seq<string>, p: string, x: string, k: string)
    requires k in front + [p] && CheckEntry(At(b1, k), At(b2, k), k) == Some(x)
    ensures Reported(b1, b2, front, x) || CheckEntry(At(b1, p), At(b2, p), p) == Some(x)
  {
    if k != p {
      assert k in front;
    }
  }

  /** Every own key is visited, and the value read for it is its own. */
  lemma OwnKeyDefined(v: JsValue, k: string)
    requires !Nullish(v) && !At(v, k).Undefined? && k != "length"
    ensures k in OwnKeys(v)
  {
    match v
    case Obj(entries) =>
      var i :| 0 <= i < |entries| && entries[i] == (k, At(v, k));
      assert Keys(entries)[i] == k;
    case Arr(elems) =>
      var n := IndexKey(k).value;
      assert IndexNames(|elems|)[n] == k;
    case _ =>
  }

  /** `[...a].every(x => b.includes(x))` both ways: the two arrays hold the same values. */
  predicate SameTags(t1: seq<JsValue>, t2: seq<JsValue>) {
    (forall i :: 0 <= i < |t1| ==> Includes(t2, t1[i])) && (forall j :: 0 <= j < |t2| ==> Includes(t1, t2[j]))
  }

  /**
   * The field-by-field comparison `bookmarkDiff` makes once the two bookmarks have
   * the same shape. `date_added` is not compared, as a bookmark's creation date
   * never changes. Reading a field of `null` raises a `TypeError`, and so would
   * calling `every` on a second tag list that is not an array; the latter does not
   * arise from `BookmarkDiffOf` (lemma `FieldDiffSucceeds`).
   */
  function FieldDiff(b1: JsValue, b2: JsValue, changes: seq<string>): (r: Result<seq<string>, string>)
    ensures r.Failure? ==> r.error == TypeError
    ensures Unique(changes) && r.Success? ==> Unique(r.value)
  {
    match Get(b1, "name")
    case Failure(e) => Failure(e)
    case Success(n1) =>
      match Get(b2, "name")
      case Failure(e) => Failure(e)
      case Success(n2) =>
        var c1 := AddIf(changes, !StrictEquals(n1, n2), "name");
        var c2 := AddIf(c1, !StrictEquals(At(b1, "url"), At(b2, "url")), "url");
        var c3 := AddIf(c2, !StrictEquals(At(b1, "notes"), At(b2, "notes")), "notes");
        var t1 := At(b1, "tags");
        if IsArray(t1) && "tags" !in c3 then
          var t2 := At(b2, "tags");
          if !t2.Arr? then Failure(TypeError)
          else Success(AddIf(c3, !SameTags(t1.elems, t2.elems), "tags"))
        else Success(c3)
  }

  /** `new Set([...keyCheck(b1, b2), ...keyCheck(b2, b1)])`. */
  function KeyChecks(b1: JsValue, b2: JsValue): (r: Result<seq<string>, string>)
    ensures r.Failure? ==> r.error == TypeError
    ensures r.Success? ==> Unique(r.value)
  {
    match KeyCheckOf(b1, b2, OwnKeys(b1))
    case Failure(e) => Failure(e)
    case Success(c1) =>
      match KeyCheckOf(b2, b1, OwnKeys(b2))
      case Failure(e) => Failure(e)
      case Success(c2) => Success(AddAll(c1, c2))
  }

  /** `bookmarkDiff(bookmark1, bookmark2)`, as a function of the two values. */
  function BookmarkDiffOf(b1: JsValue, b2: JsValue): (r: Result<seq<string>, string>)
    ensures r.Failure? ==> r.error == TypeError
    ensures r.Success? ==> Unique(r.value)
  {
    if TypeOf(b1) != TypeOf(b2) then Success([Inconsistent])
    else if TypeOf(b1) == "undefined" then Success([])
    else if TypeOf(b1) != "object" then Success([Inconsistent])
    else
      match KeyChecks(b1, b2)
      case Failure(e) => Failure(e)
      case Success(changes) =>
        if Inconsistent in changes then Success([Inconsistent])
        else FieldDiff(b1, b2, changes)
  }

  /** `bookmarkDiff(bookmark1, bookmark2)`. */
  method BookmarkDiff(b1: JsValue, b2: JsValue) returns (r: Result<seq<string>, string>)
    ensures r == BookmarkDiffOf(b1, b2)
  {
    if TypeOf(b1) != TypeOf(b2) {
      return Success([Inconsistent]);
    }
    if TypeOf(b1) == "undefined" {
      return Success([]);
    }
    if TypeOf(b1) != "object" {
      return Success([Inconsistent]);
    }
    var k1 := KeyCheck(b1, b2);
    if k1.Failure? {
      return Failure(k1.error);
    }
    var k2 := KeyCheck(b2, b1);
    if k2.Failure? {
      return Failure(k2.error);
    }
    var changes := AddAll(k1.value, k2.value);
    if Inconsistent in changes {
      return Success([Inconsistent]);
    }
    r := FieldDiff(b1, b2, changes);
  }

  // Properties of the comparison.

  /** A property of `a` that makes the two bookmarks incomparable. */
  predicate KeyClash(a: JsValue, b: JsValue, k: string) {
    Conflict(At(a, k), At(b, k)) || (k == Inconsistent && Missing(At(a, k), At(b, k)))
  }

  /** Some own property of `a` clashes with `b`. */
  predicate AnyClash(a: JsValue, b: JsValue) {
    exists k :: k in OwnKeys(a) && KeyClash(a, b, k)
  }

  /** The two values cannot be compared field by field. */
  predicate Clash(a: JsValue, b: JsValue) {
    || TypeOf(a) != TypeOf(b)
    || (TypeOf(a) != "undefined" && TypeOf(a) != "object")
    || (TypeOf(a) == "object" && !a.Null? && !b.Null? && (AnyClash(a, b) || AnyClash(b, a)))
  }

  /** `x` is an own property of `a` that `b` lacks. */
  predicate MissingKey(a: JsValue, b: JsValue, x: string) {
    x in OwnKeys(a) && Missing(At(a, x), At(b, x))
  }

  /** `x` is a change between two comparable bookmarks. */
  predicate Changed(a: JsValue, b: JsValue, x: string) {
    || MissingKey(a, b, x)
    || MissingKey(b, a, x)
    || (x == "name" && !StrictEquals(At(a, "name"), At(b, "name")))
    || (x == "url" && !StrictEquals(At(a, "url"), At(b, "url")))
    || (x == "notes" && !StrictEquals(At(a, "notes"), At(b, "notes")))
    || (x == "tags" && At(a, "tags").Arr? && At(b, "tags").Arr? && !SameTags(At(a, "tags").elems, At(b, "tags").elems))
  }

  /** The keys a loop reports other than the sentinel are the ones the other side lacks. */
  lemma ReportedMeaning(b1: JsValue, b2: JsValue, x: string)
    requires !AnyClash(b1, b2)
    ensures !Reported(b1, b2, OwnKeys(b1), Inconsistent)
    ensures Reported(b1, b2, OwnKeys(b1), x) <==> MissingKey(b1, b2, x)
  {
    if Reported(b1, b2, OwnKeys(b1), Inconsistent) {
      var k :| k in OwnKeys(b1) && CheckEntry(At(b1, k), At(b2, k), k) == Some(Inconsistent);
      CheckEntryMeaning(At(b1, k), At(b2, k), k);
      assert KeyClash(b1, b2, k);
    }
    if Reported(b1, b2, OwnKeys(b1), x) {
      var k :| k in OwnKeys(b1) && CheckEntry(At(b1, k), At(b2, k), k) == Some(x);
      CheckEntryMeaning(At(b1, k), At(b2, k), k);
      assert !KeyClash(b1, b2, k);
    }
    if MissingKey(b1, b2, x) {
      CheckEntryMeaning(At(b1, x), At(b2, x), x);
      assert !KeyClash(b1, b2, x);
    }
  }

  /** A loop reports the sentinel exactly when some key clashes. */
  lemma ReportedClash(b1: JsValue, b2: JsValue)
    ensures Reported(b1, b2, OwnKeys(b1), Inconsistent) <==> AnyClash(b1, b2)
  {
    if AnyClash(b1, b2) {
      var k :| k in OwnKeys(b1) && KeyClash(b1, b2, k);
      CheckEntryMeaning(At(b1, k), At(b2, k), k);
      assert CheckEntry(At(b1, k), At(b2, k), k) == Some(Inconsistent);
    } else {
      ReportedMeaning(b1, b2, Inconsistent);
    }
  }

  /** On two readable values both loops succeed, and their union holds what either reports. */
  lemma KeyChecksMembers(a: JsValue, b: JsValue)
    requires !Nullish(a) && !Nullish(b)
    ensures KeyChecks(a, b).Success?
    ensures forall x :: x in KeyChecks(a, b).value <==> Reported(a, b, OwnKeys(a), x) || Reported(b, a, OwnKeys(b), x)
  {
    KeyCheckMembers(a, b, OwnKeys(a));
    KeyCheckMembers(b, a, OwnKeys(b));
  }

  /** The union holds the sentinel exactly on a clash. */
  lemma KeyChecksClash(a: JsValue, b: JsValue)
    requires !Nullish(a) && !Nullish(b)
    ensures KeyChecks(a, b).Success?
    ensures Inconsistent in KeyChecks(a, b).value <==> AnyClash(a, b) || AnyClash(b, a)
  {
    KeyChecksMembers(a, b);
    ReportedClash(a, b);
    ReportedClash(b, a);
  }

  /** Without a clash the union holds the keys one side lacks. */
  lemma KeyChecksMissing(a: JsValue, b: JsValue)
    requires !Nullish(a) && !Nullish(b) && !AnyClash(a, b) && !AnyClash(b, a)
    ensures KeyChecks(a, b).Success?
    ensures forall x :: x in KeyChecks(a, b).value <==> MissingKey(a, b, x) || MissingKey(b, a, x)
  {
    KeyChecksMembers(a, b);
    forall x ensures x in KeyChecks(a, b).value <==> MissingKey(a, b, x) || MissingKey(b, a, x) {
      ReportedMeaning(a, b, x);
      ReportedMeaning(b, a, x);
    }
  }

  /** Past the key checks, a tag array on one side means a tag array on the other. */
  lemma TagsAgree(a: JsValue, b: JsValue)
    requires !Nullish(a) && !Nullish(b) && !AnyClash(a, b)
    requires At(a, "tags").Arr? && !Missing(At(a, "tags"), At(b, "tags"))
    ensures At(b, "tags").Arr?
  {
    OwnKeyDefined(a, "tags");
    assert !KeyClash(a, b, "tags");
  }

  /** The field comparison adds the fields whose values differ. */
  lemma FieldDiffMembers(b1: JsValue, b2: JsValue, changes: seq<string>)
    requires !Nullish(b1) && !Nullish(b2)
    requires At(b1, "tags").Arr? && "tags" !in changes ==> At(b2, "tags").Arr?
    ensures FieldDiff(b1, b2, changes).Success?
    ensures forall x :: x in FieldDiff(b1, b2, changes).value <==>
      || x in changes
      || (x == "name" && !StrictEquals(At(b1, "name"), At(b2, "name")))
      || (x == "url" && !StrictEquals(At(b1, "url"), At(b2, "url")))
      || (x == "notes" && !StrictEquals(At(b1, "notes"), At(b2, "notes")))
      || (x == "tags" && At(b1, "tags").Arr? && At(b2, "tags").Arr? && !SameTags(At(b1, "tags").elems, At(b2, "tags").elems))
  {
  }

  /** Two comparable objects: the field comparison on the union of the key checks, which succeeds. */
  lemma {:induction false} Comparable(a: JsValue, b: JsValue)
    requires TypeOf(a) == "object" && !a.Null? && TypeOf(b) == "object" && !b.Null? && !Clash(a, b)
    ensures KeyChecks(a, b).Success? && Inconsistent !in KeyChecks(a, b).value
    ensures BookmarkDiffOf(a, b) == FieldDiff(a, b, KeyChecks(a, b).value)
    ensures FieldDiff(a, b, KeyChecks(a, b).value).Success?
    ensures At(a, "tags").Arr? && "tags" !in KeyChecks(a, b).value ==> At(b, "tags").Arr?
  {
    KeyChecksClash(a, b);
    KeyChecksMissing(a, b);
    var c := KeyChecks(a, b).value;
    if At(a, "tags").Arr? && "tags" !in c {
      if Missing(At(a, "tags"), At(b, "tags")) {
        OwnKeyDefined(a, "tags");
        assert MissingKey(a, b, "tags");
      }
      TagsAgree(a, b);
    }
    FieldDiffMembers(a, b, c);
  }

  /** Two values of the same object type, one of them `null`: reading a property raises. */
  lemma {:induction false} DiffFailure(a: JsValue, b: JsValue)
    ensures BookmarkDiffOf(a, b).Failure? <==> TypeOf(a) == "object" && TypeOf(b) == "object" && (a.Null? || b.Null?)
  {
    if TypeOf(a) == "object" && TypeOf(b) == "object" {
      if !a.Null? && !b.Null? {
        KeyChecksClash(a, b);
        if !Clash(a, b) {
          Comparable(a, b);
        }
      } else {
        KeyCheckSuccess(a, b, OwnKeys(a));
        KeyCheckSuccess(b, a, OwnKeys(b));
      }
    }
  }

  /** The sentinel comes alone, and exactly when the two values cannot be compared. */
  lemma {:induction false} DiffInconsistent(a: JsValue, b: JsValue)
    ensures BookmarkDiffOf(a, b) == Success([Inconsistent]) <==> Clash(a, b)
    ensures BookmarkDiffOf(a, b).Success? && Inconsistent in BookmarkDiffOf(a, b).value ==>
      BookmarkDiffOf(a, b) == Success([Inconsistent])
  {
    if TypeOf(a) == TypeOf(b) == "object" && !a.Null? && !b.Null? {
      KeyChecksClash(a, b);
      if !Clash(a, b) {
        NoSentinel(a, b);
      }
    } else if TypeOf(a) == TypeOf(b) == "object" {
      DiffFailure(a, b);
    }
  }

  /** Between two comparable bookmarks the sentinel is not among the differences. */
  lemma NoSentinel(a: JsValue, b: JsValue)
    requires TypeOf(a) == "object" && !a.Null? && TypeOf(b) == "object" && !b.Null? && !Clash(a, b)
    ensures BookmarkDiffOf(a, b).Success? && Inconsistent !in BookmarkDiffOf(a, b).value
  {
    KeyChecksClash(a, b);
    Comparable(a, b);
    var c := KeyChecks(a, b).value;
    FieldDiffMembers(a, b, c);
    assert Inconsistent !in FieldDiff(a, b, c).value;
  }

  /** Between two comparable bookmarks the result lists exactly the changed fields, each once. */
  lemma {:induction false} DiffChanges(a: JsValue, b: JsValue)
    requires TypeOf(a) == "object" && !a.Null? && TypeOf(b) == "object" && !b.Null? && !Clash(a, b)
    ensures BookmarkDiffOf(a, b).Success?
    ensures forall x :: x in BookmarkDiffOf(a, b).value <==> Changed(a, b, x)
  {
    Comparable(a, b);
    ObjectNotNullish(a);
    ObjectNotNullish(b);
    KeyChecksClash(a, b);
    KeyChecksMissing(a, b);
    var c := KeyChecks(a, b).value;
    forall x ensures x in FieldDiff(a, b, c).value <==> Changed(a, b, x) {
      ChangedAt(a, b, c, x);
    }
  }

  /** One key: reported by the field comparison exactly when it changed. */
  lemma ChangedAt(a: JsValue, b: JsValue, c: seq<string>, x: string)
    requires !Nullish(a) && !Nullish(b)
    requires forall y :: y in c <==> MissingKey(a, b, y) || MissingKey(b, a, y)
    requires At(a, "tags").Arr? && "tags" !in c ==> At(b, "tags").Arr?
    ensures FieldDiff(a, b, c).Success? && (x in FieldDiff(a, b, c).value <==> Changed(a, b, x))
  {
    FieldDiffMembers(a, b, c);
    if x == "tags" && "tags" in c {
      assert MissingKey(a, b, x) || MissingKey(b, a, x);
    }
  }

  lemma SameTagsSymmetric(t1: seq<JsValue>, t2: seq<JsValue>)
    ensures SameTags(t1, t2) <==> SameTags(t2, t1)
  {
  }

  /** Which version comes first changes the order of the list, not its contents. */
  lemma {:induction false} DiffSymmetric(a: JsValue, b: JsValue)
    ensures BookmarkDiffOf(a, b).Success? <==> BookmarkDiffOf(b, a).Success?
    ensures BookmarkDiffOf(a, b).Success? ==>
      forall x :: x in BookmarkDiffOf(a, b).value <==> x in BookmarkDiffOf(b, a).value
  {
    DiffFailure(a, b);
    DiffFailure(b, a);
    DiffInconsistent(a, b);
    DiffInconsistent(b, a);
    assert Clash(a, b) <==> Clash(b, a);
    if TypeOf(a) == "object" && !a.Null? && TypeOf(b) == "object" && !b.Null? && !Clash(a, b) {
      DiffChanges(a, b);
      DiffChanges(b, a);
      StrictEqualsSymmetric(At(a, "name"), At(b, "name"));
      StrictEqualsSymmetric(At(a, "url"), At(b, "url"));
      StrictEqualsSymmetric(At(a, "notes"), At(b, "notes"));
      if At(a, "tags").Arr? && At(b, "tags").Arr? {
        SameTagsSymmetric(At(a, "tags").elems, At(b, "tags").elems);
      }
      forall x ensures Changed(a, b, x) <==> Changed(b, a, x) {
      }
    }
  }

  /** `date_added` is reported only when one version lacks it: its value is never compared. */
  lemma {:induction false} DateAddedNotCompared(a: JsValue, b: JsValue)
    requires TypeOf(a) == "object" && !a.Null? && TypeOf(b) == "object" && !b.Null? && !Clash(a, b)
    ensures BookmarkDiffOf(a, b).Success?
    ensures "date_added" in BookmarkDiffOf(a, b).value <==>
      At(a, "date_added").Undefined? != At(b, "date_added").Undefined?
  {
    DiffMember(a, b, "date_added");
    ObjectNotNullish(a);
    ObjectNotNullish(b);
    ChangedDateAdded(a, b);
  }

  lemma DiffMember(a: JsValue, b: JsValue, x: string)
    requires TypeOf(a) == "object" && !a.Null? && TypeOf(b) == "object" && !b.Null? && !Clash(a, b)
    ensures BookmarkDiffOf(a, b).Success? && (x in BookmarkDiffOf(a, b).value <==> Changed(a, b, x))
  {
    DiffChanges(a, b);
  }

  lemma ObjectNotNullish(a: JsValue)
    requires TypeOf(a) == "object" && !a.Null?
    ensures !Nullish(a)
  {
  }

  /** Of the comparisons, only a missing key can change `date_added`. */
  lemma ChangedDateAdded(a: JsValue, b: JsValue)
    requires !Nullish(a) && !Nullish(b)
    ensures Changed(a, b, "date_added") <==> At(a, "date_added").Undefined? != At(b, "date_added").Undefined?
  {
    var k := "date_added";
    assert |k| == 10;
    ChangedOnlyMissing(a, b, k);
    MissingKeyMeaning(a, b, k);
    MissingKeyMeaning(b, a, k);
  }

  /** A key that is not compared by value is a change only when one side lacks it. */
  lemma ChangedOnlyMissing(a: JsValue, b: JsValue, k: string)
    requires k != "name" && k != "url" && k != "notes" && k != "tags"
    ensures Changed(a, b, k) <==> MissingKey(a, b, k) || MissingKey(b, a, k)
  {
  }

  lemma MissingKeyMeaning(a: JsValue, b: JsValue, k: string)
    requires !Nullish(a) && k != "length"
    ensures MissingKey(a, b, k) <==> !At(a, k).Undefined? && At(b, k).Undefined?
  {
    if !At(a, k).Undefined? {
      OwnKeyDefined(a, k);
    }
  }
}
