/** Deep equality as the library's `deepEqual` computes it: two values are
    equal when they are strictly equal (`===`), or when their JSON texts
    agree, or when both are objects whose own keys, taken together and
    de-duplicated, all map to deeply equal values. */
module Equality {
  import opened Options
  import opened Text
  import opened Values
  import opened Json

  /** `arr.indexOf(x)`: the first position of `x`, or -1. */
  function IndexOf(arr: seq<string>, x: string): (r: int)
    ensures -1 <= r < |arr|
    ensures r == -1 <==> x !in arr
    ensures r >= 0 ==> arr[r] == x && forall j :: 0 <= j < r ==> arr[j] != x
  {
    if |arr| == 0 then -1
    else if arr[0] == x then 0
    else
      var r := IndexOf(arr[1..], x);
      if r == -1 then -1 else r + 1
  }

  /** `dedupe(arr)`: `arr.filter((val, i) => arr.indexOf(val) === i)`, the
      elements kept from position `i` on. */
  function DedupeFrom(arr: seq<string>, i: nat): seq<string>
    requires i <= |arr|
    decreases |arr| - i
  {
    if i == |arr| then []
    else (if IndexOf(arr, arr[i]) == i then [arr[i]] else []) + DedupeFrom(arr, i + 1)
  }

  function Dedupe(arr: seq<string>): seq<string> {
    DedupeFrom(arr, 0)
  }

  ghost predicate NoDuplicates(s: seq<string>) {
    forall p, q :: 0 <= p < q < |s| ==> s[p] != s[q]
  }

  lemma {:induction false} DedupeFromSpec(arr: seq<string>, i: nat)
    requires i <= |arr|
    ensures forall x :: x in DedupeFrom(arr, i) <==> x in arr[i..] && IndexOf(arr, x) >= i
    ensures NoDuplicates(DedupeFrom(arr, i))
    decreases |arr| - i
  {
    if i < |arr| {
      DedupeFromSpec(arr, i + 1);
      assert arr[i..] == [arr[i]] + arr[i + 1..];
      var rest := DedupeFrom(arr, i + 1);
      if IndexOf(arr, arr[i]) == i {
        assert arr[i] !in rest;
        var r := [arr[i]] + rest;
        forall p, q | 0 <= p < q < |r| ensures r[p] != r[q] {
          if p > 0 {
            assert r[p] == rest[p - 1] && r[q] == rest[q - 1];
          } else {
            assert r[q] in rest;
          }
        }
      }
    }
  }

  /** De-duplication keeps every element, and each only once. */
  lemma DedupeSpec(arr: seq<string>)
    ensures forall x :: x in Dedupe(arr) <==> x in arr
    ensures NoDuplicates(Dedupe(arr))
  {
    DedupeFromSpec(arr, 0);
    assert arr[0..] == arr;
  }

  /** `a === b`. Distinct object values compare unequal here; the same
      object compared with itself has equal JSON text, which the next test
      of `DeepEqual` catches, so the result of `DeepEqual` is unaffected. */
  predicate StrictEquals(a: Value, b: Value) {
    match (a, b)
    case (Null, Null) => true
    case (Undefined, Undefined) => true
    case (Bool(x), Bool(y)) => x == y
    case (Num(x), Num(y)) => x == y
    case (Str(x), Str(y)) => x == y
    case _ => false
  }

  /** An object whose own keys can be listed: `typeof v === 'object'` and
      not null. */
  predicate Keyed(v: Value) {
    TypeofObject(v) && !v.Null?
  }

  /** The `deepEqual` the validators use. Where the library reaches
      `Object.keys(null)` (null against an object) it throws; this
      definition answers false there (see `DeepEqualAsWritten`). */
  function DeepEqual(a: Value, b: Value): bool
    decreases Size(a) + Size(b), 2
  {
    StrictEquals(a, b) || Stringify(a) == Stringify(b) || KeywiseEqual(a, b)
  }

  /** The third test: both are objects (not null) and every key of either,
      de-duplicated, maps to deeply equal values. */
  function KeywiseEqual(a: Value, b: Value): bool
    decreases Size(a) + Size(b), 1
  {
    Keyed(a) && Keyed(b) && EveryKey(a, b, Dedupe(Keys(a) + Keys(b)), 0)
  }

  /** `ks.every(key => deepEqual(a[key], b[key]))`, from position `i` on. */
  function EveryKey(a: Value, b: Value, ks: seq<string>, i: nat): bool
    requires Keyed(a) && Keyed(b) && i <= |ks|
    decreases Size(a) + Size(b), 0, |ks| - i
  {
    i == |ks| || (DeepEqual(Get(a, ks[i]), Get(b, ks[i])) && EveryKey(a, b, ks, i + 1))
  }

  /** `deepEqual` exactly as written, with the TypeError of `Object.keys(null)`
      as `None`: it is thrown when null meets another object whose JSON text
      differs, at the top or inside two objects being compared key by key. */
  function DeepEqualAsWritten(a: Value, b: Value): Option<bool>
    decreases Size(a) + Size(b), 1
  {
    if StrictEquals(a, b) || Stringify(a) == Stringify(b) then Some(true)
    else if !(TypeofObject(a) && TypeofObject(b)) then Some(false)
    else if a.Null? || b.Null? then None
    else EveryKeyAsWritten(a, b, Dedupe(Keys(a) + Keys(b)), 0)
  }

  function EveryKeyAsWritten(a: Value, b: Value, ks: seq<string>, i: nat): Option<bool>
    requires Keyed(a) && Keyed(b) && i <= |ks|
    decreases Size(a) + Size(b), 0, |ks| - i
  {
    if i == |ks| then Some(true)
    else match DeepEqualAsWritten(Get(a, ks[i]), Get(b, ks[i]))
      case None => None
      case Some(false) => Some(false)
      case Some(true) => EveryKeyAsWritten(a, b, ks, i + 1)
  }

  /** `bs[i..]` are all true. */
  function AllFrom(bs: seq<bool>, i: nat): bool
    requires i <= |bs|
    decreases |bs| - i
  {
    i == |bs| || (bs[i] && AllFrom(bs, i + 1))
  }

  lemma {:induction false} AllFromSpec(bs: seq<bool>, i: nat)
    requires i <= |bs|
    ensures AllFrom(bs, i) <==> forall j :: i <= j < |bs| ==> bs[j]
    decreases |bs| - i
  {
    if i < |bs| {
      AllFromSpec(bs, i + 1);
    }
  }

  /** The verdict of `deepEqual(a[key], b[key])` for each listed key. */
  function KeyVerdicts(a: Value, b: Value, ks: seq<string>): (vs: seq<bool>)
    ensures |vs| == |ks|
    ensures forall j :: 0 <= j < |ks| ==> vs[j] == DeepEqual(Get(a, ks[j]), Get(b, ks[j]))
  {
    seq(|ks|, j requires 0 <= j < |ks| => DeepEqual(Get(a, ks[j]), Get(b, ks[j])))
  }

  lemma {:induction false} EveryKeyVerdicts(a: Value, b: Value, ks: seq<string>, i: nat)
    requires Keyed(a) && Keyed(b) && i <= |ks|
    ensures EveryKey(a, b, ks, i) == AllFrom(KeyVerdicts(a, b, ks), i)
    decreases |ks| - i
  {
    if i < |ks| {
      var vs := KeyVerdicts(a, b, ks);
      var here := DeepEqual(Get(a, ks[i]), Get(b, ks[i]));
      assert vs[i] == here;
      assert EveryKey(a, b, ks, i) == (here && EveryKey(a, b, ks, i + 1));
      assert AllFrom(vs, i) == (vs[i] && AllFrom(vs, i + 1));
      EveryKeyVerdicts(a, b, ks, i + 1);
    }
  }

  lemma EveryKeyAll(a: Value, b: Value, ks: seq<string>, i: nat)
    requires Keyed(a) && Keyed(b) && i <= |ks|
    ensures EveryKey(a, b, ks, i) <==> forall j :: i <= j < |ks| ==> DeepEqual(Get(a, ks[j]), Get(b, ks[j]))
  {
    EveryKeyVerdicts(a, b, ks, i);
    AllFromSpec(KeyVerdicts(a, b, ks), i);
  }

  /** The three tests together decide: deep equality holds exactly when one
      of them succeeds, the key-wise test reading every key of either side. */
  lemma DeepEqualKeywise(a: Value, b: Value)
    requires Keyed(a) && Keyed(b)
    ensures DeepEqual(a, b) <==>
      || StrictEquals(a, b)
      || Stringify(a) == Stringify(b)
      || forall k :: k in Keys(a) + Keys(b) ==> DeepEqual(Get(a, k), Get(b, k))
  {
    assert DeepEqual(a, b) == (StrictEquals(a, b) || Stringify(a) == Stringify(b) || KeywiseEqual(a, b));
    KeywiseEqualSpec(a, b);
  }

  /** The key-wise test on two objects or arrays: every key of either side
      holds deeply equal values on both. */
  lemma KeywiseEqualSpec(a: Value, b: Value)
    requires Keyed(a) && Keyed(b)
    ensures KeywiseEqual(a, b) <==> forall k :: k in Keys(a) + Keys(b) ==> DeepEqual(Get(a, k), Get(b, k))
  {
    EveryKeyOfEither(a, b);
  }

  /** The `.every` over the de-duplicated keys of both sides reads every key
      of either side. */
  lemma EveryKeyOfEither(a: Value, b: Value)
    requires Keyed(a) && Keyed(b)
    ensures EveryKey(a, b, Dedupe(Keys(a) + Keys(b)), 0) <==>
      forall k :: k in Keys(a) + Keys(b) ==> DeepEqual(Get(a, k), Get(b, k))
  {
    var ks := Dedupe(Keys(a) + Keys(b));
    EveryKeyAll(a, b, ks, 0);
    DedupeSpec(Keys(a) + Keys(b));
    if forall k :: k in Keys(a) + Keys(b) ==> DeepEqual(Get(a, k), Get(b, k)) {
      AllKeysToDeduped(a, b, ks);
    }
    if EveryKey(a, b, ks, 0) {
      DedupedToAllKeys(a, b, ks);
    }
  }

  lemma AllKeysToDeduped(a: Value, b: Value, ks: seq<string>)
    requires forall k :: k in ks ==> k in Keys(a) + Keys(b)
    requires forall k :: k in Keys(a) + Keys(b) ==> DeepEqual(Get(a, k), Get(b, k))
    ensures forall j :: 0 <= j < |ks| ==> DeepEqual(Get(a, ks[j]), Get(b, ks[j]))
  {
    forall j | 0 <= j < |ks| ensures DeepEqual(Get(a, ks[j]), Get(b, ks[j])) {
      assert ks[j] in ks;
    }
  }

  lemma DedupedToAllKeys(a: Value, b: Value, ks: seq<string>)
    requires forall k :: k in Keys(a) + Keys(b) ==> k in ks
    requires forall j :: 0 <= j < |ks| ==> DeepEqual(Get(a, ks[j]), Get(b, ks[j]))
    ensures forall k :: k in Keys(a) + Keys(b) ==> DeepEqual(Get(a, k), Get(b, k))
  {
    forall k | k in Keys(a) + Keys(b) ensures DeepEqual(Get(a, k), Get(b, k)) {
      var j :| 0 <= j < |ks| && ks[j] == k;
    }
  }

  /** Every value is deeply equal to itself. */
  lemma DeepEqualReflexive(a: Value)
    ensures DeepEqual(a, a)
  {
  }

  lemma StrictEqualsSymmetric(a: Value, b: Value)
    ensures StrictEquals(a, b) == StrictEquals(b, a)
  {
  }

  /** Deep equality does not depend on the order of its arguments. */
  lemma {:induction false} DeepEqualSymmetric(a: Value, b: Value)
    ensures DeepEqual(a, b) == DeepEqual(b, a)
    decreases Size(a) + Size(b)
  {
    StrictEqualsSymmetric(a, b);
    if Keyed(a) && Keyed(b) {
      var ab, ba := Keys(a) + Keys(b), Keys(b) + Keys(a);
      DeepEqualKeywise(a, b);
      DeepEqualKeywise(b, a);
      forall k | k in ab
        ensures DeepEqual(Get(a, k), Get(b, k)) == DeepEqual(Get(b, k), Get(a, k))
      {
        DeepEqualSymmetric(Get(a, k), Get(b, k));
      }
      assert forall k :: k in ab <==> k in ba;
    }
  }

  lemma {:induction false} EveryKeyAgrees(a: Value, b: Value, ks: seq<string>, i: nat)
    requires Keyed(a) && Keyed(b) && i <= |ks|
    ensures EveryKeyAsWritten(a, b, ks, i).Some? ==> EveryKeyAsWritten(a, b, ks, i).value == EveryKey(a, b, ks, i)
    decreases Size(a) + Size(b), 0, |ks| - i
  {
    if i < |ks| {
      DeepEqualAgrees(Get(a, ks[i]), Get(b, ks[i]));
      EveryKeyAgrees(a, b, ks, i + 1);
    }
  }

  /** Wherever the library's `deepEqual` returns instead of throwing, it
      returns what `DeepEqual` answers. */
  lemma {:induction false} DeepEqualAgrees(a: Value, b: Value)
    ensures DeepEqualAsWritten(a, b).Some? ==> DeepEqualAsWritten(a, b).value == DeepEqual(a, b)
    decreases Size(a) + Size(b), 1
  {
    if Keyed(a) && Keyed(b) {
      EveryKeyAgrees(a, b, Dedupe(Keys(a) + Keys(b)), 0);
    }
  }

  /** `deepEqual(null, {})` throws: `is({})` called on null raises a
      TypeError instead of reporting a validation error. */
  lemma DeepEqualAsWrittenThrowsOnNull()
    ensures DeepEqualAsWritten(Null, Obj([])) == None
  {
    assert Stringify(Null) == Some("null");
    assert MemberTexts([]) == [] && Join([], ",") == "";
    assert "{" + "" + "}" == "{}";
  }

  lemma StringifyNull(b: Value)
    ensures Stringify(b) == Some("null") <==> b.Null? || b.NaN?
  {
    match b
    case Num(n) => assert IntToString(n)[0] != 'n';
    case Arr(es) => assert Stringify(b).value[0] == '[';
    case Obj(fs) => assert Stringify(b).value[0] == '{';
    case Str(x) => assert Stringify(b).value[0] == '"';
    case Date(x) => assert Stringify(b).value[0] == '"';
    case _ =>
  }

  /** Null is deeply equal to null and to not-a-number (both serialise to
      "null") and to nothing else; in particular it never equals an object. */
  lemma DeepEqualNull(b: Value)
    ensures DeepEqual(Null, b) <==> b.Null? || b.NaN?
  {
    StringifyNull(b);
  }

  ghost predicate DistinctKeys(fs: seq<(string, Value)>) {
    forall i, j :: 0 <= i < j < |fs| ==> fs[i].0 != fs[j].0
  }

  lemma {:induction false} LookupField(fs: seq<(string, Value)>, i: nat)
    requires DistinctKeys(fs) && i < |fs|
    ensures Lookup(fs, fs[i].0) == fs[i].1
  {
    if i > 0 {
      assert fs[0].0 != fs[i].0;
      LookupField(fs[1..], i - 1);
    }
  }

  lemma LookupSame(fs: seq<(string, Value)>, gs: seq<(string, Value)>, k: string)
    requires DistinctKeys(fs) && DistinctKeys(gs)
    requires forall f :: f in fs <==> f in gs
    ensures Lookup(fs, k) == Lookup(gs, k)
  {
    if i :| 0 <= i < |fs| && fs[i].0 == k {
      LookupField(fs, i);
      assert fs[i] in gs;
      var j :| 0 <= j < |gs| && gs[j] == fs[i];
      LookupField(gs, j);
    } else {
      forall j | 0 <= j < |gs| ensures gs[j].0 != k {
        assert gs[j] in fs;
      }
    }
  }

  /** Objects with the same fields are deeply equal whatever order the
      fields were created in: the key-wise test reads fields by name. */
  lemma DeepEqualIgnoresFieldOrder(fs: seq<(string, Value)>, gs: seq<(string, Value)>)
    requires DistinctKeys(fs) && DistinctKeys(gs)
    requires forall f :: f in fs <==> f in gs
    ensures DeepEqual(Obj(fs), Obj(gs))
  {
    var a, b := Obj(fs), Obj(gs);
    forall k | k in Keys(a) + Keys(b) ensures DeepEqual(Get(a, k), Get(b, k)) {
      LookupSame(fs, gs, k);
      DeepEqualReflexive(Get(a, k));
    }
    DeepEqualKeywise(a, b);
  }

  lemma ArrayKey(es: seq<Value>, i: nat)
    requires i < |es|
    ensures Get(Arr(es), NatToString(i)) == es[i]
  {
    ParseNatToString(i);
    assert NatToString(i) != "length" by {
      assert IsDigit(NatToString(i)[0]);
    }
  }

  /** Arrays are compared as integer-keyed objects: arrays of one length
      whose elements are pairwise deeply equal are deeply equal. */
  lemma DeepEqualElementwise(es: seq<Value>, ds: seq<Value>)
    requires |es| == |ds|
    requires forall i :: 0 <= i < |es| ==> DeepEqual(es[i], ds[i])
    ensures DeepEqual(Arr(es), Arr(ds))
  {
    var a, b := Arr(es), Arr(ds);
    forall k | k in Keys(a) + Keys(b) ensures DeepEqual(Get(a, k), Get(b, k)) {
      assert Keys(a) == Keys(b);
      var i :| 0 <= i < |es| && Keys(a)[i] == k;
      ArrayKey(es, i);
      ArrayKey(ds, i);
    }
    DeepEqualKeywise(a, b);
  }

  /** Numbers compare by value: two integers are deeply equal exactly when
      they are equal. */
  lemma DeepEqualNum(x: int, y: int)
    ensures DeepEqual(Num(x), Num(y)) <==> x == y
  {
    IntToStringInjective(x, y);
  }

  /** Strings compare by value. */
  lemma DeepEqualStr(x: string, y: string)
    ensures DeepEqual(Str(x), Str(y)) <==> x == y
  {
    QuoteJsonInjective(x, y);
  }

  /** Booleans compare by value. */
  lemma DeepEqualBool(x: bool, y: bool)
    ensures DeepEqual(Bool(x), Bool(y)) <==> x == y
  {
    assert |"true"| != |"false"|;
  }

  /** The JSON text of an object with one member text `q` followed by the
      value's text, or of an object whose one field is skipped. */
  function Braced(q: string, o: Option<string>): string {
    match o
    case Some(t) => "{" + (q + t) + "}"
    case None => "{" + "}"
  }

  /** The JSON text of an object with one field. */
  lemma StringifySingleField(k: string, x: Value)
    ensures Stringify(Obj([(k, x)])) == Some(Braced(QuoteJson(k) + ":", Stringify(x)))
  {
    var fs := [(k, x)];
    assert fs[0].1 == x && fs[0].0 == k && fs[1..] == [];
    var m := MemberTexts(fs);
    match Stringify(x)
    case Some(t) =>
      assert m == [QuoteJson(k) + ":" + t] + MemberTexts(fs[1..]);
      assert m == [QuoteJson(k) + ":" + t];
      assert Join(m, ",") == QuoteJson(k) + ":" + t;
    case None =>
      assert m == [] + MemberTexts(fs[1..]);
      assert Join(m, ",") == "";
      assert "{" + "" + "}" == "{" + "}";
  }

  lemma BracedInjective(q: string, o: Option<string>, r: Option<string>)
    requires |q| > 0
    ensures Braced(q, o) == Braced(q, r) <==> o == r
  {
    if o.Some? && r.Some? {
      var tx, ux := Braced(q, o), Braced(q, r);
      assert tx[1 + |q|..|tx| - 1] == o.value;
      assert ux[1 + |q|..|ux| - 1] == r.value;
    } else if o.Some? {
      assert |Braced(q, o)| > 2;
    } else if r.Some? {
      assert |Braced(q, r)| > 2;
    }
  }

  /** Two objects with one field under the same key are deeply equal exactly
      when the two field values are: the key-wise test reaches inside. */
  lemma DeepEqualSingleField(k: string, x: Value, y: Value)
    ensures DeepEqual(Obj([(k, x)]), Obj([(k, y)])) <==> DeepEqual(x, y)
  {
    var a, b := Obj([(k, x)]), Obj([(k, y)]);
    assert Keys(a) + Keys(b) == [k, k];
    assert Get(a, k) == x && Get(b, k) == y;
    DeepEqualKeywise(a, b);
    if Stringify(a) == Stringify(b) {
      StringifySingleField(k, x);
      StringifySingleField(k, y);
      BracedInjective(QuoteJson(k) + ":", Stringify(x), Stringify(y));
    }
  }
}
