/** What each kind check and each logical and equality combinator answers,
    stated against independent descriptions: the constructor of the value,
    the answers of the operands, deep equality. */
module Combinators {
  import opened Options
  import opened Text
  import opened Values
  import opened Json
  import opened Equality
  import opened Validate
  import opened Paths
  import opened Firsts

  /** The kind a kind-checking validator accepts, read off the value's
      constructor. */
  predicate HasKind(s: Value, k: Kind) {
    match k
    case KString => s.Str?
    case KNumber => s.Num?
    case KBoolean => s.Bool?
    case KObject => s.Obj?
    case KArray => s.Arr?
    case KDate => s.Date?
    case KRegExp => s.RegExp?
    case KNull => s.Null?
    case KUndefined => s.Undefined?
  }

  /** A kind check passes exactly on values of its kind; otherwise its error
      is at the call's path, expects the kind's tag, and carries the value. */
  lemma PrimitiveCheck(k: Kind, s: Value, p: Path)
    ensures Check(Prim(k), s, p).None? <==> HasKind(s, k)
    ensures Check(Prim(k), s, p).Some? ==> Check(Prim(k), s, p) == Some(ValidationError(p, Tag(k), s))
  {
  }

  /** `object` rejects arrays and null, `array` rejects plain objects. */
  lemma ObjectAndArrayDisjoint(s: Value, p: Path)
    ensures Check(Prim(KObject), s, p).None? ==> !s.Arr? && !s.Null?
    ensures Check(Prim(KArray), s, p).None? ==> !s.Obj?
  {
    PrimitiveCheck(KObject, s, p);
    PrimitiveCheck(KArray, s, p);
  }

  /** `number` accepts every integer and rejects not-a-number, whose tag is
      "NaN" rather than "number". */
  lemma NumberRejectsNaN(n: int, p: Path)
    ensures Check(Prim(KNumber), Num(n), p).None?
    ensures Check(Prim(KNumber), NaN, p) == Some(ValidationError(p, "number", NaN))
  {
  }

  /** `empty` passes exactly on null and undefined. */
  lemma EmptyCheck(s: Value, p: Path)
    ensures Check(Empty, s, p).None? <==> s.Null? || s.Undefined?
    ensures Check(Empty, s, p).Some? ==> Check(Empty, s, p) == Some(ValidationError(p, "null or undefined", s))
  {
  }

  /** `not(v)` passes exactly where `v` fails, at any path. */
  lemma NotCheck(v: Validator, s: Value, p: Path)
    ensures Check(Not(v), s, p).None? <==> Check(v, s, p).Some?
    ensures Check(Not(v), s, p).Some? ==> Check(Not(v), s, p) == Some(ValidationError(p, "not(" + Name(v) + ")", s))
  {
    PassIsPathIndependent(v, s, [], p);
  }

  /** `any` passes every value. */
  lemma AnyPasses(s: Value, p: Path)
    ensures Check(Any, s, p).None?
  {
  }

  /** The answers of the operands of `and(vs)`, in order. */
  function AndResults(vs: seq<Validator>, s: Value, p: Path): (rs: seq<Option<ValidationError>>)
    ensures |rs| == |vs|
    ensures forall j :: 0 <= j < |vs| ==> rs[j] == Check(vs[j], s, p)
  {
    seq(|vs|, j requires 0 <= j < |vs| => Check(vs[j], s, p))
  }

  /** The loop of `and` returns the first error among its operands' answers. */
  lemma {:induction false} AndFromFirst(vs: seq<Validator>, i: nat, s: Value, p: Path)
    requires i <= |vs|
    ensures AndFrom(vs, i, s, p) == FirstError(AndResults(vs, s, p), i)
    decreases |vs| - i
  {
    if i < |vs| {
      var rs := AndResults(vs, s, p);
      assert rs[i] == Check(vs[i], s, p);
      AndFromFirst(vs, i + 1, s, p);
    }
  }

  /** `and(v1..vn)` passes exactly when every operand passes; otherwise it
      returns the error of the first operand that fails, all operands being
      called with the same path. `and()` passes everything. */
  lemma AndSpec(vs: seq<Validator>, s: Value, p: Path)
    ensures Check(And(vs), s, p).None? <==> forall j :: 0 <= j < |vs| ==> Check(vs[j], s, p).None?
    ensures Check(And(vs), s, p).Some? ==>
      exists j :: 0 <= j < |vs| && Check(And(vs), s, p) == Check(vs[j], s, p)
        && forall m :: 0 <= m < j ==> Check(vs[m], s, p).None?
  {
    AndFromFirst(vs, 0, s, p);
    FirstErrorSpec(AndResults(vs, s, p), 0);
  }

  /** `and(a, b)` answers `a`'s error if there is one, and `b`'s answer
      otherwise. */
  lemma AndPair(a: Validator, b: Validator, s: Value, p: Path)
    ensures Check(And([a, b]), s, p) == if Check(a, s, p).Some? then Check(a, s, p) else Check(b, s, p)
  {
    var vs := [a, b];
    assert AndFrom(vs, 2, s, p) == None;
    assert AndFrom(vs, 1, s, p) == Check(b, s, p);
  }

  lemma {:induction false} AndFromConcat(xs: seq<Validator>, ys: seq<Validator>, i: nat, s: Value, p: Path)
    requires i <= |xs|
    ensures AndFrom(xs + ys, i, s, p) == match AndFrom(xs, i, s, p)
      case None => AndFrom(ys, 0, s, p)
      case Some(e) => Some(e)
    decreases |xs| - i
  {
    if i < |xs| {
      assert (xs + ys)[i] == xs[i];
      AndFromConcat(xs, ys, i + 1, s, p);
    } else {
      AndFromShift(xs, ys, 0, s, p);
    }
  }

  lemma {:induction false} AndFromShift(xs: seq<Validator>, ys: seq<Validator>, j: nat, s: Value, p: Path)
    requires j <= |ys|
    ensures AndFrom(xs + ys, |xs| + j, s, p) == AndFrom(ys, j, s, p)
    decreases |ys| - j
  {
    if j < |ys| {
      assert (xs + ys)[|xs| + j] == ys[j];
      AndFromShift(xs, ys, j + 1, s, p);
    }
  }

  /** Nesting `and`s does not change the answer: `and(xs..., ys...)` is
      `and(and(xs...), and(ys...))`. */
  lemma AndAssociative(xs: seq<Validator>, ys: seq<Validator>, s: Value, p: Path)
    ensures Check(And(xs + ys), s, p) == Check(And([And(xs), And(ys)]), s, p)
  {
    AndFromConcat(xs, ys, 0, s, p);
    AndPair(And(xs), And(ys), s, p);
  }

  /** The `expected` text of an operand's answer (empty when it passed). */
  function ExpectedOf(r: Option<ValidationError>): string {
    match r
    case None => ""
    case Some(e) => e.expected
  }

  /** The `expected` texts of the operands `vs[i..]`, in order. */
  function ExpectedsFrom(vs: seq<Validator>, i: nat, s: Value, p: Path): seq<string>
    requires i <= |vs|
  {
    seq(|vs| - i, j requires 0 <= j < |vs| - i => ExpectedOf(Check(vs[i + j], s, p)))
  }

  lemma ExpectedsFromStep(vs: seq<Validator>, i: nat, s: Value, p: Path)
    requires i < |vs|
    ensures ExpectedsFrom(vs, i, s, p) == [ExpectedOf(Check(vs[i], s, p))] + ExpectedsFrom(vs, i + 1, s, p)
  {
  }

  lemma {:induction false} OrFromPasses(vs: seq<Validator>, i: nat, s: Value, p: Path, errs: seq<ValidationError>)
    requires i <= |vs|
    ensures OrFrom(vs, i, s, p, errs).None? <==> exists j :: i <= j < |vs| && Check(vs[j], s, p).None?
    decreases |vs| - i
  {
    if i < |vs| && Check(vs[i], s, p).Some? {
      OrFromPasses(vs, i + 1, s, p, errs + [Check(vs[i], s, p).value]);
    }
  }

  lemma {:induction false} OrFromError(vs: seq<Validator>, i: nat, s: Value, p: Path, errs: seq<ValidationError>)
    requires i <= |vs|
    ensures OrFrom(vs, i, s, p, errs).Some? ==>
      OrFrom(vs, i, s, p, errs) == Some(ValidationError(p, OrText(ExpectedTexts(errs) + ExpectedsFrom(vs, i, s, p)), s))
    decreases |vs| - i
  {
    if i == |vs| {
      assert ExpectedTexts(errs) + ExpectedsFrom(vs, i, s, p) == ExpectedTexts(errs);
    } else if Check(vs[i], s, p).Some? {
      var e := Check(vs[i], s, p).value;
      OrFromError(vs, i + 1, s, p, errs + [e]);
      ExpectedsFromStep(vs, i, s, p);
      assert ExpectedTexts(errs + [e]) == ExpectedTexts(errs) + [e.expected];
      assert ExpectedTexts(errs + [e]) + ExpectedsFrom(vs, i + 1, s, p)
          == ExpectedTexts(errs) + ExpectedsFrom(vs, i, s, p);
    }
  }

  /** `or(v1..vn)` passes exactly when some operand passes. When all fail,
      its one error is at the call's path, carries the subject itself, and
      expects "or(" followed by the operands' expected texts in order,
      separated by ", ", and ")". */
  lemma OrSpec(vs: seq<Validator>, s: Value, p: Path)
    ensures Check(Or(vs), s, p).None? <==> exists j :: 0 <= j < |vs| && Check(vs[j], s, p).None?
    ensures Check(Or(vs), s, p).Some? ==>
      Check(Or(vs), s, p) == Some(ValidationError(p, "or(" + Join(ExpectedsFrom(vs, 0, s, p), ", ") + ")", s))
  {
    OrFromPasses(vs, 0, s, p, []);
    OrFromError(vs, 0, s, p, []);
    assert ExpectedTexts([]) + ExpectedsFrom(vs, 0, s, p) == ExpectedsFrom(vs, 0, s, p);
  }

  /** `or(a, b)` passes if either passes; otherwise it expects
      "or(<a's expected>, <b's expected>)" and reports the subject. */
  lemma OrPair(a: Validator, b: Validator, s: Value, p: Path)
    ensures Check(Or([a, b]), s, p).None? <==> Check(a, s, p).None? || Check(b, s, p).None?
    ensures Check(Or([a, b]), s, p).Some? ==>
      Check(Or([a, b]), s, p) == Some(ValidationError(p, "or(" + Check(a, s, p).value.expected + ", " + Check(b, s, p).value.expected + ")", s))
  {
    if Check(a, s, p).None? {
      OrPairFirstPasses(a, b, s, p);
    } else if Check(b, s, p).None? {
      OrPairSecondPasses(a, b, s, p, Check(a, s, p).value);
    } else {
      var ea, eb := Check(a, s, p).value, Check(b, s, p).value;
      OrPairFails(a, b, s, p, ea, eb);
      OrTextPair(ea.expected, eb.expected);
    }
  }

  lemma OrPairFirstPasses(a: Validator, b: Validator, s: Value, p: Path)
    requires Check(a, s, p).None?
    ensures Check(Or([a, b]), s, p).None?
  {
    assert [a, b][0] == a;
  }

  lemma OrPairSecondPasses(a: Validator, b: Validator, s: Value, p: Path, ea: ValidationError)
    requires Check(a, s, p) == Some(ea) && Check(b, s, p).None?
    ensures Check(Or([a, b]), s, p).None?
  {
    var vs, e0: seq<ValidationError> := [a, b], [];
    assert vs[0] == a && vs[1] == b && e0 + [ea] == [ea];
    assert OrFrom(vs, 0, s, p, e0) == OrFrom(vs, 1, s, p, [ea]);
  }

  lemma OrPairFails(a: Validator, b: Validator, s: Value, p: Path, ea: ValidationError, eb: ValidationError)
    requires Check(a, s, p) == Some(ea) && Check(b, s, p) == Some(eb)
    ensures Check(Or([a, b]), s, p) == Some(ValidationError(p, OrText([ea.expected, eb.expected]), s))
  {
    var vs, e0: seq<ValidationError> := [a, b], [];
    assert vs[0] == a && vs[1] == b && e0 + [ea] == [ea] && [ea] + [eb] == [ea, eb];
    assert OrFrom(vs, 0, s, p, e0) == OrFrom(vs, 1, s, p, [ea]);
    assert OrFrom(vs, 1, s, p, [ea]) == OrFrom(vs, 2, s, p, [ea, eb]);
    assert ExpectedTexts([ea, eb]) == [ea.expected, eb.expected];
  }

  lemma OrTextPair(x: string, y: string)
    ensures OrText([x, y]) == "or(" + x + ", " + y + ")"
  {
    assert [x, y][1..] == [y];
    assert Join([x, y], ", ") == x + ", " + y;
    assert "or(" + (x + ", " + y) + ")" == "or(" + x + ", " + y + ")";
  }

  /** `optional(v)` passes null and undefined whatever `v` is; on any other
      value it fails exactly when `v` fails, expecting
      "or(null or undefined, <v's expected>)". */
  lemma OptionalSpec(v: Validator, s: Value, p: Path)
    ensures s.Null? || s.Undefined? ==> Check(Optional(v), s, p).None?
    ensures !(s.Null? || s.Undefined?) ==> (Check(Optional(v), s, p).None? <==> Check(v, s, p).None?)
    ensures Check(Optional(v), s, p).Some? ==>
      Check(Optional(v), s, p) == Some(ValidationError(p, "or(null or undefined, " + Check(v, s, p).value.expected + ")", s))
  {
    assert Optional(v) == Or([Empty, v]);
    OrPair(Empty, v, s, p);
    EmptyCheck(s, p);
    if Check(Or([Empty, v]), s, p).Some? {
      OptionalText(Check(v, s, p).value.expected);
    }
  }

  lemma OptionalText(ev: string)
    ensures "or(" + "null or undefined" + ", " + ev + ")" == "or(null or undefined, " + ev + ")"
  {
    assert "or(" + "null or undefined" + ", " == "or(null or undefined, ";
  }

  /** `is(ref)` passes exactly the values deeply equal to `ref`, among them
      `ref` itself; a failure expects "is(<JSON of ref>)" and carries the
      subject. */
  lemma IsSpec(ref: Value, s: Value, p: Path)
    ensures Check(Is(ref), s, p).None? <==> DeepEqual(s, ref)
    ensures Check(Is(ref), ref, p).None?
    ensures Check(Is(ref), s, p).Some? ==> Check(Is(ref), s, p) == Some(ValidationError(p, "is(" + JsonText(ref) + ")", s))
  {
    DeepEqualReflexive(ref);
  }

  /** Swapping subject and reference does not change whether `is` passes. */
  lemma IsSymmetric(a: Value, b: Value, p: Path)
    ensures Check(Is(a), b, p).None? <==> Check(Is(b), a, p).None?
  {
    DeepEqualSymmetric(a, b);
  }

  /** `is(ref)` on null: passes only when `ref` is null or not-a-number, and
      otherwise reports a failure; `is({})` on null fails with an error. */
  lemma IsOnNull(ref: Value, p: Path)
    ensures Check(Is(ref), Null, p).None? <==> ref.Null? || ref.NaN?
    ensures Check(Is(Obj([])), Null, p).Some?
  {
    DeepEqualNull(ref);
    DeepEqualSymmetric(Null, ref);
    DeepEqualNull(Obj([]));
    DeepEqualSymmetric(Null, Obj([]));
  }

  /** The `expected` texts of `is(ref1)..is(refn)`, in order. */
  function IsTexts(refs: seq<Value>): (ts: seq<string>)
    ensures |ts| == |refs|
  {
    seq(|refs|, j requires 0 <= j < |refs| => "is(" + JsonText(refs[j]) + ")")
  }

  lemma OneOfPasses(refs: seq<Value>, s: Value, p: Path)
    ensures Check(OneOf(refs), s, p).None? <==> exists j :: 0 <= j < |refs| && DeepEqual(s, refs[j])
  {
    var vs := OneOf(refs).alternatives;
    OrSpec(vs, s, p);
    if exists j :: 0 <= j < |refs| && DeepEqual(s, refs[j]) {
      var j :| 0 <= j < |refs| && DeepEqual(s, refs[j]);
      assert Check(vs[j], s, p).None?;
    }
  }

  lemma OneOfExpecteds(refs: seq<Value>, s: Value, p: Path)
    requires forall j :: 0 <= j < |refs| ==> !DeepEqual(s, refs[j])
    ensures ExpectedsFrom(OneOf(refs).alternatives, 0, s, p) == IsTexts(refs)
  {
    var vs := OneOf(refs).alternatives;
    var ex := ExpectedsFrom(vs, 0, s, p);
    forall j | 0 <= j < |refs|
      ensures ex[j] == IsTexts(refs)[j]
    {
      assert vs[j] == Is(refs[j]);
      assert ex[j] == ExpectedOf(Check(vs[j], s, p));
    }
  }

  /** `oneOf(ref1..refn)` passes exactly the values deeply equal to some
      reference; on failure it expects "or(is(<JSON ref1>), ...)" in order. */
  lemma OneOfSpec(refs: seq<Value>, s: Value, p: Path)
    ensures Check(OneOf(refs), s, p).None? <==> exists j :: 0 <= j < |refs| && DeepEqual(s, refs[j])
    ensures Check(OneOf(refs), s, p).Some? ==>
      Check(OneOf(refs), s, p) == Some(ValidationError(p, "or(" + Join(IsTexts(refs), ", ") + ")", s))
  {
    OneOfPasses(refs, s, p);
    if Check(OneOf(refs), s, p).Some? {
      OrSpec(OneOf(refs).alternatives, s, p);
      OneOfExpecteds(refs, s, p);
    }
  }
}
