/** `like(ref)` turns an example value into a validator. This module gives
    an independent account of which subjects an example admits, written as
    a relation between the example and the subject, and proves that the
    validator `like` builds accepts exactly those subjects. */
module Shapes {
  import opened Options
  import opened Values
  import opened Equality
  import opened Validate
  import opened Paths
  import opened Combinators
  import opened Structure

  /** The subject `s` has the shape of the example `ref`:
      a validator embedded in the example must pass; a scalar example fixes
      only the kind, never the value; a null or undefined example allows
      null or undefined; an object example needs an object whose value at
      each of the example's keys has the shape of the example's value there;
      an array example whose first element is present fixes the shape of
      every element, otherwise it only asks for an array; a NaN example is
      matched by deep equality. */
  ghost predicate Conforms(ref: Value, s: Value)
    decreases ref
  {
    match ref
    case Func(v) => Check(v, s, []).None?
    case Null => s.Null? || s.Undefined?
    case Undefined => s.Null? || s.Undefined?
    case NaN => DeepEqual(s, ref)
    case Obj(fs) => s.Obj? && forall f :: f in fs ==> Conforms(f.1, Get(s, f.0))
    case Arr(es) =>
      s.Arr? && (|es| == 0 || es[0].Null? || es[0].Undefined? ||
                 forall e :: e in s.elems ==> Conforms(es[0], e))
    case _ => Type(s) == Type(ref)
  }

  /** `like(ref)` accepts exactly the subjects with the shape of `ref`, at
      whatever path it is called. */
  lemma {:induction false} LikeConforms(ref: Value, s: Value, p: Path)
    ensures Check(Like(ref), s, p).None? <==> Conforms(ref, s)
    decreases ref, 1
  {
    match ref
    case Func(v) =>
      PassIsPathIndependent(v, s, p, []);
    case Obj(fs) =>
      LikeObjectConforms(fs, s, p);
    case Arr(es) =>
      if |es| == 0 || es[0].Null? || es[0].Undefined? {
        PrimitiveCheck(KArray, s, p);
      } else {
        LikeArrayConforms(es, s, p);
      }
    case NaN =>
      IsSpec(ref, s, p);
    case Null =>
      EmptyCheck(s, p);
    case Undefined =>
      EmptyCheck(s, p);
    case _ =>
      LikeScalar(ref, s, p);
  }

  lemma {:induction false} LikeObjectConforms(fs: seq<(string, Value)>, s: Value, p: Path)
    ensures Check(Like(Obj(fs)), s, p).None? <==> Conforms(Obj(fs), s)
    decreases Obj(fs), 0
  {
    var schema := LikeSchema(fs);
    ObjectOfSpec(schema, s, p);
    if s.Obj? {
      forall j | 0 <= j < |fs|
        ensures FieldCheck(schema, j, s, p).None? <==> Conforms(fs[j].1, Get(s, fs[j].0))
      {
        assert fs[j] in fs && fs[j].1 < fs[j];
        LikeSchemaAt(fs, j);
        LikeConforms(fs[j].1, Get(s, fs[j].0), p + [Prop(fs[j].0)]);
      }
      if forall f :: f in fs ==> Conforms(f.1, Get(s, f.0)) {
        forall j | 0 <= j < |fs| ensures Conforms(fs[j].1, Get(s, fs[j].0)) {
          assert fs[j] in fs;
        }
      }
    }
  }

  lemma {:induction false} LikeArrayConforms(es: seq<Value>, s: Value, p: Path)
    requires |es| > 0 && !es[0].Null? && !es[0].Undefined?
    ensures Check(Like(Arr(es)), s, p).None? <==> Conforms(Arr(es), s)
    decreases Arr(es), 0
  {
    ArrayOfSpec(Like(es[0]), s, p);
    if s.Arr? {
      forall i | 0 <= i < |s.elems|
        ensures Check(Like(es[0]), s.elems[i], p + [Index(i)]).None? <==> Conforms(es[0], s.elems[i])
      {
        LikeConforms(es[0], s.elems[i], p + [Index(i)]);
      }
      if forall e :: e in s.elems ==> Conforms(es[0], e) {
        forall i | 0 <= i < |s.elems| ensures Conforms(es[0], s.elems[i]) {
          assert s.elems[i] in s.elems;
        }
      }
    }
  }

  /** A scalar example (number, string, boolean, date, regexp) fixes the
      kind only: `like(ref)` accepts every value of that kind, whatever its
      content, and its error names the kind. */
  lemma LikeScalar(ref: Value, s: Value, p: Path)
    requires ref.Num? || ref.Str? || ref.Bool? || ref.Date? || ref.RegExp?
    ensures Check(Like(ref), s, p).None? <==> Type(s) == Type(ref)
    ensures Check(Like(ref), s, p).Some? ==> Check(Like(ref), s, p) == Some(ValidationError(p, TypeText(Type(ref)), s))
  {
    match ref
    case Num(_) => PrimitiveCheck(KNumber, s, p);
    case Str(_) => PrimitiveCheck(KString, s, p);
    case Bool(_) => PrimitiveCheck(KBoolean, s, p);
    case Date(_) => PrimitiveCheck(KDate, s, p);
    case RegExp(_) => PrimitiveCheck(KRegExp, s, p);
  }

  /** `like(null)` and `like(undefined)` both accept exactly null and
      undefined. */
  lemma LikeNullish(ref: Value, s: Value, p: Path)
    requires ref.Null? || ref.Undefined?
    ensures Check(Like(ref), s, p).None? <==> s.Null? || s.Undefined?
    ensures Check(Like(ref), s, p).Some? ==> Check(Like(ref), s, p) == Some(ValidationError(p, "null or undefined", s))
  {
    EmptyCheck(s, p);
  }

  /** `like` of an array whose first element is present checks every
      element of the subject against that first element's shape and
      reports the first failing index; the example's other elements are
      never consulted. */
  lemma LikeArrayUsesFirstElement(es: seq<Value>, rest: seq<Value>, s: Value, p: Path)
    requires |es| > 0 && !es[0].Null? && !es[0].Undefined?
    ensures Check(Like(Arr(es)), s, p) == Check(Like(Arr([es[0]] + rest)), s, p)
    ensures s.Arr? ==> (Check(Like(Arr(es)), s, p).None? <==> forall i :: 0 <= i < |s.elems| ==> Conforms(es[0], s.elems[i]))
  {
    assert ([es[0]] + rest)[0] == es[0];
    LikeConforms(Arr(es), s, p);
  }

  /** `like` of an empty array, or of one whose first element is null or
      undefined, is the plain `array` check. */
  lemma LikeArrayUnconstrained(es: seq<Value>, s: Value, p: Path)
    requires |es| == 0 || es[0].Null? || es[0].Undefined?
    ensures Check(Like(Arr(es)), s, p).None? <==> s.Arr?
    ensures Check(Like(Arr(es)), s, p).Some? ==> Check(Like(Arr(es)), s, p) == Some(ValidationError(p, "array", s))
  {
    PrimitiveCheck(KArray, s, p);
  }
}
