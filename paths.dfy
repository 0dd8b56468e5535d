/** How paths thread through validation. Structural combinators only ever
    append to the path they are given, so an error's path extends the path
    of the call that returned it, and calling a validator at another path
    moves the error and changes nothing else: whether a value passes never
    depends on the path. (`not` relies on this: it calls its operand
    without a path.) */
module Paths {
  import opened Options
  import opened Values
  import opened Validate

  /** The error `r`, reported at `p`, as it would be reported at `q`. */
  function Rebase(r: Option<ValidationError>, p: Path, q: Path): Option<ValidationError> {
    match r
    case None => None
    case Some(e) =>
      if p <= e.path then Some(ValidationError(q + e.path[|p|..], e.expected, e.received)) else r
  }

  lemma RebaseStep(r: Option<ValidationError>, p: Path, q: Path, k: Key)
    requires r.Some? ==> p + [k] <= r.value.path
    ensures r.Some? ==> p <= r.value.path
    ensures Rebase(r, p + [k], q + [k]) == Rebase(r, p, q)
  {
    if r.Some? {
      var e := r.value;
      assert e.path[..|p|] == (p + [k])[..|p|] == p;
      assert e.path[|p|..] == [k] + e.path[|p| + 1..];
      assert q + [k] + e.path[|p| + 1..] == q + e.path[|p|..];
    }
  }

  lemma RebaseHere(p: Path, q: Path, expected: string, s: Value)
    ensures Rebase(Some(ValidationError(p, expected, s)), p, q) == Some(ValidationError(q, expected, s))
  {
    assert p[|p|..] == [] && q + [] == q;
  }

  /** An error's path starts with the path the validator was called with,
      and the same call at another path reports the same error moved there. */
  lemma {:induction false} Relocation(v: Validator, s: Value, p: Path, q: Path)
    ensures Check(v, s, p).Some? ==> p <= Check(v, s, p).value.path
    ensures Check(v, s, q) == Rebase(Check(v, s, p), p, q)
    decreases v, 0
  {
    match v
    case Prim(k) => RebaseHere(p, q, Tag(k), s);
    case Empty => RebaseHere(p, q, "null or undefined", s);
    case Any =>
    case Not(inner) => RebaseHere(p, q, "not(" + Name(inner) + ")", s);
    case And(vs) => AndRelocation(vs, 0, s, p, q);
    case Or(vs) => OrRelocation(vs, 0, s, p, q, [], []);
    case Is(ref) => RebaseHere(p, q, "is(" + Json.JsonText(ref) + ")", s);
    case ObjectOf(schema) =>
      if Type(s) != TObject {
        RebaseHere(p, q, Tag(KObject), s);
      } else {
        FieldsRelocation(schema, 0, s, p, q);
      }
    case ArrayOf(elem) =>
      if Type(s) != TArray {
        RebaseHere(p, q, Tag(KArray), s);
      } else {
        ElementsRelocation(elem, s.elems, 0, p, q);
      }
  }

  lemma {:induction false} AndRelocation(vs: seq<Validator>, i: nat, s: Value, p: Path, q: Path)
    requires i <= |vs|
    ensures AndFrom(vs, i, s, p).Some? ==> p <= AndFrom(vs, i, s, p).value.path
    ensures AndFrom(vs, i, s, q) == Rebase(AndFrom(vs, i, s, p), p, q)
    decreases vs, |vs| - i
  {
    if i < |vs| {
      Relocation(vs[i], s, p, q);
      AndRelocation(vs, i + 1, s, p, q);
    }
  }

  lemma {:induction false} OrRelocation(vs: seq<Validator>, i: nat, s: Value, p: Path, q: Path,
                                        errsP: seq<ValidationError>, errsQ: seq<ValidationError>)
    requires i <= |vs|
    requires |errsP| == |errsQ| && forall j :: 0 <= j < |errsP| ==> errsP[j].expected == errsQ[j].expected
    ensures OrFrom(vs, i, s, p, errsP).Some? ==> p <= OrFrom(vs, i, s, p, errsP).value.path
    ensures OrFrom(vs, i, s, q, errsQ) == Rebase(OrFrom(vs, i, s, p, errsP), p, q)
    decreases vs, |vs| - i
  {
    if i == |vs| {
      assert ExpectedTexts(errsP) == ExpectedTexts(errsQ);
      RebaseHere(p, q, OrText(ExpectedTexts(errsP)), s);
    } else {
      Relocation(vs[i], s, p, q);
      match Check(vs[i], s, p)
      case None =>
      case Some(e) =>
        var e' := Check(vs[i], s, q).value;
        OrRelocation(vs, i + 1, s, p, q, errsP + [e], errsQ + [e']);
    }
  }

  lemma {:induction false} FieldsRelocation(schema: seq<(string, Validator)>, i: nat, s: Value, p: Path, q: Path)
    requires i <= |schema|
    ensures FieldsFrom(schema, i, s, p).Some? ==> p <= FieldsFrom(schema, i, s, p).value.path
    ensures FieldsFrom(schema, i, s, q) == Rebase(FieldsFrom(schema, i, s, p), p, q)
    decreases schema, |schema| - i
  {
    if i < |schema| {
      assert schema[i] in schema && schema[i].1 < schema[i];
      var k := Prop(schema[i].0);
      var sub := Get(s, schema[i].0);
      Relocation(schema[i].1, sub, p + [k], q + [k]);
      RebaseStep(Check(schema[i].1, sub, p + [k]), p, q, k);
      FieldsRelocation(schema, i + 1, s, p, q);
    }
  }

  lemma {:induction false} ElementsRelocation(elem: Validator, ss: seq<Value>, i: nat, p: Path, q: Path)
    requires i <= |ss|
    ensures ElementsFrom(elem, ss, i, p).Some? ==> p <= ElementsFrom(elem, ss, i, p).value.path
    ensures ElementsFrom(elem, ss, i, q) == Rebase(ElementsFrom(elem, ss, i, p), p, q)
    decreases elem, 1, |ss| - i
  {
    if i < |ss| {
      Relocation(elem, ss[i], p + [Index(i)], q + [Index(i)]);
      RebaseStep(Check(elem, ss[i], p + [Index(i)]), p, q, Index(i));
      ElementsRelocation(elem, ss, i + 1, p, q);
    }
  }

  /** Whether a value passes does not depend on the path. */
  lemma PassIsPathIndependent(v: Validator, s: Value, p: Path, q: Path)
    ensures Check(v, s, p).None? <==> Check(v, s, q).None?
  {
    Relocation(v, s, p, q);
  }
}
