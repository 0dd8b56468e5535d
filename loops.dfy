/** The loops inside the closures `and`, `or`, `objectOf` and `arrayOf`
    return, written as the step-by-step iterations they are. Each operand
    is evaluated with `Check`; each method is proved to return what the
    evaluator's account of that combinator returns, and to keep the
    promise of the combinator proved in `Combinators` and `Structure`. */
module Loops {
  import opened Options
  import opened Values
  import opened Validate
  import opened Combinators
  import opened Structure

  /** The loop of `and`: the first operand error is returned at once. */
  method RunAnd(vs: seq<Validator>, s: Value, path: Path) returns (r: Option<ValidationError>)
    ensures r == Check(And(vs), s, path)
    ensures r.None? <==> forall j :: 0 <= j < |vs| ==> Check(vs[j], s, path).None?
  {
    var i := 0;
    while i < |vs|
      invariant 0 <= i <= |vs|
      invariant Check(And(vs), s, path) == AndFrom(vs, i, s, path)
    {
      var err := Check(vs[i], s, path);
      if err.Some? {
        AndSpec(vs, s, path);
        return err;
      }
      i := i + 1;
    }
    AndSpec(vs, s, path);
    return None;
  }

  /** The loop of `or`: the first operand success returns no error; every
      failure is pushed on `errs`, and after the last operand one error
      joins the collected expected texts. */
  method RunOr(vs: seq<Validator>, s: Value, path: Path) returns (r: Option<ValidationError>)
    ensures r == Check(Or(vs), s, path)
    ensures r.None? <==> exists j :: 0 <= j < |vs| && Check(vs[j], s, path).None?
  {
    var errs: seq<ValidationError> := [];
    var i := 0;
    while i < |vs|
      invariant 0 <= i <= |vs|
      invariant |errs| == i
      invariant forall j :: 0 <= j < i ==> Some(errs[j]) == Check(vs[j], s, path)
      invariant Check(Or(vs), s, path) == OrFrom(vs, i, s, path, errs)
    {
      var err := Check(vs[i], s, path);
      if err.None? {
        OrSpec(vs, s, path);
        return None;
      }
      errs := errs + [err.value];
      i := i + 1;
    }
    OrSpec(vs, s, path);
    return Some(ValidationError(path, OrText(ExpectedTexts(errs)), s));
  }

  /** `objectOf(schema)` is `and(object, ...)` over one check per schema
      key: the kind first, then each key's validator on `s[key]` at
      `path.concat(key)`. */
  method RunObjectOf(schema: seq<(string, Validator)>, s: Value, path: Path) returns (r: Option<ValidationError>)
    ensures r == Check(ObjectOf(schema), s, path)
    ensures r.None? <==> s.Obj? && forall j :: 0 <= j < |schema| ==> FieldCheck(schema, j, s, path).None?
  {
    if Type(s) != TObject {
      ObjectOfSpec(schema, s, path);
      return Some(ValidationError(path, "object", s));
    }
    var i := 0;
    while i < |schema|
      invariant 0 <= i <= |schema|
      invariant Check(ObjectOf(schema), s, path) == FieldsFrom(schema, i, s, path)
    {
      var key := schema[i].0;
      var err := Check(schema[i].1, Get(s, key), path + [Prop(key)]);
      if err.Some? {
        ObjectOfSpec(schema, s, path);
        return err;
      }
      i := i + 1;
    }
    ObjectOfSpec(schema, s, path);
    return None;
  }

  /** The loop of `arrayOf(v)`: the `array` check first, then each element
      at `path.concat(i)` in index order. */
  method RunArrayOf(elem: Validator, ss: Value, path: Path) returns (r: Option<ValidationError>)
    ensures r == Check(ArrayOf(elem), ss, path)
    ensures r.None? <==> ss.Arr? && forall i :: 0 <= i < |ss.elems| ==> Check(elem, ss.elems[i], path + [Index(i)]).None?
  {
    var err := Check(Prim(KArray), ss, path);
    if err.Some? {
      ArrayOfSpec(elem, ss, path);
      return err;
    }
    var i := 0;
    while i < |ss.elems|
      invariant 0 <= i <= |ss.elems|
      invariant Check(ArrayOf(elem), ss, path) == ElementsFrom(elem, ss.elems, i, path)
    {
      err := Check(elem, ss.elems[i], path + [Index(i)]);
      if err.Some? {
        ArrayOfSpec(elem, ss, path);
        return err;
      }
      i := i + 1;
    }
    ArrayOfSpec(elem, ss, path);
    return None;
  }
}
