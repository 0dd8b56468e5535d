/** The structural combinators: `objectOf` checks the object kind and then
    each schema key in declaration order, `arrayOf` checks the array kind
    and then each element in index order; both append the key or index to
    the path as they descend and return the first error met. */
module Structure {
  import opened Options
  import opened Values
  import opened Validate
  import opened Firsts

  /** What the validator of schema entry `j` answers for the subject `s`:
      it sees `s[key]` at `path.concat(key)`. */
  function FieldCheck(schema: seq<(string, Validator)>, j: nat, s: Value, p: Path): Option<ValidationError>
    requires j < |schema|
  {
    Check(schema[j].1, Get(s, schema[j].0), p + [Prop(schema[j].0)])
  }

  /** The results of the per-key checks, in schema order. */
  function FieldResults(schema: seq<(string, Validator)>, s: Value, p: Path): (rs: seq<Option<ValidationError>>)
    ensures |rs| == |schema|
    ensures forall j :: 0 <= j < |schema| ==> rs[j] == FieldCheck(schema, j, s, p)
  {
    seq(|schema|, j requires 0 <= j < |schema| => FieldCheck(schema, j, s, p))
  }

  lemma {:induction false} FieldsFromFirst(schema: seq<(string, Validator)>, i: nat, s: Value, p: Path)
    requires i <= |schema|
    ensures FieldsFrom(schema, i, s, p) == FirstError(FieldResults(schema, s, p), i)
    decreases |schema| - i
  {
    if i < |schema| {
      var rs := FieldResults(schema, s, p);
      assert rs[i] == FieldCheck(schema, i, s, p);
      FieldsFromFirst(schema, i + 1, s, p);
    }
  }

  /** The per-key checks from key `i` on pass exactly when every later key's
      validator passes, and otherwise return the first failing key's error. */
  lemma FieldsFromSpec(schema: seq<(string, Validator)>, i: nat, s: Value, p: Path)
    requires i <= |schema|
    ensures FieldsFrom(schema, i, s, p).None? <==> forall j :: i <= j < |schema| ==> FieldCheck(schema, j, s, p).None?
    ensures FieldsFrom(schema, i, s, p).Some? ==>
      exists j :: i <= j < |schema| && FieldsFrom(schema, i, s, p) == FieldCheck(schema, j, s, p)
        && forall m :: i <= m < j ==> FieldCheck(schema, m, s, p).None?
  {
    FieldsFromFirst(schema, i, s, p);
    FirstErrorSpec(FieldResults(schema, s, p), i);
  }

  /** `objectOf(schema)` on a non-object returns exactly the `object` error
      at the call's path. On an object it passes exactly when every schema
      key's validator passes on that key's value, and otherwise returns the
      error of the first failing key in declaration order. */
  lemma ObjectOfSpec(schema: seq<(string, Validator)>, s: Value, p: Path)
    ensures !s.Obj? ==> Check(ObjectOf(schema), s, p) == Some(ValidationError(p, "object", s))
    ensures s.Obj? ==>
      (Check(ObjectOf(schema), s, p).None? <==> forall j :: 0 <= j < |schema| ==> FieldCheck(schema, j, s, p).None?)
    ensures s.Obj? && Check(ObjectOf(schema), s, p).Some? ==>
      exists j :: 0 <= j < |schema| && Check(ObjectOf(schema), s, p) == FieldCheck(schema, j, s, p)
        && forall m :: 0 <= m < j ==> FieldCheck(schema, m, s, p).None?
  {
    FieldsFromSpec(schema, 0, s, p);
  }

  /** A schema key absent from the object is checked as undefined. */
  lemma MissingKeyIsUndefined(fs: seq<(string, Value)>, k: string)
    requires forall i :: 0 <= i < |fs| ==> fs[i].0 != k
    ensures Get(Obj(fs), k) == Undefined
  {
  }

  lemma {:induction false} FieldsFromSameKeys(schema: seq<(string, Validator)>, i: nat, s: Value, t: Value, p: Path)
    requires i <= |schema|
    requires forall j :: 0 <= j < |schema| ==> Get(s, schema[j].0) == Get(t, schema[j].0)
    ensures FieldsFrom(schema, i, s, p) == FieldsFrom(schema, i, t, p)
    decreases |schema| - i
  {
    if i < |schema| {
      FieldsFromSameKeys(schema, i + 1, s, t, p);
    }
  }

  /** Only the schema's keys are read: two objects that agree on them get
      the same answer, whatever other keys they hold. */
  lemma ObjectOfReadsOnlySchemaKeys(schema: seq<(string, Validator)>, s: Value, t: Value, p: Path)
    requires s.Obj? && t.Obj?
    requires forall j :: 0 <= j < |schema| ==> Get(s, schema[j].0) == Get(t, schema[j].0)
    ensures Check(ObjectOf(schema), s, p) == Check(ObjectOf(schema), t, p)
  {
    FieldsFromSameKeys(schema, 0, s, t, p);
  }

  lemma {:induction false} LookupAppend(fs: seq<(string, Value)>, k: string, x: Value, key: string)
    requires key != k
    ensures Lookup(fs + [(k, x)], key) == Lookup(fs, key)
  {
    if |fs| > 0 {
      assert (fs + [(k, x)])[1..] == fs[1..] + [(k, x)];
      LookupAppend(fs[1..], k, x, key);
    }
  }

  /** Adding a key that is not in the schema never changes the answer. */
  lemma ObjectOfIgnoresExtraKey(schema: seq<(string, Validator)>, fs: seq<(string, Value)>, k: string, x: Value, p: Path)
    requires forall j :: 0 <= j < |schema| ==> schema[j].0 != k
    ensures Check(ObjectOf(schema), Obj(fs + [(k, x)]), p) == Check(ObjectOf(schema), Obj(fs), p)
  {
    forall j | 0 <= j < |schema| ensures Get(Obj(fs + [(k, x)]), schema[j].0) == Get(Obj(fs), schema[j].0) {
      LookupAppend(fs, k, x, schema[j].0);
    }
    ObjectOfReadsOnlySchemaKeys(schema, Obj(fs + [(k, x)]), Obj(fs), p);
  }

  /** The results of the element checks, in index order. */
  function ElementResults(elem: Validator, ss: seq<Value>, p: Path): (rs: seq<Option<ValidationError>>)
    ensures |rs| == |ss|
    ensures forall j :: 0 <= j < |ss| ==> rs[j] == Check(elem, ss[j], p + [Index(j)])
  {
    seq(|ss|, j requires 0 <= j < |ss| => Check(elem, ss[j], p + [Index(j)]))
  }

  lemma {:induction false} ElementsFromFirst(elem: Validator, ss: seq<Value>, i: nat, p: Path)
    requires i <= |ss|
    ensures ElementsFrom(elem, ss, i, p) == FirstError(ElementResults(elem, ss, p), i)
    decreases |ss| - i
  {
    if i < |ss| {
      var rs := ElementResults(elem, ss, p);
      assert rs[i] == Check(elem, ss[i], p + [Index(i)]);
      ElementsFromFirst(elem, ss, i + 1, p);
    }
  }

  /** The element loop from index `i` on passes exactly when every later
      element passes at `path.concat(index)`, and otherwise returns the
      error of the lowest failing index. */
  lemma ElementsFromSpec(elem: Validator, ss: seq<Value>, i: nat, p: Path)
    requires i <= |ss|
    ensures ElementsFrom(elem, ss, i, p).None? <==> forall j :: i <= j < |ss| ==> Check(elem, ss[j], p + [Index(j)]).None?
    ensures ElementsFrom(elem, ss, i, p).Some? ==>
      exists j :: i <= j < |ss| && ElementsFrom(elem, ss, i, p) == Check(elem, ss[j], p + [Index(j)])
        && forall m :: i <= m < j ==> Check(elem, ss[m], p + [Index(m)]).None?
  {
    ElementsFromFirst(elem, ss, i, p);
    FirstErrorSpec(ElementResults(elem, ss, p), i);
  }

  /** `arrayOf(v)` on a non-array returns the plain `array` error at the
      call's path, never an error of `v`. On an array it passes exactly when
      every element passes `v` at `path.concat(index)`, and otherwise returns
      the error of the lowest failing index. */
  lemma ArrayOfSpec(elem: Validator, s: Value, p: Path)
    ensures !s.Arr? ==> Check(ArrayOf(elem), s, p) == Some(ValidationError(p, "array", s))
    ensures s.Arr? ==>
      (Check(ArrayOf(elem), s, p).None? <==> forall i :: 0 <= i < |s.elems| ==> Check(elem, s.elems[i], p + [Index(i)]).None?)
    ensures s.Arr? && Check(ArrayOf(elem), s, p).Some? ==>
      exists i :: 0 <= i < |s.elems| && Check(ArrayOf(elem), s, p) == Check(elem, s.elems[i], p + [Index(i)])
        && forall m :: 0 <= m < i ==> Check(elem, s.elems[m], p + [Index(m)]).None?
  {
    if s.Arr? {
      ElementsFromSpec(elem, s.elems, 0, p);
    }
  }
}
