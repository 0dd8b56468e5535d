/** The validator contract: `Check(v, s, path)` is what calling the
    validator `v` on the subject `s` at `path` returns: `None` when `s`
    passes, otherwise the one error of the first failure met. A validator
    called without a path sees the empty path. */
module Validate {
  import opened Options
  import opened Text
  import opened Values
  import opened Json
  import opened Equality

  function KeyText(k: Key): string {
    match k
    case Prop(name) => name
    case Index(i) => NatToString(i)
  }

  /** `path.join('.')`. */
  function PathText(path: Path): string {
    Join(seq(|path|, i requires 0 <= i < |path| => KeyText(path[i])), ".")
  }

  /** The `message` field that `error` synthesises from the other three. */
  function Message(e: ValidationError): string {
    "Path:'" + PathText(e.path) + "', Expected: " + e.expected + ", Received: '" + JsonText(e.received) + "'"
  }

  /** The `expected` texts of collected errors, in order. */
  function ExpectedTexts(errs: seq<ValidationError>): seq<string> {
    seq(|errs|, i requires 0 <= i < |errs| => errs[i].expected)
  }

  /** The `expected` text of an `or` whose operands all failed. */
  function OrText(texts: seq<string>): string {
    "or(" + Join(texts, ", ") + ")"
  }

  function Check(v: Validator, s: Value, path: Path): Option<ValidationError>
    decreases v, 0
  {
    match v
    case Prim(k) =>
      if Type(s) == KindType(k) then None else Some(ValidationError(path, Tag(k), s))
    case Empty =>
      if s.Null? || s.Undefined? then None else Some(ValidationError(path, "null or undefined", s))
    case Any => None
    case Not(inner) =>
      if Check(inner, s, []).Some? then None else Some(ValidationError(path, "not(" + Name(inner) + ")", s))
    case And(vs) => AndFrom(vs, 0, s, path)
    case Or(vs) => OrFrom(vs, 0, s, path, [])
    case Is(ref) =>
      if DeepEqual(s, ref) then None else Some(ValidationError(path, "is(" + JsonText(ref) + ")", s))
    case ObjectOf(schema) =>
      // and(object, ...one check per schema key)
      if Type(s) != TObject then Some(ValidationError(path, Tag(KObject), s))
      else FieldsFrom(schema, 0, s, path)
    case ArrayOf(elem) =>
      if Type(s) != TArray then Some(ValidationError(path, Tag(KArray), s))
      else ElementsFrom(elem, s.elems, 0, path)
  }

  /** The loop of `and` from operand `i` on: the first error returned. */
  function AndFrom(vs: seq<Validator>, i: nat, s: Value, path: Path): Option<ValidationError>
    requires i <= |vs|
    decreases vs, |vs| - i
  {
    if i == |vs| then None
    else match Check(vs[i], s, path)
      case Some(e) => Some(e)
      case None => AndFrom(vs, i + 1, s, path)
  }

  /** The loop of `or` from operand `i` on, `errs` holding the errors of
      the operands before `i`: the first success ends it; after the last
      operand the collected errors make one error about the subject. */
  function OrFrom(vs: seq<Validator>, i: nat, s: Value, path: Path, errs: seq<ValidationError>): Option<ValidationError>
    requires i <= |vs|
    decreases vs, |vs| - i
  {
    if i == |vs| then Some(ValidationError(path, OrText(ExpectedTexts(errs)), s))
    else match Check(vs[i], s, path)
      case None => None
      case Some(e) => OrFrom(vs, i + 1, s, path, errs + [e])
  }

  /** The per-key checks of `objectOf` from key `i` on: the validator of
      each key sees `s[key]` at `path.concat(key)`. */
  function FieldsFrom(schema: seq<(string, Validator)>, i: nat, s: Value, path: Path): Option<ValidationError>
    requires i <= |schema|
    decreases schema, |schema| - i
  {
    if i == |schema| then None
    else
      assert schema[i] in schema && schema[i].1 < schema[i];
      match Check(schema[i].1, Get(s, schema[i].0), path + [Prop(schema[i].0)])
      case Some(e) => Some(e)
      case None => FieldsFrom(schema, i + 1, s, path)
  }

  /** The loop of `arrayOf` from index `i` on: element `i` is checked at
      `path.concat(i)`. */
  function ElementsFrom(elem: Validator, ss: seq<Value>, i: nat, path: Path): Option<ValidationError>
    requires i <= |ss|
    decreases elem, 1, |ss| - i
  {
    if i == |ss| then None
    else match Check(elem, ss[i], path + [Index(i)])
      case Some(e) => Some(e)
      case None => ElementsFrom(elem, ss, i + 1, path)
  }

  /** `optional(v)`: `or(nullOrUndefined, v)`. */
  function Optional(v: Validator): Validator {
    Or([Empty, v])
  }

  /** `oneOf(ref1, ..., refn)`: `or(is(ref1), ..., is(refn))`. */
  function OneOf(refs: seq<Value>): Validator {
    Or(seq(|refs|, i requires 0 <= i < |refs| => Is(refs[i])))
  }

  /** `like(ref)` (`toObjSchema`): the validator inferred from the shape of
      an example value, chosen by `type(ref)`. */
  function Like(ref: Value): Validator {
    match ref
    case Func(v) => v
    case Num(_) => Prim(KNumber)
    case Str(_) => Prim(KString)
    case Bool(_) => Prim(KBoolean)
    case Date(_) => Prim(KDate)
    case RegExp(_) => Prim(KRegExp)
    case Null => Empty
    case Undefined => Empty
    case Obj(fs) => ObjectOf(LikeSchema(fs))
    case Arr(es) =>
      if |es| == 0 || es[0].Null? || es[0].Undefined? then Prim(KArray) else ArrayOf(Like(es[0]))
    case NaN => Is(ref)
  }

  /** The schema `like` builds for an object: each field's key bound to
      `like` of its value, in the object's key order. */
  function LikeSchema(fs: seq<(string, Value)>): (schema: seq<(string, Validator)>)
    ensures |schema| == |fs|
    ensures forall i :: 0 <= i < |fs| ==> schema[i].0 == fs[i].0
  {
    if |fs| == 0 then []
    else
      assert fs[0] in fs && fs[0].1 < fs[0];
      [(fs[0].0, Like(fs[0].1))] + LikeSchema(fs[1..])
  }

  /** Entry `i` of the schema binds the object's key `i` to `like` of its
      value. */
  lemma {:induction false} LikeSchemaAt(fs: seq<(string, Value)>, i: nat)
    requires i < |fs|
    ensures LikeSchema(fs)[i] == (fs[i].0, Like(fs[i].1))
  {
    if i > 0 {
      LikeSchemaAt(fs[1..], i - 1);
    }
  }
}
