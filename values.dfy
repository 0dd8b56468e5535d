/** The runtime values a validator inspects, the validators themselves, and
    the error record they return. The two datatypes are mutually recursive:
    a function value met in a reference passed to `like` is used as a
    validator, and `is(ref)` holds a reference value. */
module Values {
  import opened Options
  import opened Text

  /** The JavaScript values the model covers: primitives, plain objects,
      arrays, dates, regular expressions and functions. A number is integral (Num) or not-a-number (NaN). An object's fields
      are listed in the order `Object.keys` reports them. A date is
      represented by its `toISOString()` text, a regular expression by its
      source text, a function by the validator it computes. */
  datatype Value =
    | Null
    | Undefined
    | Bool(b: bool)
    | Num(n: int)
    | NaN
    | Str(s: string)
    | Arr(elems: seq<Value>)
    | Obj(fields: seq<(string, Value)>)
    | Date(iso: string)
    | RegExp(source: string)
    | Func(validator: Validator)

  /** The nine kind-checking validators: `string`, `number`, `boolean`,
      `object`, `array`, `date`, `regexp`, `Null` and `Undefined`. */
  datatype Kind = KString | KNumber | KBoolean | KObject | KArray | KDate | KRegExp | KNull | KUndefined

  /** The validators the library can build. `Empty` is `empty` (also known as
      `nullOrUndefined`); `optional` and `oneOf` are sugar over `Or` and `Is`,
      defined beside the evaluator. */
  datatype Validator =
    | Prim(kind: Kind)
    | Empty
    | Any
    | Not(inner: Validator)
    | And(all: seq<Validator>)
    | Or(alternatives: seq<Validator>)
    | Is(ref: Value)
    | ObjectOf(schema: seq<(string, Validator)>)
    | ArrayOf(elem: Validator)

  /** A step of a path: an object key (a string) or an array index (a number). */
  datatype Key = Prop(name: string) | Index(index: nat)

  type Path = seq<Key>

  /** What `error(path, expected, received)` returns. Its `message` field is
      derived from these three (`Validate.Message`): the library never
      passes a message of its own. */
  datatype ValidationError = ValidationError(path: Path, expected: string, received: Value)

  /** The answers `type(val)` gives on the modelled values. */
  datatype TypeTag = TNaN | TNull | TUndefined | TBoolean | TNumber | TString | TArray | TObject | TDate | TRegExp | TFunction

  /** The library's `type(val)`: the tag of `Object.prototype.toString`,
      except that not-a-number answers "NaN". The text itself is
      `TypeText(Type(v))`; comparing texts is comparing tags (`TypeTextInjective`). */
  function Type(v: Value): TypeTag {
    match v
    case NaN => TNaN
    case Null => TNull
    case Undefined => TUndefined
    case Bool(_) => TBoolean
    case Num(_) => TNumber
    case Str(_) => TString
    case Arr(_) => TArray
    case Obj(_) => TObject
    case Date(_) => TDate
    case RegExp(_) => TRegExp
    case Func(_) => TFunction
  }

  /** The lower-cased text of a type tag. */
  function TypeText(t: TypeTag): string {
    match t
    case TNaN => "NaN"
    case TNull => "null"
    case TUndefined => "undefined"
    case TBoolean => "boolean"
    case TNumber => "number"
    case TString => "string"
    case TArray => "array"
    case TObject => "object"
    case TDate => "date"
    case TRegExp => "regexp"
    case TFunction => "function"
  }

  /** Distinct tags have distinct texts, so `type(s) === 'object'` and the
      like hold exactly when the tags are equal. */
  lemma TypeTextInjective(t: TypeTag, u: TypeTag)
    ensures TypeText(t) == TypeText(u) <==> t == u
  {
    if t != u {
      var a, b := TypeText(t), TypeText(u);
      assert a[0] != b[0] || a[|a| - 1] != b[|b| - 1] || |a| != |b|;
    }
  }

  /** The type a kind-checking validator compares `type(s)` with. */
  function KindType(k: Kind): TypeTag {
    match k
    case KString => TString
    case KNumber => TNumber
    case KBoolean => TBoolean
    case KObject => TObject
    case KArray => TArray
    case KDate => TDate
    case KRegExp => TRegExp
    case KNull => TNull
    case KUndefined => TUndefined
  }

  /** The `expected` text of a kind-checking validator's error: the text it
      compares `type(s)` with. */
  function Tag(k: Kind): string {
    TypeText(KindType(k))
  }

  /** `v.name` of a validator function, which `not` puts in its error: the
      variable a library validator is bound to, or "" for the anonymous
      closures the combinators return. */
  function Name(v: Validator): string {
    match v
    case Prim(k) =>
      if k == KNull then "Null" else if k == KUndefined then "Undefined" else Tag(k)
    case Empty => "nullOrUndefined"
    case Any => "any"
    case _ => ""
  }

  /** `typeof v === 'object'`. */
  predicate TypeofObject(v: Value) {
    v.Null? || v.Arr? || v.Obj? || v.Date? || v.RegExp?
  }

  /** A measure on values: every property read from an object is smaller
      than the object, and undefined is the smallest value. */
  function Size(v: Value): nat {
    match v
    case Undefined => 0
    case Arr(es) => 2 + SizeElems(es)
    case Obj(fs) => 2 + SizeFields(fs)
    case _ => 1
  }

  function SizeElems(es: seq<Value>): nat {
    if |es| == 0 then 0 else Size(es[0]) + SizeElems(es[1..])
  }

  function SizeFields(fs: seq<(string, Value)>): nat {
    if |fs| == 0 then 0
    else
      assert fs[0] in fs && fs[0].1 < fs[0];
      Size(fs[0].1) + SizeFields(fs[1..])
  }

  lemma {:induction false} SizeElement(es: seq<Value>, i: nat)
    requires i < |es|
    ensures Size(es[i]) <= SizeElems(es)
  {
    if i > 0 {
      SizeElement(es[1..], i - 1);
    }
  }

  /** `fs[k]` of an object's own fields: the first field so named, or
      undefined when there is none. */
  function Lookup(fs: seq<(string, Value)>, k: string): (r: Value)
    ensures Size(r) <= SizeFields(fs)
    ensures r != Undefined ==> exists i :: 0 <= i < |fs| && fs[i] == (k, r)
  {
    if |fs| == 0 then Undefined
    else if fs[0].0 == k then fs[0].1
    else Lookup(fs[1..], k)
  }

  /** `Object.keys(v)`: field names in order, the indices of an array as
      decimal strings, and nothing for a date or a regular expression. */
  function Keys(v: Value): seq<string> {
    match v
    case Obj(fs) => seq(|fs|, i requires 0 <= i < |fs| => fs[i].0)
    case Arr(es) => seq(|es|, i requires 0 <= i < |es| => NatToString(i))
    case _ => []
  }

  /** `v[k]`, reading own properties only: the fields of an object, the
      elements and `length` of an array; anything else is undefined. */
  function Get(v: Value, k: string): (r: Value)
    ensures TypeofObject(v) && !v.Null? ==> Size(r) < Size(v)
  {
    match v
    case Obj(fs) => Lookup(fs, k)
    case Arr(es) =>
      if k == "length" then Num(|es|)
      else (match ParseIndex(k)
        case Some(i) =>
          if i < |es| then SizeElement(es, i); es[i] else Undefined
        case None => Undefined)
    case _ => Undefined
  }
}
