/** Cases from the repository's own tests and from its README example,
    stated as lemmas about the model. */
module Examples {
  import opened Options
  import opened Text
  import opened Values
  import opened Json
  import opened Equality
  import opened Validate
  import opened Combinators
  import opened Structure

  /** `or(string, number)` on `[]` fails with `or(string, number)`. */
  lemma OrStringNumberOnArray()
    ensures Check(Or([Prim(KString), Prim(KNumber)]), Arr([]), []) == Some(ValidationError([], "or(string, number)", Arr([])))
  {
    OrPair(Prim(KString), Prim(KNumber), Arr([]), []);
    OrStringNumberText();
  }

  lemma OrStringNumberText()
    ensures "or(" + "string" + ", " + "number" + ")" == "or(string, number)"
  {
    assert "or(" + "string" == "or(string";
    assert "or(string" + ", " == "or(string, ";
    assert "or(string, " + "number" == "or(string, number";
  }

  /** `not(array)` on `[]` fails with `not(array)`. */
  lemma NotArrayOnArray()
    ensures Check(Not(Prim(KArray)), Arr([]), []) == Some(ValidationError([], "not(array)", Arr([])))
  {
    NotCheck(Prim(KArray), Arr([]), []);
    assert "not(" + "array" + ")" == "not(array)";
  }

  /** `optional(string)` passes on null, fails on 3 with
      `or(null or undefined, string)`. */
  lemma OptionalStringCases()
    ensures Check(Optional(Prim(KString)), Null, []).None?
    ensures Check(Optional(Prim(KString)), Num(3), []) == Some(ValidationError([], "or(null or undefined, string)", Num(3)))
  {
    OptionalSpec(Prim(KString), Null, []);
    OptionalStringFails(Num(3), []);
  }

  /** `arrayOf(string)` on `['33', 44]` blames index 1. */
  lemma ArrayOfStringBlamesIndex()
    ensures Check(ArrayOf(Prim(KString)), Arr([Str("33"), Num(44)]), []) == Some(ValidationError([Index(1)], "string", Num(44)))
  {
    var ss := [Str("33"), Num(44)];
    var p: Path := [];
    assert p + [Index(1)] == [Index(1)];
    PrimitiveCheck(KString, Num(44), [Index(1)]);
    assert ElementsFrom(Prim(KString), ss, 1, p) == Some(ValidationError([Index(1)], "string", Num(44)));
    assert ElementsFrom(Prim(KString), ss, 0, p) == ElementsFrom(Prim(KString), ss, 1, p);
  }

  /** The inner schema of the README example: `a` is a string or a number,
      `b` an object whose `c` is an optional string. */
  function ReadmeRecord(): Validator {
    ObjectOf([("a", Or([Prim(KString), Prim(KNumber)])),
              ("b", ObjectOf([("c", Optional(Prim(KString)))]))])
  }

  function Record(c: Value): Value {
    Obj([("a", Num(5)), ("b", Obj([("c", c)]))])
  }

  /** The inner `objectOf({c: optional(string)})` answers what its one
      field's validator answers at `path.concat('c')`. */
  lemma InnerRecord(c: Value, p: Path)
    ensures Check(ObjectOf([("c", Optional(Prim(KString)))]), Obj([("c", c)]), p) ==
      Check(Optional(Prim(KString)), c, p + [Prop("c")])
  {
    var schema := [("c", Optional(Prim(KString)))];
    var s := Obj([("c", c)]);
    assert Get(s, "c") == c;
    assert FieldsFrom(schema, 1, s, p) == None;
  }

  /** Since `a` is a number, the README record answers what its `b` field
      answers. */
  lemma OuterRecord(c: Value, p: Path)
    ensures Check(ReadmeRecord(), Record(c), p) ==
      Check(ObjectOf([("c", Optional(Prim(KString)))]), Obj([("c", c)]), p + [Prop("b")])
  {
    var schema := [("a", Or([Prim(KString), Prim(KNumber)])),
                   ("b", ObjectOf([("c", Optional(Prim(KString)))]))];
    var s := Record(c);
    assert Get(s, "a") == Num(5);
    assert "a"[0] != "b"[0];
    assert s.fields[1..] == [("b", Obj([("c", c)]))];
    assert Lookup(s.fields[1..], "b") == Obj([("c", c)]);
    assert Get(s, "b") == Obj([("c", c)]);
    OrPair(Prim(KString), Prim(KNumber), Num(5), p + [Prop("a")]);
    assert FieldsFrom(schema, 2, s, p) == None;
  }

  /** The README record's answer is `optional(string)`'s answer on its
      `b.c` value, at `path.concat('b', 'c')`. */
  lemma RecordVerdict(c: Value, p: Path)
    ensures Check(ReadmeRecord(), Record(c), p) == Check(Optional(Prim(KString)), c, p + [Prop("b"), Prop("c")])
  {
    OuterRecord(c, p);
    InnerRecord(c, p + [Prop("b")]);
    assert p + [Prop("b")] + [Prop("c")] == p + [Prop("b"), Prop("c")];
  }

  /** `optional(string)` on a value that is neither a string nor null nor
      undefined. */
  lemma OptionalStringFails(x: Value, q: Path)
    requires !x.Str? && !x.Null? && !x.Undefined?
    ensures Check(Optional(Prim(KString)), x, q) == Some(ValidationError(q, "or(null or undefined, string)", x))
  {
    OptionalSpec(Prim(KString), x, q);
    OptionalStringText();
  }

  lemma OptionalStringText()
    ensures "or(null or undefined, " + "string" + ")" == "or(null or undefined, string)"
  {
  }

  lemma ReadmeRecordGood()
    ensures Check(ReadmeRecord(), Record(Str("I am also a string")), [Index(0)]).None?
  {
    var c := Str("I am also a string");
    RecordVerdict(c, [Index(0)]);
    OptionalSpec(Prim(KString), c, [Index(0)] + [Prop("b"), Prop("c")]);
  }

  lemma ReadmeRecordBad()
    ensures Check(ReadmeRecord(), Record(Num(42)), [Index(1)]) ==
      Some(ValidationError([Index(1), Prop("b"), Prop("c")], "or(null or undefined, string)", Num(42)))
  {
    RecordVerdict(Num(42), [Index(1)]);
    OptionalStringFails(Num(42), [Index(1)] + [Prop("b"), Prop("c")]);
    assert [Index(1)] + [Prop("b"), Prop("c")] == [Index(1), Prop("b"), Prop("c")];
  }

  /** `arrayOf(objectOf({...}))` on `[good, bad]` blames the key path
      `[1, 'b', 'c']`. */
  lemma ReadmeExample()
    ensures Check(ArrayOf(ReadmeRecord()), Arr([Record(Str("I am also a string")), Record(Num(42))]), []) ==
      Some(ValidationError([Index(1), Prop("b"), Prop("c")], "or(null or undefined, string)", Num(42)))
  {
    var p: Path := [];
    assert p + [Index(0)] == [Index(0)] && p + [Index(1)] == [Index(1)];
    ReadmeRecordGood();
    ReadmeRecordBad();
    ArrayOfPair(ReadmeRecord(), Record(Str("I am also a string")), Record(Num(42)), p);
  }

  /** `arrayOf(v)` on a two-element array. */
  lemma ArrayOfPair(elem: Validator, a: Value, b: Value, p: Path)
    ensures Check(ArrayOf(elem), Arr([a, b]), p) ==
      if Check(elem, a, p + [Index(0)]).Some? then Check(elem, a, p + [Index(0)]) else Check(elem, b, p + [Index(1)])
  {
    var ss := [a, b];
    assert ElementsFrom(elem, ss, 2, p) == None;
    assert ElementsFrom(elem, ss, 1, p) == Check(elem, b, p + [Index(1)]);
  }

  /** The message of that error: the path joins to `1.b.c` and the
      received value's JSON text is `42`. */
  lemma ReadmeMessage()
    ensures Message(ValidationError([Index(1), Prop("b"), Prop("c")], "or(null or undefined, string)", Num(42))) ==
      "Path:'" + "1.b.c" + "', Expected: " + "or(null or undefined, string)" + ", Received: '" + "42" + "'"
  {
    ReadmePathText();
    FortyTwoText();
  }

  lemma ReadmePathText()
    ensures PathText([Index(1), Prop("b"), Prop("c")]) == "1.b.c"
  {
    var p := [Index(1), Prop("b"), Prop("c")];
    assert NatToString(1) == "1";
    var parts := seq(|p|, i requires 0 <= i < |p| => KeyText(p[i]));
    assert parts == ["1", "b", "c"];
    assert parts[1..][1..] == ["c"];
    assert Join(parts[1..], ".") == "b" + "." + "c";
    assert "1" + "." + ("b" + "." + "c") == "1.b.c";
  }

  lemma FortyTwoText()
    ensures JsonText(Num(42)) == "42"
  {
    assert NatToString(4) == "4";
    assert NatToString(42) == NatToString(4) + [Digit(2)];
    assert NatToString(42) == "42";
  }

  /** The `like` test whose subject lacks a key, in miniature: a key of the example that the
      subject lacks is checked as undefined, and the error blames that key
      with `received` undefined. */
  lemma LikeMissingKey(k: string, n: int, p: Path)
    ensures Check(Like(Obj([(k, Num(n))])), Obj([]), p) == Some(ValidationError(p + [Prop(k)], "number", Undefined))
  {
    var schema := LikeSchema([(k, Num(n))]);
    LikeSchemaAt([(k, Num(n))], 0);
    assert schema == [(k, Prim(KNumber))];
    assert Get(Obj([]), k) == Undefined;
    PrimitiveCheck(KNumber, Undefined, p + [Prop(k)]);
    assert FieldsFrom(schema, 0, Obj([]), p) == Check(Prim(KNumber), Undefined, p + [Prop(k)]);
  }

  /** The JSON text of a string with nothing to escape. */
  lemma PlainText(x: string)
    requires forall i :: 0 <= i < |x| ==> x[i] as int >= 0x20 && x[i] != '"' && x[i] != '\\'
    ensures JsonText(Str(x)) == "\"" + x + "\""
  {
    EscapeJsonPlain(x);
  }

  /** The `expected` text of `is(x)` for a string with nothing to escape. */
  lemma IsPlainText(x: string)
    requires forall i :: 0 <= i < |x| ==> x[i] as int >= 0x20 && x[i] != '"' && x[i] != '\\'
    ensures "is(" + JsonText(Str(x)) + ")" == "is(\"" + x + "\")"
  {
    PlainText(x);
    assert "is(" + ("\"" + x + "\"") + ")" == "is(\"" + x + "\")";
  }

  lemma IsTestText()
    ensures "is(" + JsonText(Str("test")) + ")" == "is(\"test\")"
  {
    IsPlainText("test");
  }

  /** `is('test')` passes on 'test' and fails on 'taste' with `is("test")`. */
  lemma IsStringCases()
    ensures Check(Is(Str("test")), Str("test"), []).None?
    ensures Check(Is(Str("test")), Str("taste"), []) == Some(ValidationError([], "is(\"test\")", Str("taste")))
  {
    IsSpec(Str("test"), Str("taste"), []);
    DeepEqualStr("taste", "test");
    assert "taste"[1] != "test"[1];
    IsTestText();
  }

  /** `{a: {b: {c: n}}}`. */
  function Nested(n: int): Value {
    Obj([("a", Obj([("b", Obj([("c", Num(n))]))]))])
  }

  /** `{a: {b: {c: 34}}}` and `{a: {b: {c: 33}}}` differ deep inside. */
  lemma NestedDiffer()
    ensures !DeepEqual(Nested(34), Nested(33))
  {
    DeepEqualNum(34, 33);
    DeepEqualSingleField("c", Num(34), Num(33));
    DeepEqualSingleField("b", Obj([("c", Num(34))]), Obj([("c", Num(33))]));
    DeepEqualSingleField("a", Obj([("b", Obj([("c", Num(34))]))]), Obj([("b", Obj([("c", Num(33))]))]));
  }

  /** `is({a: {b: {c: 33}}})` passes on an equal object and fails on
      `{a: {b: {c: 34}}}`, expecting the reference's JSON text and
      reporting the subject. */
  lemma IsNestedCases()
    ensures Check(Is(Nested(33)), Nested(33), []).None?
    ensures Check(Is(Nested(33)), Nested(34), []) == Some(ValidationError([], "is(" + JsonText(Nested(33)) + ")", Nested(34)))
  {
    IsSpec(Nested(33), Nested(34), []);
    NestedDiffer();
  }

  lemma AppleText()
    ensures "is(" + JsonText(Str("apple")) + ")" == "is(\"apple\")"
  {
    IsPlainText("apple");
  }

  lemma BeerText()
    ensures "is(" + JsonText(Str("beer")) + ")" == "is(\"beer\")"
  {
    IsPlainText("beer");
  }

  lemma AppleBeerTexts()
    ensures IsTexts([Str("apple"), Str("beer")]) == ["is(\"apple\")", "is(\"beer\")"]
  {
    AppleText();
    BeerText();
  }

  lemma AppleBeerLiteral()
    ensures "or(" + "is(\"apple\")" + ", " + "is(\"beer\")" + ")" == "or(is(\"apple\"), is(\"beer\"))"
  {
    var x := "or(" + "is(\"apple\")";
    assert x == "or(is(\"apple\")";
    var y := x + ", ";
    assert y == "or(is(\"apple\"), ";
    var z := y + "is(\"beer\")";
    assert z == "or(is(\"apple\"), is(\"beer\")";
  }

  lemma AppleBeerText()
    ensures "or(" + Join(IsTexts([Str("apple"), Str("beer")]), ", ") + ")" == "or(is(\"apple\"), is(\"beer\"))"
  {
    AppleBeerTexts();
    OrTextPair("is(\"apple\")", "is(\"beer\")");
    AppleBeerLiteral();
  }

  /** `oneOf('apple', 'beer')` passes on 'apple' and fails on 'cat' with
      `or(is("apple"), is("beer"))`. */
  lemma OneOfStringCases()
    ensures Check(OneOf([Str("apple"), Str("beer")]), Str("apple"), []).None?
    ensures Check(OneOf([Str("apple"), Str("beer")]), Str("cat"), []) ==
      Some(ValidationError([], "or(is(\"apple\"), is(\"beer\"))", Str("cat")))
  {
    var refs := [Str("apple"), Str("beer")];
    OneOfPasses(refs, Str("apple"), []);
    DeepEqualReflexive(Str("apple"));
    assert DeepEqual(Str("apple"), refs[0]);
    OneOfSpec(refs, Str("cat"), []);
    DeepEqualStr("cat", "apple");
    DeepEqualStr("cat", "beer");
    assert "cat"[0] != "apple"[0] && "cat"[0] != "beer"[0];
    AppleBeerText();
  }
}
