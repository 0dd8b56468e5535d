# f-validator, modelled in Dafny

f-validator is a small validator-combinator library. A validator is a
function `(value, path) -> error | null`: it returns `null` when the value is
acceptable and otherwise one error record `{path, expected, received,
message}`. The library provides:

- kind-checking primitives (`string`, `number`, `object`, `array`, ...) built
  on a `type` tag function;
- the logical combinators `not`, `any`, `and`, `or` and `optional`;
- deep equality (`deepEqual`), with `is` and `oneOf` built on it;
- the structural combinators `objectOf` and `arrayOf`, which extend the path
  as they descend;
- `like`, which infers a validator from an example value.

This project is a deep embedding of that library:

- `Values` holds the JavaScript values, the validators and the error record.
  `Value` is a datatype of JavaScript values. `Value.Func` stands for a
  function inside an example given to `like`.
- `Validator` is a datatype with one case per validator the library builds.
- `Validate.Check(v, s, path)` evaluates a validator the way the closures
  do. It follows the same branches and the same operand and key order, and
  builds the same `expected` texts. One branch departs from the code: `is`
  and `oneOf` use the corrected `deepEqual` (see "## Findings"), so
  `is({})(null)` and `oneOf({})(null)` return an error where the code
  throws. The `message` text is derived from the
  other three fields by `Validate.Message`, exactly as `error` builds it
  when no message is passed, which is always the case inside the library.
- `type` is modelled by `Values.Type`, which answers one of the eleven tags
  the modelled values can produce (`Values.TypeTag`); its text is
  `Values.TypeText`. The kind checks compare tags, which is the same as
  comparing the texts because distinct tags have distinct texts.
- `Json` models `JSON.stringify`, which the library uses for `is`'s
  `expected` text, for the message and for `deepEqual`'s second test.
- `Equality` models `deepEqual` and its `dedupe` helper.
- The `for` loops inside `and`, `or` and `arrayOf` are also written as
  methods with loops in `Loops`. `objectOf` has no loop of its own: it
  returns `and(object, ...keyChecks)`, and `Loops.RunObjectOf` runs that
  `and` loop over the `object` check and the key checks. Each method is
  proved to return what `Check` returns.
- The properties are lemmas in these modules:
  - `Paths`: how results depend on the path;
  - `Combinators`: the logical combinators and equality validators;
  - `Structure`: `objectOf` and `arrayOf`;
  - `Shapes`: `like`, against an independent definition of when a value
    has the shape of an example;
  - `Examples`: cases taken from the repository's tests and README.

A validator called without a path uses `[]`. Every library validator
defaults `path` that way, so the model always passes a path.

The library's `type` answers `'NaN'` for not-a-number, so `number(NaN)`
fails in this code, although NaN is a JavaScript number. The model follows
the code (`Combinators.NumberRejectsNaN`).

## Model

| member | source | states |
|---|---|---|
| Values.Type | lib/f-validator.js:20-26 | no contract: the definition of `type` on the modelled values, "NaN" for not-a-number and otherwise the lower-cased `Object.prototype.toString` tag |
| Values.Name | lib/f-validator.js:48 | no contract: the definition of the `v.name` that `not` reads |
| Values.Keys | lib/f-validator.js:37 | no contract: the definition of `Object.keys`: an object's keys in order, an array's decimal indices |
| Values.Get | lib/f-validator.js:125 | the definition of `s[key]`, undefined for a missing key; its contract states only that a field is smaller than its object (for termination) |
| Validate.PathText | lib/f-validator.js:15 | no contract: the definition of `path.join('.')` |
| Validate.Message | lib/f-validator.js:8-17 | no contract: the definition of the default `message` text `error` builds |
| Validate.Check | lib/f-validator.js:42-140 | no contract: the definition of every library validator's closure, `is` and `oneOf` using the corrected `deepEqual` |
| Validate.AndFrom | lib/f-validator.js:57-64 | no contract: the definition of `and`'s loop from operand i |
| Validate.OrFrom | lib/f-validator.js:72-85 | no contract: the definition of `or`'s loop from operand i, with the errors collected so far |
| Validate.FieldsFrom | lib/f-validator.js:122-126 | no contract: the definition of `objectOf`'s key checks from key i |
| Validate.ElementsFrom | lib/f-validator.js:135-138 | no contract: the definition of `arrayOf`'s element loop from index i |
| Validate.Optional | lib/f-validator.js:88 | no contract: the definition of `optional(v)` as `or(nullOrUndefined, v)` |
| Validate.OneOf | lib/f-validator.js:94-99 | no contract: the definition of `oneOf(r1..rn)` as `or(is(r1), ..., is(rn))` |
| Validate.Like | lib/f-validator.js:142-172 | no contract: the definition of the validator `like(ref)` builds |
| Equality.DedupeFrom | lib/f-validator.js:29 | no contract: the definition of `dedupe`'s filter from position i |
| Equality.Dedupe | lib/f-validator.js:29 | no contract: the definition of `dedupe` |
| Equality.DeepEqual | lib/f-validator.js:31-40 | no contract: the corrected definition of `deepEqual`, whose third test also requires both sides non-null |
| Equality.KeywiseEqual | lib/f-validator.js:34-38 | no contract: the definition of `deepEqual`'s third test |
| Equality.EveryKey | lib/f-validator.js:36-38 | no contract: the definition of the `.every` loop over the keys from position i |
| Equality.DeepEqualAsWritten | lib/f-validator.js:31-40 | no contract: `deepEqual` as written, None where it throws (the as-written half of the finding) |
| Equality.EveryKeyAsWritten | lib/f-validator.js:35-38 | no contract: the `.every` loop as written, None where a nested call throws |
| Values.TypeTextInjective | lib/f-validator.js:20-26 | two `type` answers have the same text exactly when they are the same tag, so testing `type(s) === 'object'` is testing the tag |
| Text.ParseNatToString | lib/f-validator.js:36-37 | the decimal key `Object.keys` lists for array index i reads back as index i and nothing else |
| Text.NatToString | lib/f-validator.js:15 | the decimal text of an index, as `path.join` and `JSON.stringify` write it, is non-empty, all digits, and has no leading zero unless it is "0" |
| Json.Stringify | lib/f-validator.js:15 | `JSON.stringify` produces no text exactly for undefined and for functions |
| Equality.StringifyNull | lib/f-validator.js:33 | the JSON text of a value is `null` exactly when the value is null or NaN |
| Equality.IndexOf | lib/f-validator.js:29 | `indexOf` is the first position holding the element, or -1 exactly when the element is absent |
| Equality.DedupeFromSpec | lib/f-validator.js:29 | the filter from position i keeps exactly the elements whose first occurrence is at or after i, with no repeats |
| Equality.DedupeSpec | lib/f-validator.js:29 | `dedupe` keeps exactly the elements of its input, each once |
| Equality.AllFromSpec | lib/f-validator.js:36-37 | `.every` over a list of verdicts holds exactly when every verdict from the start position on is true |
| Equality.EveryKeyVerdicts | lib/f-validator.js:36-37 | the `.every` loop over the keys answers what `.every` answers over the list of per-key `deepEqual` verdicts |
| Equality.EveryKeyAll | lib/f-validator.js:36-37 | `.every` over the key list holds exactly when every listed key maps to deeply equal values |
| Equality.DeepEqualKeywise | lib/f-validator.js:31-40 | for two non-null objects or arrays, `deepEqual` holds exactly when they are strictly equal, have the same JSON text, or agree deeply on every key of either side |
| Equality.KeywiseEqualSpec | lib/f-validator.js:34-38 | the third test holds for two non-null objects exactly when every key of either side maps to deeply equal values |
| Equality.EveryKeyOfEither | lib/f-validator.js:36-37 | `.every` over the de-duplicated concatenated key lists holds exactly when every key of either side maps to deeply equal values |
| Equality.DeepEqualReflexive | lib/f-validator.js:31-40 | every value is deeply equal to itself |
| Equality.StrictEqualsSymmetric | lib/f-validator.js:32 | `===` is symmetric on the modelled values |
| Equality.DeepEqualSymmetric | lib/f-validator.js:31-40 | `deepEqual(a, b)` and `deepEqual(b, a)` always agree |
| Equality.EveryKeyAgrees | lib/f-validator.js:36-37 | where the key-wise test as written returns at all, it returns the corrected key-wise answer |
| Equality.DeepEqualAgrees | lib/f-validator.js:31-40 | where `deepEqual` as written returns at all, it returns the corrected answer |
| Equality.DeepEqualAsWrittenThrowsOnNull | lib/f-validator.js:35-37 | as written, `deepEqual(null, {})` reaches `Object.keys(null)` and throws |
| Equality.DeepEqualNull | lib/f-validator.js:31-40 | corrected: null is deeply equal exactly to null and to NaN (whose JSON text is also `null`) |
| Equality.LookupField | lib/f-validator.js:36 | in an object with distinct keys, reading a field's key gives that field's value |
| Equality.LookupSame | lib/f-validator.js:36 | two objects with the same distinct-keyed fields in any order answer every key read alike |
| Equality.DeepEqualIgnoresFieldOrder | lib/f-validator.js:31-40 | objects with the same fields in a different order are deeply equal |
| Equality.ArrayKey | lib/f-validator.js:36 | reading an array at the decimal key of index i gives element i |
| Equality.DeepEqualElementwise | lib/f-validator.js:31-40 | arrays of the same length with pairwise deeply equal elements are deeply equal |
| Text.IntToStringInjective | lib/f-validator.js:33 | two integers have the same decimal JSON text exactly when they are equal |
| Text.UnescapeEscapeJson | lib/f-validator.js:33 | JSON string escaping loses nothing: unescaping the escaped text gives back the string |
| Text.QuoteJsonInjective | lib/f-validator.js:33 | two strings have the same quoted JSON text exactly when they are equal |
| Text.EscapeJsonPlain | lib/f-validator.js:33 | a string with no control character, quote or backslash is written as it is |
| Equality.DeepEqualNum | lib/f-validator.js:31-40 | two numbers are deeply equal exactly when they are equal |
| Equality.DeepEqualStr | lib/f-validator.js:31-40 | two strings are deeply equal exactly when they are equal |
| Equality.DeepEqualBool | lib/f-validator.js:31-40 | two booleans are deeply equal exactly when they are equal |
| Equality.StringifySingleField | lib/f-validator.js:33 | the JSON text of a one-field object is its quoted key, a colon and the field's text in braces, or `{}` when the field has no text |
| Equality.BracedInjective | lib/f-validator.js:33 | one-field object texts with the same key prefix are equal exactly when the field texts are |
| Equality.DeepEqualSingleField | lib/f-validator.js:31-40 | two one-field objects with the same key are deeply equal exactly when their field values are |
| Validate.LikeSchema | lib/f-validator.js:160-166 | the schema `like` builds for an object has one entry per key, in the object's key order |
| Validate.LikeSchemaAt | lib/f-validator.js:162-163 | schema entry i binds key i to `like` of that key's value |
| Paths.Relocation | lib/f-validator.js:42-140 | a validator's error path always starts with the path it was called with; calling at another path changes only that prefix |
| Paths.PassIsPathIndependent | lib/f-validator.js:48 | whether a validator passes never depends on the path, so `not`'s path-less call decides the same |
| Combinators.PrimitiveCheck | lib/f-validator.js:106-114 | a kind validator passes exactly on values of its kind, else fails at the call's path with its tag as `expected` and the subject as `received` |
| Combinators.ObjectAndArrayDisjoint | lib/f-validator.js:109-110 | `object` rejects arrays and null; `array` rejects objects |
| Combinators.NumberRejectsNaN | lib/f-validator.js:107 | `number` passes every integer and fails on NaN with `expected` "number" |
| Combinators.EmptyCheck | lib/f-validator.js:42 | `nullOrUndefined` passes exactly on null and undefined, else fails with "null or undefined" |
| Combinators.NotCheck | lib/f-validator.js:48 | `not(v)` passes exactly when `v` fails, and fails with "not(" + v's name + ")" |
| Combinators.AnyPasses | lib/f-validator.js:50-51 | `any` passes every value |
| Firsts.FirstErrorSpec | lib/f-validator.js:57-64 | among a sequence of check results, there is no first error exactly when every result from i on passes; otherwise the first error is the result at the lowest failing position |
| Combinators.AndFromFirst | lib/f-validator.js:57-64 | the loop from operand i returns the first error among the operands' answers |
| Combinators.AndSpec | lib/f-validator.js:53-66 | `and(v1..vn)` passes exactly when every operand passes, and otherwise returns the error of the lowest-index failing operand, called at the same path |
| Combinators.AndPair | lib/f-validator.js:53-66 | `and(a, b)` is a's error if a fails, else b's answer |
| Combinators.AndFromConcat | lib/f-validator.js:57-64 | the loop over `xs + ys` finishes the loop over xs and then runs the loop over ys |
| Combinators.AndFromShift | lib/f-validator.js:57-64 | the loop over `xs + ys` from an index past xs is the loop over ys |
| Combinators.AndAssociative | lib/f-validator.js:53-66 | `and(...xs, ...ys)` answers as `and(and(...xs), and(...ys))` |
| Combinators.ExpectedsFromStep | lib/f-validator.js:76-84 | the `expected` texts from operand i are operand i's text followed by the rest |
| Combinators.OrFromPasses | lib/f-validator.js:76-84 | the loop from operand i returns no error exactly when some later operand passes |
| Combinators.OrFromError | lib/f-validator.js:72-85 | when the loop fails, its error joins the collected texts and every remaining operand's text, in order |
| Combinators.OrSpec | lib/f-validator.js:68-86 | `or(v1..vn)` passes exactly when some operand passes; otherwise it fails at the same path on the same subject with "or(" + the operands' `expected` texts joined by ", " + ")" |
| Combinators.OrPair | lib/f-validator.js:68-86 | `or(a, b)` passes when either does, else fails with "or(" + a's text + ", " + b's text + ")" |
| Combinators.OrPairFails | lib/f-validator.js:72-84 | when both operands fail, the loop collects both errors in order and returns one error whose texts are theirs |
| Combinators.OptionalSpec | lib/f-validator.js:88 | `optional(v)` passes on null and undefined whatever v is; on other values it fails exactly when v fails, with "or(null or undefined, " + v's text + ")" |
| Combinators.IsSpec | lib/f-validator.js:92 | `is(ref)` passes exactly on values deeply equal to ref, passes on ref itself, and fails with "is(" + JSON of ref + ")" |
| Combinators.IsSymmetric | lib/f-validator.js:92 | `is(a)(b)` passes exactly when `is(b)(a)` passes |
| Combinators.IsOnNull | lib/f-validator.js:92 | corrected: `is(ref)(null)` passes exactly for ref null or NaN, and `is({})(null)` fails instead of throwing |
| Combinators.OneOfPasses | lib/f-validator.js:94-99 | `oneOf(r1..rn)` passes exactly on values deeply equal to some ri |
| Combinators.OneOfExpecteds | lib/f-validator.js:94-99 | when no reference matches, the operands' texts are "is(JSON ri)" in order |
| Combinators.OneOfSpec | lib/f-validator.js:94-99 | `oneOf(r1..rn)` passes exactly on values deeply equal to some ri, else fails with "or(is(JSON r1), ..., is(JSON rn))" |
| Structure.FieldsFromFirst | lib/f-validator.js:122-126 | the per-key checks from key i return the first error among the keys' answers, in schema order |
| Structure.FieldsFromSpec | lib/f-validator.js:122-126 | the per-key checks from key i pass exactly when every later key's validator passes on `s[key]` at `path.concat(key)`, and otherwise return the first failing key's error |
| Structure.ObjectOfSpec | lib/f-validator.js:121-128 | `objectOf` on a non-object returns exactly the `object` error at the call's path; on an object it passes exactly when every schema key passes, else returns the first failing key's error in declaration order |
| Structure.MissingKeyIsUndefined | lib/f-validator.js:125 | a schema key the object lacks is checked as undefined |
| Structure.FieldsFromSameKeys | lib/f-validator.js:122-126 | the per-key checks read only the schema's keys of the subject |
| Structure.ObjectOfReadsOnlySchemaKeys | lib/f-validator.js:121-128 | two objects that agree on the schema's keys get the same answer |
| Structure.LookupAppend | lib/f-validator.js:125 | adding a field under another key leaves a key read unchanged |
| Structure.ObjectOfIgnoresExtraKey | lib/f-validator.js:121-128 | adding a key that is not in the schema never changes `objectOf`'s answer |
| Structure.ElementsFromFirst | lib/f-validator.js:135-138 | the element loop from index i returns the first error among the elements' answers, in index order |
| Structure.ElementsFromSpec | lib/f-validator.js:135-138 | the element loop from index i passes exactly when every later element passes at `path.concat(index)`, else returns the lowest failing index's error |
| Structure.ArrayOfSpec | lib/f-validator.js:130-140 | `arrayOf(v)` on a non-array returns the plain `array` error at the unchanged path; on an array it passes exactly when every element passes, else returns the lowest failing index's error at `path.concat(i)` |
| Shapes.LikeConforms | lib/f-validator.js:142-172 | `like(ref)` accepts exactly the values with the shape of ref, at any path |
| Shapes.LikeObjectConforms | lib/f-validator.js:160-166 | `like` of an object accepts exactly the objects whose value at each example key has the shape of the example's value there |
| Shapes.LikeArrayConforms | lib/f-validator.js:167-168 | `like` of an array with a present first element accepts exactly the arrays whose every element has that element's shape |
| Shapes.LikeScalar | lib/f-validator.js:146-155 | a number, string, boolean, date or regexp example checks the kind only, never the value, and fails with the kind's tag |
| Shapes.LikeNullish | lib/f-validator.js:156-159 | a null or undefined example becomes `empty`: it accepts exactly null and undefined |
| Shapes.LikeArrayUsesFirstElement | lib/f-validator.js:168 | only the first element of an array example matters |
| Shapes.LikeArrayUnconstrained | lib/f-validator.js:168 | an empty array example, or one whose first element is null or undefined, becomes the plain `array` check |
| Loops.RunAnd | lib/f-validator.js:53-66 | the `and` loop returns `Check`'s answer, passing exactly when every operand passes |
| Loops.RunOr | lib/f-validator.js:68-86 | the `or` loop, pushing each failure on `errs`, returns `Check`'s answer and passes exactly when some operand passes |
| Loops.RunObjectOf | lib/f-validator.js:121-128 | the `objectOf` checks in sequence return `Check`'s answer and pass exactly on objects whose every schema key passes |
| Loops.RunArrayOf | lib/f-validator.js:130-140 | the `arrayOf` loop returns `Check`'s answer and passes exactly on arrays whose every element passes |
| Examples.OrStringNumberOnArray | __test__/f-validator.spec.js:198-203 | `or(string, number)([])` fails with "or(string, number)" |
| Examples.NotArrayOnArray | __test__/f-validator.spec.js:162-167 | `not(array)([])` fails with "not(array)" |
| Examples.OptionalStringCases | __test__/f-validator.spec.js:212-224 | `optional(string)` passes on null and fails on 3 with "or(null or undefined, string)" |
| Examples.ArrayOfStringBlamesIndex | __test__/f-validator.spec.js:369-374 | `arrayOf(string)(['33', 44])` blames index 1 with "string" |
| Examples.ReadmeRecordGood | __test__/example.spec.js:26-31 | the README's good record passes its schema |
| Examples.ReadmeRecordBad | __test__/example.spec.js:33-38 | the README's bad record fails at `b.c` with "or(null or undefined, string)" and received 42 |
| Examples.ReadmeExample | __test__/example.spec.js:40-46 | `arrayOf(...)([good, bad])` fails at path `[1, 'b', 'c']` |
| Examples.ReadmeMessage | lib/f-validator.js:8-17 | the message `error` builds for that error joins the path to `1.b.c` and renders the received 42 as `42`, giving the text the README test expects |
| Examples.LikeMissingKey | __test__/f-validator.spec.js:462-488 | a key of a `like` example that the subject lacks is blamed with expected "number" and received undefined |
| Examples.IsStringCases | __test__/f-validator.spec.js:226-238 | `is('test')` passes on "test" and fails on "taste" with `is("test")` |
| Examples.NestedDiffer | __test__/f-validator.spec.js:241-252 | `{a: {b: {c: 34}}}` is not deeply equal to `{a: {b: {c: 33}}}` |
| Examples.IsNestedCases | __test__/f-validator.spec.js:241-252 | `is({a: {b: {c: 33}}})` passes on an equal object and fails on `{a: {b: {c: 34}}}` with the reference's JSON text |
| Examples.OneOfStringCases | __test__/f-validator.spec.js:254-266 | `oneOf('apple', 'beer')` passes on "apple" and fails on "cat" with `or(is("apple"), is("beer"))` |

## Left out

- Validate.Check: the `is` and `oneOf` branches use the corrected
  `deepEqual`, so `is({})(null)` and `oneOf({})(null)` return an error
  where the code throws a TypeError (see "## Findings").
- Values.Type: only the eleven tags the modelled values produce. The other
  `Object.prototype.toString` tags (map, set, error, symbol, bigint,
  arguments, asyncfunction and the rest) and the 'unknown' answer are not
  modelled, and neither are boxed primitives (`new String('a')` passes
  `string`). So `like`'s final `return is(ref)` branch
  (lib/f-validator.js:169-170) is modelled only for NaN.
- `regex` is not modelled: it delegates to the host regular-expression engine.
- `jsonString` is not part of this model. The tests import it from a module
  that is not shown, and it needs `JSON.parse`.
- Numbers are integers. Fractions, `-0`, `Infinity` (which `number` accepts)
  and the exponent form `JSON.stringify` uses for very large numbers are not
  modelled. NaN is its own value case.
- Dates are represented by their ISO text. Invalid dates (whose JSON is
  `null`) and `Object.prototype.toString`'s detection of dates and regular
  expressions are not modelled; the kinds are given tags directly.
- Objects are finite trees of own enumerable fields. Field order is the
  `Object.keys` order. JavaScript lists integer-like keys first, and the
  model takes the field sequence as already in that order. Prototype
  properties, getters, `toJSON` methods and cyclic values are not modelled.
- Objects are values, not references. `===` between two objects is false in
  the model, so `deepEqual` of an object with itself is decided by its later
  tests, which succeed (`Equality.DeepEqualReflexive`).
- Strings are sequences of characters, not UTF-16 code units. The JSON
  escaping of lone surrogates is not modelled.
- Arbitrary user validators, such as `evenNumber` in the README example, are
  not modelled. `Value.Func` holds only validators the library builds. A
  user validator that throws is out of scope.
- `not`'s expected text uses the operand's `Function.prototype.name`. The
  model computes it with `Values.Name`: the binding name of the named
  library validators, and "" for the anonymous closures the combinators
  return.
- `error`'s fourth argument, a caller-supplied `message`, is never passed
  inside the library; only a user validator could pass one, and those are
  left out. The model has no `message` field and derives it with
  `Validate.Message`.
- The `arguments` copying at the top of `and`, `or` and `oneOf` is not
  modelled. The operands arrive as a sequence.

## Findings

| source | as written | input that shows it | evidently intended | confidence | as-written member | corrected member |
|---|---|---|---|---|---|---|
| lib/f-validator.js:35-37 | `typeof null === 'object'`, so comparing null with an object reaches `Object.keys(null)`, which throws a TypeError | `deepEqual(null, {})`, so also `is({})(null)` | answer false: null is not deeply equal to an object, and a validator reports failure by returning an error, never by throwing | not executed | Equality.DeepEqualAsWrittenThrowsOnNull | Equality.DeepEqualNull |
