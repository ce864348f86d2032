# PieceParse rule engine in Dafny

This project models the parser-combinator engine of PieceParse, a Swift library
for pulling typed values out of a JSON document. A rule (`Parser<A>`) maps an
object context (a keyed decoding container over one JSON object) to a value or
a thrown error. The primitives read a field (`parse` / `value`), descend one key
or a whole path into nested objects (`nestedContainer`), try alternatives in
order (`oneOf`) and iterate over an array of objects (`parseMany`). The
combinators are `map`, the two `chain`s and `zip`. A document is run by first
requiring its root to be an object.

Layout:

- `json_model.dfy`, module `JsonModel`: the JSON tree `Json`, the context
  `Ctx = map<string, Json>`, the decodable shapes, the failure datatype `Err`
  and `Result`.
- `coding.dfy`, module `Coding`: the string-only key (`AnonymousCodingKey`),
  the root-object wrapper (`AnonymousContainer`), and the decoding containers
  the engine calls into. The keyed container is a value. The unkeyed one is a
  class with a cursor that `parseMany` advances.
- `parser.dfy`, module `Parsers`: the engine. A rule is `Ctx -> Result<A>`.
  - `nestedContainer(path:)`, `oneOf` and `parseMany` loop in the source. Each
    one is a specification function (`NestedPath`, `OneOf`, `ParseMany`) that
    composes with other rules, plus a method with the source's loop
    (`RunNestedPath`, `RunOneOf`, `RunParseMany`) proved equal to it.
  - The lemmas state the laws: the functor laws for `map`, associativity of
    `chain`, `chain(b, c)` as `chain` of a `zip`, path descent as a left fold,
    first success wins in `oneOf`, and the order, length and fail-fast
    behaviour of `parseMany`.
- `legacy_parser.dfy`, module `LegacyParser`: `JSONParser/JSONParser.swift` is
  an earlier copy of the same engine. It declares `Parser`,
  `AnonymousContainer`, `AnonymousCodingKey`, `value` and
  `nestedContainer(key:)` again. The model keeps one definition of each: its
  `value` is `Parsers.Parse`. This module states that file's promises against
  those shared definitions.
- `scenarios.dfy`, module `Scenarios`: small documents, each with what its
  rules yield. Only the fact that `name` is `"toast"` comes from the unit test
  (`JSONParserTests/JSONParserTests.swift:17-20`). The record, nested,
  list and alternation documents are illustrative.

Errors are a closed datatype:

- `MissingKey(key)`: the field is absent.
- `TypeMismatch(key, shape)`: the field has the wrong shape.
- `ValueNotFound(key)`: a null where a value is decoded.
- `NotObject`: the root is not an object.
- `ElementNotObject(index)`: no object at an array position.
- `OneOfFailed(attempts, context)`: `oneOf` failed. Each attempt is a branch
  position and that branch's error. The source stores the parser closure
  itself (`JSONParser/Files/Parser.swift:16`), and closures cannot be compared.

`parseMany` passes an element rule's failure on unchanged and adds no element
index. The model follows the code here. A failure it raises itself (an element
that is not an object) carries the element's position.

## Model

| member | source | states |
|---|---|---|
| `Coding.IntValue` | JSONParser/Files/Internal.swift:21 | a key never has an integer value |
| `Coding.KeyOf` | JSONParser/Files/Internal.swift:23-25 | the unlabelled key initialiser stores the given string unchanged |
| `Coding.KeyFromStringValue` | JSONParser/Files/Internal.swift:27-29 | the failable string initialiser never fails and stores the string unchanged |
| `Coding.KeyFromIntValue` | JSONParser/Files/Internal.swift:31-33 | the failable integer initialiser always fails, so objects have no integer-key access |
| `Coding.AnonymousContainer` | JSONParser/Files/Internal.swift:11-16 | root decoding succeeds exactly when the root is an object, exposes that object's fields as the context, and otherwise fails with `NotObject` |
| `Coding.Decode` | JSONParser/Files/Parser.swift:32 | keyed decoding succeeds exactly when the key is present, non-null and accepted by the decoder, yields the decoder's value, and otherwise reports `MissingKey`, `ValueNotFound` or `TypeMismatch` for that key |
| `Coding.NestedKeyed` | JSONParser/Files/Parser.swift:38 | the nested keyed container exists exactly when the field is an object, and is that object; otherwise `MissingKey` or `TypeMismatch(key, object)` |
| `Coding.NestedUnkeyed` | JSONParser/Files/Parser.swift:69 | the nested unkeyed container exists exactly when the field is an array, and holds its elements; otherwise `MissingKey` or `TypeMismatch(key, array)` |
| `Coding.UnkeyedContainer.NestedContainer` | JSONParser/Files/Parser.swift:71-72 | reading the element under the cursor yields its object and moves the cursor one on; any other element, or the end, fails with its index and leaves the cursor in place |
| `Parsers.Run` | JSONParser/Files/Parser.swift:23-26 | running on a document runs the rule on the root object's fields, and fails with `NotObject` when the root is not an object |
| `Parsers.Parse` | JSONParser/Files/Parser.swift:30-34 | the rule fails with `MissingKey` when the key is absent and with `ValueNotFound` on null; otherwise it yields the decoder's value or fails with `TypeMismatch(key, shape)` |
| `Coding.StandardDecodersExact` | JSONParser/Files/Parser.swift:30 | each of the five built-in decoders (string, 64-bit int, bool, array, object) accepts exactly the values of its shape, so `ParseFails` applies to all of them |
| `Parsers.ParseScalars` | JSONParser/Files/Parser.swift:30-34 | reading a string or bool yields `v` if and only if the field is present and holds exactly `v` of that shape; reading an int yields `n` if and only if the field is the number `n` and `n` fits a 64-bit `Int` |
| `Parsers.ParseFails` | JSONParser/Files/Parser.swift:30-34 | for a decoder that accepts exactly its shape, the rule fails if and only if the key is absent or the field has another shape, and every failure names the key |
| `Parsers.NestedContainer` | JSONParser/Files/Parser.swift:36-40 | the rule succeeds if and only if the field is an object and then yields that object; it fails with `MissingKey` or `TypeMismatch(key, object)` otherwise |
| `Parsers.Map` | JSONParser/Files/Parser.swift:84-88 | a success is transformed by `f`; a failure passes through unchanged |
| `Parsers.MapIdentity` | JSONParser/Files/Parser.swift:84-88 | mapping the identity gives the original rule's result on every context |
| `Parsers.MapComposition` | JSONParser/Files/Parser.swift:84-88 | mapping `f` then `g` equals mapping `g ∘ f` on every context |
| `Parsers.Chain` | JSONParser/Files/Parser.swift:90-94 | the second rule runs on the context the first produces; a failure of the first is the result |
| `Parsers.ChainAssociative` | JSONParser/Files/Parser.swift:90-94 | `chain` is associative |
| `Parsers.Chain2` | JSONParser/Files/Parser.swift:96-101 | both downstream rules run on the same descended context; success if and only if all three succeed, with the pair of results; the descent's failure comes first, then `b`'s, then `c`'s |
| `Parsers.Chain2IsChainOfZip` | JSONParser/Files/Parser.swift:96-101 | `chain(b, c)` equals `chain` into `zip(b, c)` |
| `Parsers.Zip` | JSONParser/Files/Parser.swift:105-111 | both rules run on the same original context; succeeds if and only if both succeed, with the pair; if `a` fails its failure is the result, else `b`'s |
| `Parsers.ZipIgnoresSecondAfterFailure` | JSONParser/Files/Parser.swift:105-111 | when `a` fails, `b` is not consulted: any other `b` gives the same result |
| `Parsers.NestedPath` | JSONParser/Files/Parser.swift:42-50 | an empty path returns the input context unchanged |
| `Parsers.Descend` | JSONParser/Files/Parser.swift:46 | one step of the path loop: succeeds if and only if the current context succeeded and holds an object at the key, and yields that object; a failure so far is kept unchanged |
| `Parsers.FoldPath` | JSONParser/Files/Parser.swift:45-47 | the fold of `Descend` over the keys: an empty path keeps the starting result, and a success means the start was a success |
| `Parsers.FoldPathFailed` | JSONParser/Files/Parser.swift:45-47 | once a segment has failed, later segments keep that same failure |
| `Parsers.FoldPathAppend` | JSONParser/Files/Parser.swift:45-47 | folding descent over two paths in turn equals folding over their concatenation |
| `Parsers.NestedPathSingle` | JSONParser/Files/Parser.swift:42-50 | a one-key path is single-key descent |
| `Parsers.NestedPathAppend` | JSONParser/Files/Parser.swift:42-50 | descending along `p + q` equals `chain` of `p`'s descent and `q`'s |
| `Parsers.NestedPathCons` | JSONParser/Files/Parser.swift:42-50 | path descent is single-key descent chained with the rest of the path, so it is the composition of one `nestedContainer(key:)` per segment |
| `Parsers.NestedPathFirstFailure` | JSONParser/Files/Parser.swift:45-47 | a failing descent fails at a first bad segment: all earlier keys descend and the failure is that segment's own |
| `Parsers.RunNestedPath` | JSONParser/Files/Parser.swift:42-50 | the loop that reassigns the current context key by key, stopping at the first failure, equals the path-descent rule |
| `Parsers.FirstSuccess` | JSONParser/Files/Parser.swift:55-58 | the chosen position has every earlier branch failing and is itself a success, or is past the end |
| `Parsers.Attempts` | JSONParser/Files/Parser.swift:54-63 | the collected failures have one entry per branch, in order, each with its position and that branch's error |
| `Parsers.OneOf` | JSONParser/Files/Parser.swift:52-64 | a success is the result of one of the branches; a failure is always `OneOfFailed`, carrying the original context and one attempt per branch (the lemmas below give which branch and which attempts) |
| `Parsers.OneOfFirstWins` | JSONParser/Files/Parser.swift:55-58 | the first branch in list order that succeeds gives the result |
| `Parsers.OneOfAllFail` | JSONParser/Files/Parser.swift:54-63 | if all branches fail, the result is `OneOfFailed` with exactly one attempt per branch, in order, plus the original context; an empty list always fails with no attempts |
| `Parsers.OneOfSucceedsIff` | JSONParser/Files/Parser.swift:52-64 | alternation succeeds if and only if some branch succeeds |
| `Parsers.OneOfIgnoresLater` | JSONParser/Files/Parser.swift:55-58 | branches after the first success are never run: replacing them changes nothing |
| `Parsers.RunOneOf` | JSONParser/Files/Parser.swift:52-64 | the loop with its early return and its growing failure list equals the alternation rule |
| `Parsers.ParseElement` | JSONParser/Files/Parser.swift:72-73 | an element that is an object is handed to the rule; any other element fails with its position |
| `Parsers.ParseMany` | JSONParser/Files/Parser.swift:69 | the list rule fails with `MissingKey` when the key is absent and with `TypeMismatch(key, array)` when the field is not an array |
| `Parsers.ParsePrefix` | JSONParser/Files/Parser.swift:71-75 | the iteration over the first `n` elements: no elements give the empty list, and a success has exactly `n` results |
| `Parsers.ParsePrefixOk` | JSONParser/Files/Parser.swift:71-75 | a successful iteration over `n` elements has `n` results, result i being the rule on element i's object |
| `Parsers.ParsePrefixAllOk` | JSONParser/Files/Parser.swift:71-75 | the iteration succeeds when every element is an object that the rule accepts |
| `Parsers.ParsePrefixFailed` | JSONParser/Files/Parser.swift:71-75 | once the iteration has failed, going further keeps the same failure |
| `Parsers.ParsePrefixLocal` | JSONParser/Files/Parser.swift:71-75 | the iteration over `n` elements reads only those elements |
| `Parsers.ParseElementsFailFast` | JSONParser/Files/Parser.swift:71-75 | the first element that is not an object, or that the rule rejects, decides the failure, and the elements after it are not examined |
| `Parsers.ParseManyFailFast` | JSONParser/Files/Parser.swift:69-75 | when the array's first unfit element is at position `k`, the list rule fails with that element's failure |
| `Parsers.ParseManyOk` | JSONParser/Files/Parser.swift:67-77 | a successful list comes from an array field, has the array's length, and element i is the rule applied to array element i |
| `Parsers.ParseManyAllOk` | JSONParser/Files/Parser.swift:67-77 | an array of objects that the rule all accepts gives a successful list |
| `Parsers.RunParseMany` | JSONParser/Files/Parser.swift:67-77 | the cursor loop that reads each element, runs the rule and appends the result equals the list rule |
| `LegacyParser.ValueReadsOnlyItsField` | JSONParser/JSONParser.swift:32-36 | `value(type, key)` depends only on the field at `key` |
| `LegacyParser.NestedContainerReadsOnlyItsField` | JSONParser/JSONParser.swift:38-42 | `nestedContainer(key:)` depends only on the field at `key` |
| `LegacyParser.RunRejectsNonObjectRoot` | JSONParser/JSONParser.swift:17-30 | a document whose root is not an object fails with `NotObject` whatever the rule |
| `LegacyParser.KeysAreStrings` | JSONParser/JSONParser.swift:44-60 | both string initialisers build the same key, a key is rebuilt from its string, and no key has or is built from an integer |
| `Scenarios.NameIsToast` | JSONParserTests/JSONParserTests.swift:17-20 | on any document whose `name` is `"toast"`, `value(String.self, key: "name")` yields `"toast"` |
| `Scenarios.ToastRecord` | JSONParser/Files/Parser.swift:105-111 | zipping `name` and `points` and mapping into a record gives `Food("toast", 2)` |
| `Scenarios.NestedResult` | JSONParser/Files/Parser.swift:42-50 | path `success`, `result` then `value` yields 4, and `winner` read from the `success` object yields true |
| `Scenarios.ResultsList` | JSONParser/Files/Parser.swift:67-77 | a two-record `results` array yields both records in array order |
| `Scenarios.NameAlternationFails` | JSONParser/Files/Parser.swift:52-64 | two failing branches give `OneOfFailed` with both attempts, in order, and the context |

## Left out

- Byte-level JSON decoding (`JSONDecoder().decode` at `JSONParser/Files/Parser.swift:24` and `JSONParser/JSONParser.swift:18`) is a Foundation call. The model starts from a `Json` tree, so malformed input is not modelled.
- Floating-point numbers: `Json` numbers are integers.
- Foundation's generic `Decodable` is not modelled. Instead a `Decoder` pairs an expected shape with a conversion, and five decoders are provided: string, 64-bit int, bool, raw array and object. Decoding nested `Decodable` types, such as arrays of strings, is not modelled.
- `Decode`: the null handling follows Foundation's JSON decoder. A null field fails with `ValueNotFound`. A null given to `nestedContainer` or `parseMany` fails with `TypeMismatch`.
- `UnkeyedContainer.NestedContainer`: one `ElementNotObject(index)` failure covers both Foundation failures, the element's type mismatch and a read past the end.
- `IntDecoder`: a number outside the 64-bit range is rejected as `TypeMismatch(key, int)`. Foundation reports `dataCorrupted` for it instead.
- `Coding.Decode`: keys are compared as sequences of code points. Swift's `String ==` compares by canonical equivalence, so `"é"` written precomposed and written decomposed are one key there and two keys here.
- `Coding.AnonymousContainer`: one `NotObject` failure covers both Foundation root failures, `valueNotFound` for a null root and `typeMismatch` for any other non-object root.
- Coding paths: Foundation's errors carry a whole coding path, while the model's errors carry only the last key or array position.
- The parser closures stored in `oneOfFailed` are replaced by branch positions, because closures cannot be compared. The error's type parameter `A` is dropped, because `Err` is one datatype.
- Swift's `throws` is modelled as a `Result` return value.
- The duplicate declarations in `JSONParser/JSONParser.swift` are modelled once, shared with `JSONParser/Files/*`.
- Indexed list access, literal validation and fallible `map` do not appear in the source files. They are not modelled.
- Fixture loading (`Bundle`, `Data(contentsOf:)`) and the XCTest test class are not modelled. The test's fixture file is not part of this model, so `NameIsToast` holds for any document whose `name` is `"toast"`.
- Determinism needs no lemma: rules are Dafny functions.
