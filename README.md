# pii struct anonymizer — a Dafny model

This project models the core of the Go library `github.com/ThreeDotsLabs/pii`. The
library walks a struct value and passes every string field tagged `anonymize` through
a pluggable string capability. Going forward (`Anonymize`) the capability hides the
value; going back (`Deanonymize`) it recovers it. The model covers:

- the traversal engine (`StructAnonymizer`, anonymizer.go);
- the capability contract `StringAnonymizer[K]`;
- the lossy `MaskingAnonymizer` (masking.go);
- the reversible `testStringAnonymizer` and the two test scenarios (anonymizer_test.go,
  masking_test.go).

Files and modules:

- `wrappers.dfy` (`Wrappers`): `Option`, and `Result` for Go's `(value, error)` pairs. An
  error is modelled by its message.
- `records.dfy` (`Records`): the shape reflection sees. A struct value is a `seq<Field>`.
  Each field has `tag` (what `Tag.Lookup("anonymize")` returns: `None`, or `Some` with the
  tag's value) and a `Value`: `Str`, `Struct` (nested fields), or `Other(kind, bits)` for
  every other kind. `MarkedValues` lists the tagged strings at every depth in visiting
  order. `Skeleton` is the struct with those strings blanked out. `Zero` is Go's zero
  value of the struct type.
- `capability.dfy` (`Capability`): the contract as a pair of functions `(K, string) ->
  Result<string>`. `ApplyAll` is a fail-fast run of one operation over a list of values.
  `Attempted` is the list of values such a run actually calls the operation on.
  `RoundTripsOn` and `Reversible` state the round-trip law.
- `anonymizer.dfy` (`Anonymizer`): the engine.
  - `TransformFields` specifies one walk.
  - `Traverse` is the imperative walk over the copy, an `array<Field>` overwritten in
    place.
  - `Anonymize` and `Deanonymize` allocate the copy, walk it, and return it, or the zero
    value and the error.
  - The lemmas relate the walk to `ApplyAll` over `MarkedValues`, with the `Skeleton`
    unchanged. A struct is determined by its skeleton and its marked values
    (`Records.Reconstruct`), so this determines the result completely.
- `strings.dfy` (`Strings`): Go's `strings.Split` on a one-character separator, with
  `Join`.
- `test_anonymizer.dfy` (`TestAnonymizer`): the reversible `anonymized.<key>.<value>`
  capability and the `TestStructAnonymizer` scenario.
- `masking.dfy` (`Masking`) and `masking_test.dfy` (`MaskingTest`): the masking capability
  and its scenario.

Where the model departs from the code:

- **Only the tag's presence counts.** `Tag.Lookup` (anonymizer.go:61) reports
  `anonymize:""` and `anonymize:"false"` as present, so those fields are transformed too
  (`Anonymizer.TagValueIrrelevant`).
- **One walk serves both directions.** The code writes the walk twice, once per direction
  (anonymizer.go:48-78 and 95-125), and the two copies differ only in the capability
  operation they call. The model has one `Traverse` that takes that operation as a
  parameter, and `Anonymize`/`Deanonymize` pass the forward or the inverse operation.
- **The caller's value cannot change.** `T` is a value (`seq<Field>`), so the caller's
  record cannot be altered. The copy `cp` is a fresh array that only `Traverse` writes.

## Model

| member | source | states |
|---|---|---|
| `Records.Zero` | anonymizer.go:40-43 | the value returned on error has the same fields, tags and kinds as the input: it is the zero value of T |
| `Records.ZeroOfShape` | anonymizer.go:41 | `var empty T` depends on the type alone: two values of one type have the same zero |
| `Capability.ApplyAllFailFast` | anonymizer.go:63-66 | a run over values succeeds iff every value is accepted, then holds each value's image in place; otherwise it fails with the first refused value's error |
| `Capability.ApplyAllRoundTrip` | anonymizer.go:12-17 | when the contract's round-trip law holds on the values, the inverse run undoes the forward run |
| `Capability.FirstFailure` | anonymizer.go:56-73 | the index of the first refused value: every earlier value is accepted, and that one is refused |
| `Capability.Attempted` | anonymizer.go:56-75 | the values a fail-fast run calls the operation on are a prefix of its input |
| `Anonymizer.NewStructAnonymizer` | anonymizer.go:26-32 | the anonymizer holds exactly the capability it is built with, and nothing else |
| `Anonymizer.TransformFields` | anonymizer.go:48-78 | the walk over a struct's fields, one definition for both copies of the Go loop (anonymizer.go:95-125 calls the inverse operation). Its own contract: a successful walk keeps every field, tag and kind. Its result is characterised by `TransformFieldsSpec` and `FirstErrorWins` |
| `Anonymizer.TransformField` | anonymizer.go:60-74 | one field of the walk: tagged string, nested struct, or anything else. Its own contract: a successful step keeps the field's tag and kind. Characterised by `TransformFieldSpec` |
| `Anonymizer.TransformFieldsSpec` | anonymizer.go:56-75 | a walk fails iff the fail-fast run of the operation over the tagged strings (at every depth, in order) fails, with that error. On success the marked values become their images, and everything else (tags, kinds, untagged strings, other fields) is unchanged at every depth |
| `Anonymizer.TransformFieldSpec` | anonymizer.go:60-74 | the same for one field: a tagged string is replaced, a struct is walked whatever its tag, and any other field is left as is |
| `Anonymizer.Traverse` | anonymizer.go:48-78 | the in-place loop over the copy yields the specified walk, or its error. The strings handed to the capability are the tagged strings in order, up to and including the first failing one |
| `Anonymizer.Anonymize` | anonymizer.go:34-46 | returns the forward walk of a copy, or the first error together with the zero value of T, never a partial copy. The calls made are the tagged strings up to the first failure |
| `Anonymizer.Deanonymize` | anonymizer.go:80-93 | the same walk with the inverse operation: the same fields, in the same order, with the same zero on error |
| `Anonymizer.FirstErrorWins` | anonymizer.go:63-73 | a walk fails iff some tagged string is refused, and then with the error of the first refused one in visiting order |
| `Anonymizer.FieldIsolation` | anonymizer.go:60-74 | after a successful walk, a field that is neither a tagged string nor a struct is identical to before. A tagged string holds exactly `op(key, old)`, with its tag kept |
| `Anonymizer.RoundTrip` | anonymizer.go:34-93 | if forward never fails on the record's tagged strings and the inverse undoes it, then deanonymizing the anonymized record gives the original back |
| `Anonymizer.RoundTripReversible` | anonymizer.go:12-17 | the round trip holds for any record when the capability satisfies the round-trip law on every string |
| `Anonymizer.SameFieldsBothWays` | anonymizer.go:95-125 | when both directions succeed, they change the same fields: the same skeleton, and at each marked position the forward and the inverse image of the same value |
| `Anonymizer.TagValueIrrelevant` | anonymizer.go:61 | changing the value of every present `anonymize` tag changes nothing in the walk but those tags: only the tag's presence counts |
| `Anonymizer.NestedUntaggedStructIsWalked` | anonymizer.go:69-74 | a string tagged with the empty value, inside an untagged struct field, is transformed |
| `Strings.Split` | anonymizer_test.go:54 | `strings.Split` yields one more piece than there are separators, and no piece contains the separator |
| `Strings.JoinSplit` | anonymizer_test.go:54 | joining the pieces with the separator gives the string back |
| `Strings.SplitJoin` | anonymizer_test.go:54 | splitting undoes joining when no piece contains the separator |
| `TestAnonymizer.AnonymizeString` | anonymizer_test.go:49-51 | the encoder never returns an error; its result `anonymized.<key>.<value>` is characterised by `EncodeDotCount`, `EncodeDecode` and `DotBreaksRoundTrip` |
| `TestAnonymizer.EncodeDotCount` | anonymizer_test.go:50 | the encoding holds exactly two more dots than the key and the value together |
| `TestAnonymizer.DeanonymizeString` | anonymizer_test.go:53-62 | "invalid value" iff the value does not have exactly two dots; "invalid key" iff it has two dots and the middle piece differs from the key; a result contains no dot |
| `TestAnonymizer.DecodeAccepts` | anonymizer_test.go:58-61 | any dot-free first piece is accepted (it is never compared to "anonymized"), and the last piece is returned |
| `TestAnonymizer.DecodeSound` | anonymizer_test.go:53-62 | a successful decode means a dot-free key and an input of the form `<first>.<key>.<result>` |
| `TestAnonymizer.EncodeDecode` | anonymizer_test.go:49-61 | for a dot-free key and value (the empty value included), decoding the encoding gives the value back |
| `TestAnonymizer.WrongKeyFails` | anonymizer_test.go:58-60 | decoding a dot-free encoding under another key is the "invalid key" error, not a wrong value |
| `TestAnonymizer.DotBreaksRoundTrip` | anonymizer_test.go:54-57 | if the key or the value contains a dot, decoding the encoding under any key is "invalid value" |
| `TestAnonymizer.RoundTripsOnDotFree` | anonymizer_test.go:47-62 | the test capability satisfies the round-trip law on dot-free values under a dot-free key |
| `TestAnonymizer.StructAnonymizerScenario` | anonymizer_test.go:26-37 | with key "id", {John, Doe, ThreeDotsLabs} anonymizes to {anonymized.id.John, anonymized.id.Doe, ThreeDotsLabs} |
| `TestAnonymizer.StructDeanonymizerScenario` | anonymizer_test.go:39-44 | deanonymizing that result with key "id" gives {John, Doe, ThreeDotsLabs} back |
| `Masking.NewMaskingAnonymizer` | masking.go:12-14 | the constructor; its body is the definition (it drops `mask`), characterised by `MaskArgumentIgnored` |
| `Masking.AnonymizeString` | masking.go:16-18 | forward masking; its body is the definition (the key's string form, never an error), characterised by `MaskIgnoresValue`, `MaskIdempotent` and `MaskIsLossy` |
| `Masking.DeanonymizeString` | masking.go:20-22 | the inverse; its body is the definition (the input unchanged, never an error), characterised by `MaskInverseIsIdentity` |
| `Masking.MaskArgumentIgnored` | masking.go:12-14 | the `mask` argument of the constructor makes no difference to either operation |
| `Masking.MaskIgnoresValue` | masking.go:16-18 | forward never fails, ignores the value, and returns the key |
| `Masking.MaskInverseIsIdentity` | masking.go:20-22 | the inverse never fails, ignores the key, and returns its input |
| `Masking.MaskIdempotent` | masking.go:17 | masking twice under one key is masking once |
| `Masking.MaskIsLossy` | masking.go:16-22 | undoing a mask under any key gives the key back, never the original when the original differs from the key |
| `Masking.MaskNotReversible` | masking.go:8-9 | the masking capability fails the round-trip law for every key |
| `Masking.MaskRecord` | masking_test.go:24-29 | through the engine, masking never fails, turns every tagged string at every depth into the key, and leaves the rest unchanged |
| `Masking.UnmaskRecordIsIdentity` | masking_test.go:31-36 | deanonymizing any record through the masking capability returns it unchanged |
| `MaskingTest.MaskingScenario` | masking_test.go:13-37 | key "***" masks {John, Doe, ThreeDotsLabs} to {\*\*\*, \*\*\*, ThreeDotsLabs}, and deanonymizing under "" leaves that unchanged |

## Left out

- Reflection (`reflect.TypeOf`, `reflect.New`, `Set`, `Interface().(T)`, tag-string
  parsing): replaced by the explicit `Field`/`Value` shape, in which the tag's lookup
  result is already given.
- The pointer-resolution loops (anonymizer.go:51-54, 98-101) and pointer-typed `T`: only a
  struct-valued `T` is modelled. As written, those loops never advance past a
  pointer-to-pointer, and a pointer `T` would make the copy share the caller's value.
- Reflection panics (`SetString` on an unexported field, `NumField` on a non-struct `T`):
  these are outside the modelled shape.
- `context.Context`: both capabilities ignore it, and cancellation happens inside foreign
  capability code.
- `fmt.Sprintf("%v", key)` for key types other than `string`: the masking capability is
  modelled with string keys, whose `%v` form is the key itself.
- `Other(kind, bits)` stands for every non-string, non-struct kind. Its content is a
  single integer, whose zero is `0`.
- Traverse: a nested struct is copied into a fresh array, walked, and written back. After
  an error the nested copy is not written back, and the contract says nothing of `cp`.
  Go keeps a partly changed copy at that point, but it is discarded in both versions.
- Error values are modelled by their message. `testStringAnonymizer` returns `""` next to
  an error, and the model folds that pair into `Err`.
- The testify assertions and `testing.T`: the test functions are modelled as scenario
  lemmas and as the methods `TestAnonymizer.TestStructAnonymizer` and
  `MaskingTest.TestMaskingAnonymizer`.
- Capabilities whose answers depend on call history or randomness (nonce-based
  encryption, say): each operation is a pure function `(K, string) -> Result<string>`, so
  `FirstErrorWins`, `SameFieldsBothWays` and `RoundTrip` speak of deterministic
  capabilities only. The Go interface also admits internally stateful ones.
- Go strings are byte sequences; the model uses Dafny `string`, so byte strings that are
  not valid UTF-8 are not represented. Splitting on the ASCII `.` is unaffected.
- Concurrent use: the engine has no shared state, so there is nothing to model.
