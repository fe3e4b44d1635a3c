# Funky, modelled in Dafny

Funky is a Swift 1.x library of functional helpers. Its core is three things:

- `ErrorIO`, an aggregate error that owns one ordered list of causes (`NSError`s).
- The combinators `coalesce` and `coalesce2`, which fold a batch of LlamaKit `Result`s into one `ErrorIO`.
- The list, Optional, Result and string helpers those are built from.

The model is split into these modules:

- `Wrappers` (Wrappers.dfy): Swift's Optional, LlamaKit's `Result`, and `Run`. `Run` records whether a piece of Swift code traps (a forced unwrap of nil, a `Range` whose end is below its start, an index past the end) or returns.
- `Functional` (Functional.dfy): the generic combinators of `Functions.Functional.swift`.
  - A source function that builds a local array in a loop is a `method` with that loop. It is proved against a specification function (`Filter`, `FilterMap`, `Mapr`, `ToDictionary`, `Unfolded`).
  - A source function written as an expression, a fold (`reduce`) or recursion is a `function`.
- `Strings` (Strings.dfy): `lines`, `indent`, `describe` and the substring helpers of `Functions.Strings.swift`. These fix the text of `ErrorIO.localizedDescription`.
- `Errors` (ErrorIO.dfy): `ErrorIO` as a class.
  - Its `errors` field is a `seq<Cause>`. A cause is a record: domain, code, and user info made of an optional description, file and line.
  - The Swift value is a struct with `mutating` methods. The model is a class whose methods modify `errors`.
- `Coalescing` (Coalesce.dfy): `coalesce`, `coalesce2` and `failure(message:file:line:)` of `Functions.ErrorIO.swift`.
- `Keypaths` (Keypath.dfy): `valueForKeypath` and `setValueForKeypath`.
  - Values are a datatype `Leaf | Dict(map<string, Value>)`, which stands in for the casts from `AnyObject`.
- `Apply` (Apply.dfy): the two `<*>` overloads of `Operators.apply.swift`.

## Operators and helpers defined outside the source files

- `<~` is not part of this model's source files. The library's tests show that each use adds one error, for an `NSError` and for a `String`. Each form is modelled as follows:
  - `<~ cause` is `ErrorIO.Append`.
  - `<~ anotherErrorIO` is `ErrorIO.Merge`, which appends the other aggregate's causes, as the flattening initialiser does.
  - `<~ "message"` is `ErrorIO.AppendMessage`, which adds one cause with domain `""`, code 0 and that message, and no file or line. The `String` form of `<~` is not in the source files, so this cause is a modelling choice: `defaultError(message:)` would also record a file and a line.
- `splitr` splits on a character and `joinc` joins with a separator.
  - Swift 1.x `split` has `allowEmptySlices` false by default, so `lines` and `indent` drop empty pieces.
  - The model writes this as `Split = NonEmpty(SplitAll)`.
  - So `indent("a\n\nb")` has two lines, not three. This is where the code is more precise than a reading of `indent` as "prefix every line".
- `>>>` is `Functional.Compose`, `<^>` is `Option.Map`, and LlamaKit's `flatMap`/`map` are `Result.FlatMap`/`Result.Map`.

## Model

| member | source | states |
|---|---|---|
| Errors.ErrorIO.constructor | src/ErrorIO.swift:29-40 | a new aggregate has no causes, domain "com.illumntr.MultiError" and code 1 |
| Errors.ErrorIO.FromAggregates | src/ErrorIO.swift:42-47 | the flattening initialiser holds the causes of every argument, argument after argument, with default domain and code |
| Errors.AllCausesEmpty | src/ErrorIO.swift:42-47 | the flattened aggregate is empty exactly when every argument is empty |
| Errors.AllCausesAppend | src/ErrorIO.swift:42-47 | flattening a concatenation of argument lists is concatenating the flattenings |
| Errors.ErrorIO.FromCauses | src/ErrorIO.swift:49-54 | the variadic-cause initialiser holds exactly those causes in order |
| Errors.ErrorIO.FromArrayLiteral | src/ErrorIO.swift:142-144 | an array literal gives exactly its causes in order, so a two-element literal has count 2 |
| Errors.ErrorIO.Generate | src/ErrorIO.swift:85-89 | running the generator to its end yields exactly `errors` in order |
| Errors.CollectionViewAgrees | src/ErrorIO.swift:97-106 | `errorCount` is `endIndex - startIndex`; the subscript and each generator step read `errors` at that position; the generator stops at `endIndex` |
| Errors.ErrorIO.Append | src/ErrorIO.swift:122-124 | exactly one cause is added at the end; earlier causes, domain and code are unchanged |
| Errors.ErrorIO.Extend | src/ErrorIO.swift:130-132 | the given causes are added at the end in order; earlier causes, domain and code are unchanged |
| Errors.ErrorIO.Merge | src/Functions.ErrorIO.swift:17 | `into <~ other` appends all of `other`'s causes in order and keeps domain and code |
| Errors.ErrorIO.AppendMessage | FunkyTests/ErrorIOTests.swift:48-56 | `err <~ "message"` adds exactly one cause carrying that message and keeps the rest |
| Errors.ErrorIO.DefaultErrorFromUserInfo | src/ErrorIO.swift:57-59 | a fresh aggregate with exactly one cause: domain "", code 0, that user info |
| Errors.ErrorIO.DefaultError | src/ErrorIO.swift:61-68 | a fresh aggregate with exactly one cause carrying the message, file and line |
| Errors.ErrorIO.DefaultErrorAt | src/ErrorIO.swift:70-73 | a fresh aggregate with exactly one cause carrying only file and line |
| Errors.ErrorIO.LocalizedDescription | src/ErrorIO.swift:35-38 | the text "<ErrorIO: errors = " + `describe` of the causes' descriptions + ">"; its line structure is the contract of `LocalizedDescriptionLines` |
| Errors.LocalizedDescriptionLines | src/ErrorIO.swift:35-38 | when each cause describes itself in one line, the description has the line "<ErrorIO: errors = [", one indented line per cause in order with a comma after all but the last, and "]>": count + 2 lines |
| Coalescing.Coalesce | src/Functions.ErrorIO.swift:13-23 | no failures gives Success of the successes' values (so `coalesce([])` is `Success([])`); otherwise Failure of a fresh aggregate holding every failure's causes in input order, with default domain and code |
| Coalescing.CoalesceValues | src/Functions.ErrorIO.swift:20-22 | with no failures the values are all of them, one per input, in input order |
| Coalescing.MergeSide | src/Functions.ErrorIO.swift:30-31 | one step of the fold: the side's causes are appended when it failed, nothing when it succeeded |
| Coalescing.AggregatePairErrors | src/Functions.ErrorIO.swift:27-33 | the fold visits every pair, left error then right error, with no short-circuit, into a fresh aggregate |
| Coalescing.PairErrorsMembers | src/Functions.ErrorIO.swift:27-33 | every visited error is the error of a failing side |
| Coalescing.PairErrorsEmpty | src/Functions.ErrorIO.swift:27-35 | there is an error to visit exactly when some side of some pair failed |
| Coalescing.PairValues | src/Functions.ErrorIO.swift:39 | when every side succeeded, one `(t, u)` per pair in input order |
| Coalescing.AggregateEmptyOnlyWhenAllSucceed | src/Functions.ErrorIO.swift:30-39 | the forced unwraps are safe when every failing side carries at least one cause: an empty aggregate then means every side succeeded |
| Coalescing.UnwrapPairs | src/Functions.ErrorIO.swift:39 | the forced unwraps trap exactly when some side failed; otherwise one `(t, u)` per pair in input order |
| Coalescing.Coalesce2AsWritten | src/Functions.ErrorIO.swift:25-42 | a non-empty aggregate gives Failure; an empty one gives the value pairs if every side succeeded and a trap otherwise |
| Coalescing.Coalesce2TrapsOnEmptyFailure | src/Functions.ErrorIO.swift:35-39 | a pair whose left side fails with an empty aggregate reaches the forced unwrap and traps |
| Coalescing.Coalesce2 | src/Functions.ErrorIO.swift:25-42 | Failure exactly when some side failed, holding every visited cause in order; otherwise Success of one `(t, u)` per pair in order |
| Coalescing.FailureFromMessage | src/Functions.ErrorIO.swift:45-47 | Failure of a fresh aggregate holding the one cause `defaultError(message, file, line)` makes |
| Functional.Mapr | src/Functions.Functional.swift:756-761 | same length; element i is `f` of input element i |
| Functional.Head | src/Functions.Functional.swift:23-30 | nil exactly for an empty collection, otherwise the first element |
| Functional.Tail | src/Functions.Functional.swift:36-41 | the first element followed by the result is the input |
| Functional.TailFrom | src/Functions.Functional.swift:47-57 | the first `n` elements followed by the result is the input |
| Functional.Collect | src/Functions.Functional.swift:65-76 | the collected array is the sequence in generation order |
| Functional.Equal | src/Functions.Functional.swift:115-130 | true iff both have the same length and `equality` holds position by position |
| Functional.Any | src/Functions.Functional.swift:151-161 | true iff some element satisfies the predicate |
| Functional.All | src/Functions.Functional.swift:168-178 | true iff every element satisfies the predicate |
| Functional.Both | src/Functions.Functional.swift:137-144 | present iff both are present, and then the pair of their values |
| Functional.All3 | src/Functions.Functional.swift:185-193 | present iff all three are present, and then the triple of their values |
| Functional.All4 | src/Functions.Functional.swift:200-208 | present iff all four are present, and then the quadruple of their values |
| Functional.Unfold | src/Functions.Functional.swift:275-286 | the loop collects exactly the sequence of values the closure creates from `initial` until it returns nil |
| Functional.ZipUnfolded | src/Functions.Functional.swift:259-271 | unfolding the zip generator from position i gives the pairs from i up to the shorter length |
| Functional.ZipSeq | src/Functions.Functional.swift:259-271 | as many pairs as the shorter input, pair k being the two k-th elements |
| Functional.Partition | src/Functions.Functional.swift:301-316 | the left fold that adds each element to the first or the second array; what it computes is the contract of `PartitionIsFilters` |
| Functional.PartitionIsFilters | src/Functions.Functional.swift:301-316 | the fold gives the elements satisfying the predicate and the rest, each in input order, together a permutation of the input |
| Functional.TakeFirst | src/Functions.Functional.swift:436-446 | nil iff no element satisfies the predicate, otherwise the first element that does |
| Functional.TakeWhile | src/Functions.Functional.swift:449-462 | a prefix of the input whose elements all satisfy the predicate and which stops only at the end or at a failing element |
| Functional.IsSuccess | src/Functions.Functional.swift:214-216 | true exactly when `unwrapValue` has a value |
| Functional.IsFailure | src/Functions.Functional.swift:222-224 | the negation of `isSuccess` is true exactly for a failure, and exactly when `unwrapError` has an error |
| Functional.UnwrapValue | src/Functions.Functional.swift:230-232 | nil exactly for a failure; a value wraps back into the input result |
| Functional.UnwrapError | src/Functions.Functional.swift:238-240 | nil exactly for a success; an error wraps back into the input result |
| Functional.SelectFailures | src/Functions.Functional.swift:465-469 | every selected error is the error of some failure in the input |
| Functional.NoFailuresSelected | src/Functions.Functional.swift:465-469 | nothing is selected exactly when every result is a success |
| Functional.RejectFailures | src/Functions.Functional.swift:472-477 | every kept value is the value of some success in the input |
| Functional.RejectFailuresIsFilterMap | src/Functions.Functional.swift:472-477 | rejecting failures before `mapFilter(unwrapValue)` changes nothing |
| Functional.RejectFailuresAllSuccesses | src/Functions.Functional.swift:472-477 | with only successes, every value is kept in input order |
| Functional.FailuresAndSuccessesCount | src/Functions.Functional.swift:465-477 | the failures selected and the values kept add up to the input length |
| Functional.RejectFailuresAndDispose | src/Functions.Functional.swift:480-485 | the values of the successes, and `disposal` called on the failures' errors in order |
| Functional.GroupBy | src/Functions.Functional.swift:488-498 | the left fold that appends each element to its key's group; what it computes is the contract of `GroupByGroups` |
| Functional.GroupByGroups | src/Functions.Functional.swift:488-498 | a key is present iff some element has it, and its group is exactly those elements in input order |
| Functional.IsNilAsWritten | src/Functions.Functional.swift:613-619 | the generic `isNil` as written returns true exactly for a present value |
| Functional.IsNil | src/Functions.Functional.swift:597-607 | true exactly for nil, as the other overloads and the documentation say |
| Functional.IsNilAsWrittenAgreesWithNonNil | src/Functions.Functional.swift:613-630 | the generic `isNil` equals `nonNil` instead of being its negation; the corrected `IsNil` is its negation |
| Functional.NonNil | src/Functions.Functional.swift:625-630 | true exactly for a present value |
| Functional.SelectWhere | src/Functions.Functional.swift:712-723 | the elements satisfying the predicate, in order |
| Functional.MapFilter | src/Functions.Functional.swift:797-830 | the non-nil results of the transform, in input order (both overloads) |
| Functional.FilterMapSound | src/Functions.Functional.swift:797-808 | every kept value is the transform's present result for some input element |
| Functional.RejectIf | src/Functions.Functional.swift:837-849 | exactly the elements failing the predicate, in order |
| Functional.RejectIfAndDispose | src/Functions.Functional.swift:863-878 | kept are the elements failing the predicate and disposed the others, each in order, together a permutation of the input |
| Functional.RejectNil | src/Functions.Functional.swift:952-964 | the present values, in order |
| Functional.FilterMapIdKeepsPresent | src/Functions.Functional.swift:952-964 | one value per present element, and a value is kept iff it was present in the input |
| Functional.RejectEitherNil | src/Functions.Functional.swift:976-984 | present iff both components are present, and then the pair of their values |
| Functional.RejectEitherNilAll | src/Functions.Functional.swift:996-1006 | the left fold that keeps the tuples with both sides present; what it computes is the contract of `RejectEitherNilAllIsFilterMap` |
| Functional.RejectEitherNilAllIsFilterMap | src/Functions.Functional.swift:996-1006 | the fold keeps, in order, the flattened tuples with no nil |
| Functional.ToDictionaryLastWins | src/Functions.Functional.swift:1033-1043 | a key is present iff some pair has it, and it holds the value of the last such pair |
| Functional.MapToDictionary | src/Functions.Functional.swift:1033-1043 | the loop builds the dictionary of the transformed pairs, later keys winning |
| Functional.FindWhereAsWritten | src/Functions.Functional.swift:1052-1072 | traps iff no element matches; otherwise the first matching index |
| Functional.FindWhere | src/Functions.Functional.swift:1046-1072 | nil iff no element matches; otherwise the first matching index |
| Functional.DecomposeAsWritten | src/Functions.Functional.swift:1086-1094 | traps exactly for an empty array, so nil never comes back |
| Functional.Decompose | src/Functions.Functional.swift:1081-1094 | nil exactly for an empty array, otherwise the head followed by the tail is the array |
| Functional.DecomposeEmptyTraps | src/Functions.Functional.swift:1089 | the empty array traps as written and gives nil as documented |
| Functional.HeadIsDecomposeHead | src/Functions.Functional.swift:1086-1094 | `head` is the first component of `decompose` |
| Functional.MapIfIndex | src/Functions.Functional.swift:1160-1174 | same length; element i is transformed iff `ifIndex(i)`, and kept otherwise; `ifIndex` is only asked about the collection's indices |
| Functional.MapEveryNth | src/Functions.Functional.swift:1177-1186 | same length; element i is transformed iff `(i + 1) % n == 0`; `n` may be zero only for an empty collection, where the test is never evaluated |
| Functional.ContainsAsWritten | src/Functions.Functional.swift:322-328 | true only when the range ends strictly before `endIndex` |
| Functional.Contains | src/Functions.Functional.swift:319-328 | true only when every index in the range is valid and it ends by `endIndex` |
| Functional.ContainsIffValidIndices | src/Functions.Functional.swift:319-328 | for a non-empty range, true exactly when every index in it is valid |
| Functional.ContainsRejectsWholeRange | src/Functions.Functional.swift:326-327 | `0 ..< 3` on three elements is rejected as written and accepted as documented |
| Keypaths.ValueForKeypath | src/Functions.Functional.swift:1101-1118 | a value is found only when the first key is present and, for a longer keypath, holds a dictionary |
| Keypaths.SetValueForKeypath | src/Functions.Functional.swift:1127-1157 | Failure, with the one-cause aggregate for line 1152, exactly when a step before the last key is not a dictionary; on success the keypath reads back `value` (nil removes the key), other first-level keys are unchanged, every proper prefix of the keypath leads to a dictionary (missing levels are created, also when `value` is nil), and every keypath diverging from it reads as before |
| Keypaths.AssignSets | src/Functions.Functional.swift:1134-1136 | at a one-key keypath the assignment reads back `value` (nil removes the key), changes no other key and never fails |
| Keypaths.BlockedBelow | src/Functions.Functional.swift:1138-1152 | a longer keypath fails exactly when its rest fails in the dictionary under its first key, an empty one when that key is missing |
| Keypaths.SiblingsKept | src/Functions.Functional.swift:1135 | changing one key leaves every lookup starting at another key unchanged |
| Keypaths.DescendSet | src/Functions.Functional.swift:1144-1150 | storing the changed sub-dictionary under the first key sets the whole keypath and keeps every diverging keypath |
| Keypaths.NestedChangeKept | src/Functions.Functional.swift:1144-1150 | a sub-dictionary that agrees off the remaining keypath keeps every keypath diverging from the whole one |
| Keypaths.CreatedLevelsKept | src/Functions.Functional.swift:1140-1142 | setting nil at `a.b.c` in an empty dictionary leaves the created levels `a` and `a.b`: `{a: {b: {}}}` meets the level condition and `{a: {}}` does not |
| Keypaths.EmptyHoldsNothing | src/Functions.Functional.swift:1140-1142 | nothing is found in a newly created empty level |
| Strings.Lines | src/Functions.Strings.swift:17-19 | `split` on "\n", dropping empty pieces; what it computes is the contract of `LinesSound` and `LinesOfJoin` |
| Strings.LinesSound | src/Functions.Strings.swift:17-19 | every line is non-empty and has no newline, and the lines are the text without newlines, in order |
| Strings.LinesOfJoin | src/Functions.Strings.swift:17-19 | single lines joined with newlines split back into the same lines |
| Strings.SubstringFromIndex | src/Functions.Strings.swift:57-61 | the result has `count - index` characters and completes the first `index` characters to the string |
| Strings.SubstringToIndex | src/Functions.Strings.swift:65-69 | the result has `index` characters and the rest of the string completes it |
| Strings.SubstringsRejoin | src/Functions.Strings.swift:57-69 | `substringToIndex(i) + substringFromIndex(i)` is the string |
| Strings.DescribeStrings | src/Functions.Strings.swift:72-75 | `describe` with each string formatted as itself; its text is the contract of `DescribeStringsLines` |
| Strings.DescribeStringsLines | src/Functions.Strings.swift:72-83 | an array of one-line strings is described by the lines "[", each string with four spaces in front and a comma after all but the last, and "]": count + 2 lines |
| Strings.Describe | src/Functions.Strings.swift:78-83 | "[\n", the elements formatted and indented joined by ",\n", and "\n]"; its lines are the contract of `DescribeLines` |
| Strings.JoinCommaNewline | src/Functions.Strings.swift:80-81 | joining with ",\n" puts a comma after every entry but the last and a newline between entries |
| Strings.DescribeEmpty | src/Functions.Strings.swift:80-82 | an empty array is described as "[\n\n]" |
| Strings.DescribeBody | src/Functions.Strings.swift:78-83 | for single-line elements, the description is "[\n", the indented entries with commas joined by newlines, and "\n]" |
| Strings.DescribeLines | src/Functions.Strings.swift:78-83 | for single-line elements the lines are "[", one indented entry per element in order with a comma after all but the last, and "]" |
| Strings.DescribeFramedLines | src/Functions.Strings.swift:78-83 | the same, with text before and after the description joining the bracket lines |
| Strings.Indent | src/Functions.Strings.swift:107-113 | the lines split on "\n", each prefixed with four spaces, joined with "\n"; its lines are the contract of `IndentLines` |
| Strings.IndentSingleLine | src/Functions.Strings.swift:107-113 | a single line is indented by four spaces in front of it |
| Strings.IndentLines | src/Functions.Strings.swift:107-113 | the lines of the indented text are the lines of the text, each with four spaces in front, in order |
| Strings.Commas | src/Functions.Strings.swift:80-81 | as many entries as given; each but the last ends in a comma |
| Apply.ApplyOptional | src/Operators.apply.swift:18-27 | a nil function gives nil; a present function gives nil for nil and `Some(g(v))` for `Some(v)` |
| Apply.ApplyResult | src/Operators.apply.swift:30-35 | a failing function gives its own failure, without looking at the argument; a succeeding function gives the argument's failure or `Success(fn(a))` |
| Apply.ApplyIdentity | src/Operators.apply.swift:18-35 | applying the identity changes nothing, for optionals and for results |
| Apply.ApplyHomomorphism | src/Operators.apply.swift:18-35 | applying a present function to a present value is plain application |
| Apply.ApplyResultAgreesWithOptional | src/Operators.apply.swift:18-35 | the result form succeeds exactly when both operands succeed, and then agrees with the optional form |

## Left out

- Funky is Swift code built on Foundation. Text Foundation generates is a parameter of the model. When a cause has no description of its own, its `localizedDescription` comes from the parameter `fallback`.
- Errors.ErrorIO.LocalizedDescription: only its shape is proved (`LocalizedDescriptionLines`), and only for causes that describe themselves in one line. A multi-line message is indented line by line, and `IndentLines` covers that case, but it is not restated for the whole description.
- `__FILE__` and `__LINE__` defaults become parameters the caller must pass:
  - Errors.ErrorIO.DefaultError and Errors.ErrorIO.DefaultErrorAt take `file` and `line` (src/ErrorIO.swift:61, 70).
  - Coalescing.FailureFromMessage takes `file` and `line` (src/Functions.ErrorIO.swift:45).
  - Keypaths.SetValueForKeypath takes `file`; its `__LINE__` is the literal source line of the failing call.
- Strings.Lines, Strings.Indent, Strings.SubstringFromIndex and Strings.SubstringToIndex split and count Unicode scalars, not Swift `Character`s (extended grapheme clusters). The two differ for clusters of several scalars: Swift's `lines("a\r\nb")` is one line, because "\r\n" is one `Character`, and `substringFromIndex(1)` of "e\u{301}x" is "x"; the model gives two lines and "\u{301}x".
- Swift's `Int` is modelled as Dafny's unbounded `int`. No function in the core wraps around.
- Swift traps that the source places on its callers are `requires` clauses:
  - the keypath precondition (src/Functions.Functional.swift:1130);
  - the subscript of `ErrorIO` outside `startIndex ..< endIndex`;
  - `tail` of an empty collection, and `tail(n)` past the end;
  - a substring index past the end;
  - `mapEveryNth` with `n == 0` on a non-empty collection (on an empty one the test is never evaluated, and the model allows it).
- The `default` case of `setValueForKeypath` (src/Functions.Functional.swift:1154-1155) cannot be reached once the precondition holds, so it has no counterpart in the model.
- Functional.Unfold: the Swift loop may run forever. The model requires a measure that every step of the closure decreases, so it covers only closures that stop.
- Functional.PartitionIsFilters: the library's concrete evens/odds test (FunkyTests/Functions.FunctionalTests.swift:28-35) is an instance of the general lemma and is not proved separately.
- The zip test (FunkyTests/Functions.FunctionalTests.swift:37-47) likewise is an instance of `ZipSeq`'s contract.
- Keypaths.SetValueForKeypath: keys are strings and values are `Leaf | Dict`, in place of generic `K`/`V` and `AnyObject` casts. The `.map` on the recursive result is written as a match on that result.
- Keypaths.ValueForKeypath: it states when a lookup can succeed. What `SetValueForKeypath` writes is read back through it.
- `reserveCapacity` only changes storage, not contents. `reducer` is `Reduce`, Swift's left fold, and has no contract of its own.
- `equal` on two tuples (src/Functions.Functional.swift:104-108) is a one-line comparison, and it is left out.
- `id`, `toArray`/`toSet`, `zip2`/`zip3`, `curry`/`currySwap`, `doEach`/`doSide*`, `selectArray`, `mapTo`, `mapToDictionaryKeys`, `zipMap`/`zipFilter`, `splitOn`/`joinWith` and `takeLeft`/`takeRight`/`makeLeft`/`makeRight`: these are side-effect hooks or one-line wrappers, and they are left out.
- `unique`, `pairs`, `mapLeft`/`mapRight` and `mapKeys`/`mapValues` over dictionaries depend on Swift's unspecified dictionary order, and they are left out.
- `stringify` is modelled only on strings (`DescribeStrings`). For other types it is Swift's reflection and interpolation of arbitrary values.
- `dumpString`, `pad`/`padr`/`padToSameLength`/`padKeysToSameLength`, `describe` of dictionaries, `basename`/`extname`/`dirname` and the `rgba` parsers are Foundation padding, path, scanner and regular-expression code, and they are not part of this model.
- Functions.Lazy.swift wraps Swift's lazy views, and its point is deferred evaluation. NSError+Coalescing.swift is entirely commented out. The regular-expression tests exercise an API outside these files. None of these are part of this model.

## Findings

| source | as written | input that shows it | evidently intended | confidence | as-written member | corrected member |
|---|---|---|---|---|---|---|
| src/Functions.ErrorIO.swift:35-39 | only the aggregate's cause count is checked before forcing every value out | `[(failure(ErrorIO()), success(0))]`: no cause, yet the left side has no value | Failure whenever some side failed | not executed | Coalescing.Coalesce2TrapsOnEmptyFailure | Coalescing.Coalesce2 |
| src/Functions.Functional.swift:1089 | the tail range `1 ..< count` is formed before the emptiness check | `decompose([])` forms `1 ..< 0` and traps | nil for an empty array | not executed | Functional.DecomposeEmptyTraps | Functional.Decompose |
| src/Functions.Functional.swift:1056-1069 | `maybeIndex` is never set to nil, so after the last element the loop reads `domain[endIndex]` | `findWhere([], p)` or any input with no match traps | nil when nothing matches | not executed | Functional.FindWhereAsWritten | Functional.FindWhere |
| src/Functions.Functional.swift:613-619 | the `.Some` case returns true | `isNil(Optional.Some(1))` is true | true exactly for nil | not executed | Functional.IsNilAsWrittenAgreesWithNonNil | Functional.IsNil |
| src/Functions.Functional.swift:326-327 | `range.endIndex` is tested against the half-open interval of valid indices | `contains([1, 2, 3], 0 ..< 3)` is false | true for a range of valid indices | not executed | Functional.ContainsRejectsWholeRange | Functional.Contains |
