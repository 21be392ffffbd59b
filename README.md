# phpunit-custom-assertions: a Dafny model

A model of the comparison and matching logic in the PHPUnit assertion
library `AntonioPrimera/phpunit-custom-assertions`. It covers three pieces:

- **ListsAreSameConstraint.** This constraint decides whether two lists hold
  the same items.
  - Items under string keys must match key by key.
  - Items under integer keys may come in any order. Each expected item is
    matched greedily with the first equal item left in a scratch copy of the
    actual list. That item is then spliced out of the scratch copy.
  - Item equality has a rule per kind of value: null, scalars (`===` in
    strict mode, PHP 8 `==` otherwise), Eloquent models (`is`), nested lists
    (recursion), objects (class, and in strict mode identity), resources and
    callables.
  - Any other value throws ListComparisonException. So do a side that is not
    a list and a difference in item count. `matches` catches the exception,
    logs its reason in `differences` and answers false.
- **FileContainsStringConstraint.** This constraint checks whether a file's
  contents, passed through an optional processor, contain every expected
  string (`strpos`). In exact mode it checks instead that the contents equal
  the first expected string. It records the strings it did not find.
- **`FileAssertions::removeWhiteSpaces`.** The processor that deletes tabs,
  spaces and newlines.

Modules:

| file | module | what |
|---|---|---|
| Wrappers.dfy | Wrappers | `Option` |
| Values.dfy | Values | PHP values as the comparison sees them, `gettype`, loose `==`, the split into integer-keyed and string-keyed items |
| ListEquality.dfy | ListEquality | the comparison as mutually recursive functions. A ListComparisonException is the `Err` outcome. |
| ListEqualityProperties.dfy | ListEqualityProperties | what the comparison guarantees, what it does not, and the unit tests' comparisons |
| ListsAreSameConstraint.dfy | ListsAreSame | the loops of the source as methods, each proved to compute its function, and the constraint class |
| FileContainsStringConstraint.dfy | FileContainsString | the verdict function and the constraint class with its `fileExists` and `missingStrings` state |
| FileContainsStringProperties.dfy | FileContainsStringProperties | the filter of missing strings, both matching modes, the unit tests |
| FileAssertions.dfy | FileAssertions | `removeWhiteSpaces` against a one-pass reference |

The engine functions take a `NestedMismatch` policy:

- `Abort` is the code as written. An exception from comparing against a
  nested list escapes the search.
- `TryNext` is the corrected behaviour. A failed nested comparison only
  passes over that candidate.

The constraint class uses `Abort`, as the source does. The general lemmas
hold for both policies.

## Model

| member | source | states |
|---|---|---|
| Values.TypeName | src/Constraints/ListsAreSameConstraint.php:56 | for the values that reach line 56 (not iterable, not Arrayable), `gettype` names exactly the models and other objects "object"; a `Container` is named "array", as `gettype` names a PHP array |
| Values.LooseEquals | src/Constraints/ListsAreSameConstraint.php:151 | two integers or two booleans are loosely equal exactly when identical, and so are two strings of which one is not numeric |
| Values.Lookup | src/Constraints/ListsAreSameConstraint.php:89-94 | `has($key)` succeeds exactly when the key is among the list's keys |
| Values.IndexedPart | src/Constraints/ListsAreSameConstraint.php:70-72 | the integer-keyed part never has more items than the list |
| Values.AssocPart | src/Constraints/ListsAreSameConstraint.php:70-76 | every key of the string-keyed part is a string |
| Values.PartitionSizes | src/Constraints/ListsAreSameConstraint.php:70-76 | `partition` by `is_int($key)` loses and duplicates no item: the two parts' sizes add up to the list's |
| Values.AssocPartKeys | src/Constraints/ListsAreSameConstraint.php:70-76 | the string-keyed part's keys are keys of the list, still distinct |
| Values.PartMembers | src/Constraints/ListsAreSameConstraint.php:70-76 | every item of either part comes from the list |
| Values.DistinctKeysCount | src/Constraints/ListsAreSameConstraint.php:62-67 | a PHP array's distinct keys are as many as its items, so `count()` counts keys |
| Values.LookupFindsPair | src/Constraints/ListsAreSameConstraint.php:94 | `get($key)` returns the item stored under that key |
| ListEquality.IsCollectable | src/Constraints/ListsAreSameConstraint.php:187-191 | a value is a list exactly when it is a `Container`, which stands for arrays and Collections (the model names every `Container` "array"; `gettype` of a Collection is "object"), and no scalar is one |
| ListEquality.ObjectsEqual | src/Constraints/ListsAreSameConstraint.php:202-207 | equal objects are both objects; without strictness two plain objects are equal exactly when their classes are; with it, only the same instance is equal |
| ListEquality.ResourcesEqual | src/Constraints/ListsAreSameConstraint.php:219-223 | true exactly when both sides are open resources |
| ListEquality.CallablesEqual | src/Constraints/ListsAreSameConstraint.php:234-238 | any two closures are equal; with `is_callable` narrowed to closures (see "Left out"), no scalar or list passes this rule |
| ListEquality.ItemsEqual | src/Constraints/ListsAreSameConstraint.php:142-175 | `itemsAreEqual` throws only for a nested list or for a value no rule covers |
| ListEquality.ListsEqual | src/Constraints/ListsAreSameConstraint.php:49-81 | `listsEqual` returns true or throws, never false |
| ListEquality.AssocEqual | src/Constraints/ListsAreSameConstraint.php:86-103 | `associativeCollectionsEqual` returns true or throws |
| ListEquality.IndexedMatch | src/Constraints/ListsAreSameConstraint.php:108-128 | `indexedCollectionsEqual` returns true or throws; true needs at least as many candidates as expected items |
| ListEquality.RemoveAt | src/Constraints/ListsAreSameConstraint.php:124 | `splice($key, 1)` removes exactly the item at that position and keeps the others in their order |
| ListEquality.Search | src/Constraints/ListsAreSameConstraint.php:113-115 | a found position holds an equal candidate; an exception escapes only as the policy allows |
| ListEqualityProperties.ScalarItemRules | src/Constraints/ListsAreSameConstraint.php:144-152 | null equals only null; two scalars compare by `===` or by PHP 8 `==`; a scalar never equals a non-scalar |
| ListEqualityProperties.OtherItemRules | src/Constraints/ListsAreSameConstraint.php:155-175 | models by `is`, lists by recursion, objects by class (and id when strict), resources and callables by kind, anything else throws |
| ListEqualityProperties.StrictScalarsAreLooselyEqual | src/Constraints/ListsAreSameConstraint.php:147-152 | strict equality of scalars is identity and implies loose equality |
| ListEqualityProperties.LooseReflexive | src/Constraints/ListsAreSameConstraint.php:151 | every scalar loosely equals itself |
| ListEqualityProperties.LooseSymmetric | src/Constraints/ListsAreSameConstraint.php:151 | loose equality does not depend on the side |
| ListEqualityProperties.TestedLooseCases | tests/Unit/ArrayAssertionsTest.php:115-129 | the loose comparisons of numeric strings and booleans the tests rely on |
| ListEqualityProperties.LooseNotTransitive | src/Constraints/ListsAreSameConstraint.php:151 | `true == "x"` and `true == 1` but `"x" != 1` |
| ListEqualityProperties.ListsEqualGuards | src/Constraints/ListsAreSameConstraint.php:51-67 | non-list expected, non-list actual (with its `gettype`) and count mismatch each throw their own error, whatever the strictness |
| ListEqualityProperties.SearchScansInOrder | src/Constraints/ListsAreSameConstraint.php:113-115 | the search stops at the first equal candidate or at the first escaping exception, and every candidate before it was passed over |
| ListEqualityProperties.SkippedBeforeFound | src/Constraints/ListsAreSameConstraint.php:113-115 | every candidate before the one found was passed over |
| ListEqualityProperties.SkippedWhenAbsent | src/Constraints/ListsAreSameConstraint.php:113-115 | when nothing is found, every candidate was passed over |
| ListEqualityProperties.SkippedBeforeRaised | src/Constraints/ListsAreSameConstraint.php:113-115 | an escaping exception comes from some candidate, and every candidate before it was passed over |
| ListEqualityProperties.TryNextSearchIsComplete | src/Constraints/ListsAreSameConstraint.php:113-121 | corrected: a nested list is reported missing exactly when no candidate equals it |
| ListEqualityProperties.AbortSearchMissesLaterMatch | src/Constraints/ListsAreSameConstraint.php:113-115 | as written: `[1]` is not found among `[[2], [1]]` although the second candidate equals it |
| ListEqualityProperties.AssocEqualIff | src/Constraints/ListsAreSameConstraint.php:86-103 | the string-keyed parts match exactly when every expected key is present with an equal item |
| ListEqualityProperties.AssocStopsAtFirstFailure | src/Constraints/ListsAreSameConstraint.php:88-99 | the first key that fails decides the error; later keys are not looked at |
| ListEqualityProperties.IndexedMatchPairs | src/Constraints/ListsAreSameConstraint.php:108-128 | a success pairs each expected item with an equal candidate, using no candidate twice |
| ListEqualityProperties.PickedItems | src/Constraints/ListsAreSameConstraint.php:111-125 | constructs that pairing from the search results and splices |
| ListEqualityProperties.IndexedMatchTakes | src/Constraints/ListsAreSameConstraint.php:113-124 | a success found the first expected item and matched the rest against the scratch list without that item |
| ListEqualityProperties.ListsEqualSound | src/Constraints/ListsAreSameConstraint.php:49-81 | equal lists have the same string keys with equal items, and their integer-keyed items pair one to one; an extra actual key is never let through |
| ListEqualityProperties.ListsEqualSucceeded | src/Constraints/ListsAreSameConstraint.php:49-81 | a success passed both guards, the count check and both part comparisons |
| ListEqualityProperties.PartsBalance | src/Constraints/ListsAreSameConstraint.php:62-80 | with equal counts, covered string keys and enough integer-keyed candidates, both parts have the same size |
| ListEqualityProperties.IndexedMatchSelf | src/Constraints/ListsAreSameConstraint.php:108-128 | a list of self-equal items matches itself |
| ListEqualityProperties.ItemsEqualReflexive | src/Constraints/ListsAreSameConstraint.php:142-175 | every value without a closed resource, with distinct keys, equals itself in either mode |
| ListEqualityProperties.ListLiterals | src/Constraints/ListsAreSameConstraint.php:59-80 | two list literals of equal length compare as their indexed match |
| ListEqualityProperties.FlatListsTest | tests/Unit/ArrayAssertionsTest.php:23-35 | two flat string lists are equal in any order; a different string fails on `item2` |
| ListEqualityProperties.ClosuresTest | tests/Unit/ArrayAssertionsTest.php:77-86 | `[c1, c2]` equals `[c2, c3]` for three different closures; `[c1, c2]` against `[1, c2]` fails on `c2` |
| ListEqualityProperties.ClosuresInCollectionTest | tests/Unit/ArrayAssertionsTest.php:72-75 | `[1, 'abc', c1]` equals the Collection `[c2, 1, 'abc']` |
| ListEqualityProperties.CollectionsTest | tests/Unit/ArrayAssertionsTest.php:144-152 | two Collections with `1`, `false` and `['ab', 'cd']` in different orders are equal in both modes |
| ListEqualityProperties.NumericStringsTest | tests/Unit/ArrayAssertionsTest.php:115-121 | `['0', 1]` equals `['1', 0]` only in loose mode |
| ListEqualityProperties.BooleansTest | tests/Unit/ArrayAssertionsTest.php:123-129 | `[0, 1]` equals `[true, false]` only in loose mode |
| ListEqualityProperties.ObjectsTest | tests/Unit/ArrayAssertionsTest.php:131-142 | two objects of one class are equal loosely but not strictly |
| ListEqualityProperties.ModelsTest | tests/Unit/ArrayAssertionsTest.php:154-170 | models with the same id are equal in both modes |
| ListEqualityProperties.OneIsNotTwo | src/Constraints/ListsAreSameConstraint.php:118-121 | `[1]` against `[2]` throws "item missing" for `1` |
| ListEqualityProperties.SingletonEqualsItself | src/Constraints/ListsAreSameConstraint.php:108-128 | `[n]` equals `[n]` under both policies |
| ListEqualityProperties.NestedListsOutOfOrderAsWritten | src/Constraints/ListsAreSameConstraint.php:113-115 | as written: `[[1], [2]]` against `[[2], [1]]` fails with "item missing: 1" |
| ListEqualityProperties.NestedListsOutOfOrderCorrected | src/Constraints/ListsAreSameConstraint.php:113-115 | corrected: the same lists are equal |
| ListEqualityProperties.NestedListBeforeScalarAsWritten | src/Constraints/ListsAreSameConstraint.php:113-115 | as written: `[[1], 5]` against `[5, [1]]` fails because `5` is not a list |
| ListEqualityProperties.NestedListBeforeScalarCorrected | src/Constraints/ListsAreSameConstraint.php:113-115 | corrected: the same lists are equal |
| ListEqualityProperties.ActualOrderMatters | src/Constraints/ListsAreSameConstraint.php:108-128 | the greedy match depends on the actual order: `[true, "x"]` equals `[1, "x"]` but not `["x", 1]` |
| ListEqualityProperties.StrictDoesNotImplyLoose | src/Constraints/ListsAreSameConstraint.php:108-128 | `[true, 1, "x"]` equals `["x", true, 1]` strictly but not loosely |
| ListsAreSame.SearchScratch | src/Constraints/ListsAreSameConstraint.php:113-115 | the loop computes `Search` from the first candidate |
| ListsAreSame.IndexedCollectionsEqual | src/Constraints/ListsAreSameConstraint.php:108-128 | the loop with its shrinking scratch copy computes `IndexedMatch` |
| ListsAreSame.AssociativeCollectionsEqual | src/Constraints/ListsAreSameConstraint.php:86-103 | the loop computes `AssocEqual` |
| ListsAreSame.CompareLists | src/Constraints/ListsAreSameConstraint.php:49-81 | computes `ListsEqual` with the as-written policy or the corrected one |
| ListsAreSame.ListsAreSameConstraint.constructor | src/Constraints/ListsAreSameConstraint.php:14-22 | keeps the expected list and the strictness, no differences yet |
| ListsAreSame.ListsAreSameConstraint.Matches | src/Constraints/ListsAreSameConstraint.php:24-32 | true exactly when the lists compare equal; otherwise exactly one reason is appended to `differences` |
| FileContainsString.Occurs | src/Constraints/FileContainsStringConstraint.php:47 | `strpos` finds no needle longer than the text, and finds every string in itself |
| FileContainsString.Check | src/Constraints/FileContainsStringConstraint.php:30-51 | a missing file fails; holding needs the file and every processed string; exact mode holds only with an expected string (the full rule: `CheckFailures`, `ContainsModeIff`, `ExactModeIff`) |
| FileContainsString.ProcessString | src/Constraints/FileContainsStringConstraint.php:74-84 | no processor: the string itself; a processor: its result when that is a string, else the InvalidArgumentException |
| FileContainsString.ProcessAll | src/Constraints/FileContainsStringConstraint.php:38-41 | succeeds exactly when every string processes, and then holds each processed string in place |
| FileContainsString.Missing | src/Constraints/FileContainsStringConstraint.php:46-48 | the filter keeps no more strings than it was given |
| FileContainsString.FirstOnly | src/Constraints/FileContainsStringConstraint.php:88-91 | `collect($string)` of the first processed string: that string, or empty when there is none |
| FileContainsString.FileContainsStringConstraint.constructor | src/Constraints/FileContainsStringConstraint.php:23-28 | keeps the mode and the processor |
| FileContainsString.FileContainsStringConstraint.Matches | src/Constraints/FileContainsStringConstraint.php:30-51 | the verdict is `Check`; `fileExists` is set; `missingStrings` is set per mode, or untouched when the file is missing or the processor fails |
| FileContainsString.FileContainsStringConstraint.MatchExactly | src/Constraints/FileContainsStringConstraint.php:86-96 | true exactly when the first processed string is the contents; otherwise that string is the one missing string |
| FileContainsStringProperties.EmptyStringOccurs | src/Constraints/FileContainsStringConstraint.php:47 | PHP 8 `strpos` finds the empty string in any text |
| FileContainsStringProperties.SingleCharacterOccurs | src/Constraints/FileContainsStringConstraint.php:47 | a one-character string occurs exactly when the character does |
| FileContainsStringProperties.OccursBetween | src/Constraints/FileContainsStringConstraint.php:47 | a string occurs in any text that contains it between two pieces |
| FileContainsStringProperties.MissingMembers | src/Constraints/FileContainsStringConstraint.php:46-48 | a string is missing exactly when it is expected and does not occur |
| FileContainsStringProperties.MissingAppend | src/Constraints/FileContainsStringConstraint.php:46-48 | the filter keeps the strings' order |
| FileContainsStringProperties.NothingMissingIff | src/Constraints/FileContainsStringConstraint.php:46-50 | nothing is missing exactly when every string occurs |
| FileContainsStringProperties.NoProcessorKeepsStrings | src/Constraints/FileContainsStringConstraint.php:76-78 | without a processor the strings are compared as given |
| FileContainsStringProperties.CheckFailures | src/Constraints/FileContainsStringConstraint.php:32-41 | a missing file fails; the processor's exception escapes exactly when it returns a non-string for the contents or for some expected string |
| FileContainsStringProperties.ContainsModeIff | src/Constraints/FileContainsStringConstraint.php:37-50 | contains mode holds exactly when the file exists, everything processes and every processed string occurs in the processed contents |
| FileContainsStringProperties.ExactModeIff | src/Constraints/FileContainsStringConstraint.php:43-44 | exact mode holds exactly when the file exists, everything processes and the first processed string is the processed contents |
| FileContainsStringProperties.ContainsTest | tests/Unit/FileAssertionsTest.php:86-104 | a line of the file is found wherever it sits; `['|', line]` fails, with only `'|'` missing |
| FileContainsStringProperties.OccursInSuffix | src/Constraints/FileContainsStringConstraint.php:47 | a string found in a text is still found with anything put in front of the text |
| FileContainsStringProperties.OccursInPrefix | src/Constraints/FileContainsStringConstraint.php:47 | a string found in a text is still found with anything put after the text |
| FileContainsStringProperties.OccursAcrossLineBreak | src/Constraints/FileContainsStringConstraint.php:47 | a string without a line break that is found in two lines joined by one is found in one of the two lines |
| FileContainsStringProperties.LineBreakInside | src/Constraints/FileContainsStringConstraint.php:47 | an occurrence that starts before a line break and ends after it holds that line break |
| FileContainsStringProperties.OccurrenceCharacters | src/Constraints/FileContainsStringConstraint.php:47 | every character of a string that is found is a character of the text |
| FileContainsStringProperties.SampleFileContainsAll | tests/Unit/FileAssertionsTest.php:74-95 | in the seven-line sample file `"\n}"`, the namespace line with its line break, `'class MyClass'` and `'FileAssert'` are all found, so the check holds |
| FileContainsStringProperties.SampleFileLacksTrailingBlank | tests/Unit/FileAssertionsTest.php:55-70 | `"class MyClass "` with its trailing blank is not found in the sample file, so the check fails |
| FileContainsStringProperties.ExactTest | tests/Unit/FileAssertionsTest.php:30-38 | without a processor exact mode demands every blank |
| FileAssertions.Delete | src/FileAssertions.php:62 | `str_replace` of one character never lengthens the string |
| FileAssertions.RemoveWhiteSpaces | src/FileAssertions.php:59-64 | the result is the one-pass reference `KeepVisible`: every character other than tab, space and newline, in order; so it is no longer than the string, holds none of the three, and only characters of the string |
| FileAssertions.DeletionsKeepVisible | src/FileAssertions.php:62 | deleting tabs, then spaces, then newlines equals one pass that keeps every other character |
| FileAssertions.OtherCharactersKept | src/FileAssertions.php:59-64 | removal distributes over concatenation and keeps every other character in order |
| FileAssertions.UnchangedWithoutWhiteSpace | src/FileAssertions.php:59-64 | a string without those characters is returned unchanged |
| FileAssertions.Idempotent | src/FileAssertions.php:59-64 | removing twice is removing once |
| FileAssertions.OthersCounted | src/FileAssertions.php:59-64 | every other character, carriage return included, keeps its count |
| FileAssertions.CarriageReturnKept | src/FileAssertions.php:62 | `"a \t\r\nb"` becomes `"a\rb"` |

## Left out

- Eloquent models are the `Entity` value, compared by id alone. The model
  does not treat them as lists: `Arrayable` detection (line 190) is not
  modelled. A model given where a list is expected is therefore "not a list".
  Inside lists, models are compared first, as at lines 154-157.
- Iterables that are not Enumerable (an ArrayObject, a Generator) are not
  modelled. `Collection::wrap` does not convert them: the source wraps such
  an object as a one-item list holding the object itself, so comparing two
  of them recurses through `listsEqual` without end.
- `Collection::wrap`, `partition`, `has`, `get`, `search` and `splice` are
  Laravel code outside this repository. They are modelled by their
  documented behaviour on an ordered list of key/item pairs with distinct
  keys.
  - The model assumes each list's integer keys are 0, 1, 2, ... in order.
    For other integer keys the source splices by key and the model by
    position. `partition` keeps the original keys, so `search` returns a
    key, and `splice` reads it as an offset until the first splice
    renumbers the copy. Expected `['b', 'b']` against actual
    `[5 => 'a', 6 => 'b']` is equal in the source (`splice(6, 1)` removes
    nothing, so `'b'` is found twice), but the model reports `'b'` missing.
- PHP 8 `==` is modelled for booleans, integers and decimal-integer strings
  (an optional `-` and digits). Not modelled:
  - floats, and numeric strings with a fraction or an exponent;
  - numeric strings with a leading `+` or with leading or trailing
    whitespace: `1 == "+1"`, `1 == "1 "` and `"1" == "+1"` are true in PHP 8
    and false in the model;
  - integer overflow: PHP compares `9223372036854775807 ==
    "9223372036854775808"` as floats and gets true, while the model's
    unbounded integers differ;
  - `null` against scalars, which has its own rule anyway.
- Callables take the branch PHP takes for them: a closure or an invokable
  object is an object (the object rule), a string callable is a string (the
  scalar rule) and an array callable is a list (the list rule). The
  `_callablesEqual` branch (line 169) is then unreachable in PHP; the model
  keeps it through the `Callable` value, which stands for no PHP value.
- ListEquality.CallablesEqual: `is_callable` (line 237) is narrowed to
  closures and the `Callable` value. PHP also accepts string callables such
  as `"strlen"`, `[$obj, 'method']` arrays and invokable objects, but which
  strings and arrays name a function depends on what is defined when the
  program runs. So `_callablesEqual(Callable, "strlen")` is false in the
  model where PHP would say true. No PHP value reaches line 169, so no
  comparison the source can make is affected.
- Not modelled: message texts, `Exporter`, `json_encode`,
  `comparisonErrorMessage`, `toString` and `failureDescription`. Errors are
  kept as structured `Failure` values carrying the same data.
- File I/O is a parameter: `file_exists` and `file_get_contents` become the
  contents, or None for a missing file. `filePath` is not modelled.
- Non-string expected values are not modelled. `Collection::wrap` of a
  single string becomes a one-element list.
- The processor is a total function from a string to a string or to a
  non-string. Side effects are not modelled, and neither are processors that
  throw.
- FilesExistConstraint, FoldersExistConstraint, BaseAssertions and the
  `assert...` wrappers are not part of this model.
- ListsAreSame.CompareLists: the loops call the pure `ItemsEqual` for each
  item pair, rather than a method recursing through `CompareLists`.
- Unit tests not replayed:
  - the processor tests (FileAssertionsTest.php:40-52, 107-121), since they
    need concrete string replacement over long literals;
  - the deep and mixed list tests (ArrayAssertionsTest.php:16-20, 37-63);
  - the class test (ArrayAssertionsTest.php:89-113).

  The rules those tests exercise are proved generally.
- Permutation invariance does not hold, because loose `==` is not
  transitive and the match is greedy. It is refuted by
  `ActualOrderMatters` and `StrictDoesNotImplyLoose` rather than proved.

## Findings

| source | as written | input that shows it | evidently intended | confidence | as-written member | corrected member |
|---|---|---|---|---|---|---|
| src/Constraints/ListsAreSameConstraint.php:113-115 | the search callback calls `itemsAreEqual`. For a nested expected list, a candidate that differs throws ListComparisonException, and the exception escapes `search` and fails the whole comparison. | `[[1], [2]]` against `[[2], [1]]`, and `[[1], 5]` against `[5, [1]]` | integer-keyed items may come in any order: a differing candidate list only means "not this one" | high; not executed | ListEqualityProperties.NestedListsOutOfOrderAsWritten | ListEqualityProperties.NestedListsOutOfOrderCorrected |
