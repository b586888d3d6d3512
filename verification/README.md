# go_oreilly core, modelled in Dafny

This project models the small, self-contained pieces of logic in the
`go_oreilly` tutorial repository, one Dafny module per Go source file:

- TypesAndMethods: the unbalanced binary search tree `IntTree` (Insert and
  Contains, nil being the empty tree) and `Person.UpdateAge`.
- League: the win table of a league. It covers `NewLeague`, `MatchResult`
  and `Ranking`.
- DirectionStringer: the `String` method that `stringer` generates for
  `Direction`, with its name string and offset table.
- UserStore: `NewSimpleDataStore` keys names by `strconv.Itoa` of their
  position, and `UserNameForID` looks them up.
- MultipleErrors: `Person.Validate`, which joins one error per empty field.
- StatusErrors: `StatusErr` with `Error` and `Unwrap`, and
  `LoginAndGetData`. The `login` and `getData` collaborators are parameters;
  the program's stubs are two of the possible arguments.
- Functions: the chapter-five functions `addTo`, `div`, `divAndRemainder`,
  `divAndRemainderNamedReturnValues`, `returningFunctionFromAFunction`,
  `f1`, `modSlice` and `modMap`.
- Calculator: `oneSimpleCalculator` and `prefixer`.
- ErrorsIntro: `calcRemainderAndMod`.
- Pointers: `MakePerson`, `MakePersonPointer`, `UpdateSlice`, `GrowSlice`
  and the `two` exercise.
- SyncOnce: `SCPI.Parse` and the package-level `Parse`, which builds its
  parser once behind a `sync.Once`.

Three shared modules carry the Go semantics the others rely on:

- `GoInt` models `int` as a 64-bit two's-complement integer.
  - `Wrap64` performs the wrap-around explicitly.
  - `Quo` and `Rem` are Go's `/` and `%`, which truncate toward zero.
  - `IsTruncDivision` is the division rule from the Go language
    specification. It is the reference these operators are proved against.
- `Decimal` covers `strconv.Itoa` / `strconv.FormatInt(_, 10)` and a parser
  that inverts them.
- `GoTypes` provides `Option`, `byte` and the UTF-8 encoding of a string.
  Go's `len` and slicing on strings count bytes.

Go code that mutates through pointers is modelled with values. The tree,
the league and the global `sync.Once` state become functions from the old
value to the new one. No tree node or league map is ever shared, so the
observable meaning is the same. Slices whose element writes are visible to
the caller are Dafny arrays.

## Model

| member | source | states |
|---|---|---|
| TypesAndMethods.UpdateAge | ch7_types_methods_interfaces/main.go:19-21 | The age becomes the new age; first and last name are unchanged |
| TypesAndMethods.UpdateAgeLastWins | ch7_types_methods_interfaces/main.go:19-21 | Two updates equal the last one alone; setting the current age is a no-op |
| TypesAndMethods.Insert | ch7_types_methods_interfaces/main.go:32-42 | Nil becomes a single leaf; the element set gains exactly the new value; the search-tree ordering is preserved |
| TypesAndMethods.Contains | ch7_types_methods_interfaces/main.go:44-55 | False on nil; on a search tree, true exactly when the value is stored |
| TypesAndMethods.InsertPresentIsNoOp | ch7_types_methods_interfaces/main.go:36-41 | Inserting a value already in a search tree returns the same tree, so there are no duplicates |
| TypesAndMethods.InsertSize | ch7_types_methods_interfaces/main.go:32-42 | Insert adds one node for a new value and none for a present one |
| TypesAndMethods.InsertThenContains | ch7_types_methods_interfaces/main.go:32-55 | After inserting v, Contains finds v and otherwise answers as before |
| TypesAndMethods.SampleTree | ch7_types_methods_interfaces/main.go:88-92 | Inserting 5, 3, 10, 2 into nil gives a search tree holding exactly those values |
| TypesAndMethods.SampleQueries | ch7_types_methods_interfaces/main.go:93-94 | On that tree, Contains(2) is true and Contains(12) is false |
| League.ZeroWins | ch7_exercises/one/main.go:67-71 | The construction loop's table has exactly the team names as keys, each mapped to zero |
| League.NewLeague | ch7_exercises/one/main.go:66-77 | The team list is kept as given; the table maps exactly the team names to zero |
| League.Winner | ch7_exercises/one/main.go:38-42 | Team one wins only on a strictly higher score; a draw credits team two |
| League.MatchResult | ch7_exercises/one/main.go:35-50 | The winner gets one more win, an absent name counting as zero; every other entry and the team list are unchanged |
| League.MatchResultAddsOneWin | ch7_exercises/one/main.go:44-49 | Each match result raises the total of all wins by exactly one |
| League.TotalWinsCountsMatches | ch7_exercises/one/main.go:35-50 | After NewLeague and any sequence of results, the wins add up to the number of results |
| League.TotalWinsSplit | ch7_exercises/one/main.go:44-49 | The total of a win table may be summed starting from any team |
| League.SampleSeason | ch7_exercises/one/main.go:79-91 | Results 3:1, 3:1, 3:5 leave cornholio with 2 wins and DukeNukem with 1 |
| League.Ranking | ch7_exercises/one/main.go:52-64 | One position per table entry, each name once with its own count, in non-increasing order of wins |
| League.RankingStep | ch7_exercises/one/main.go:56-61 | Appending a remaining team with the most wins keeps the ranking loop's invariant |
| League.MostWinsExists | ch7_exercises/one/main.go:59-61 | Every non-empty set of teams has one with the most wins, so the loop can always continue |
| League.SampleRankingIsForced | ch7_exercises/one/main.go:88-93 | For the sample season's table, the only valid ranking is cornholio then DukeNukem |
| DirectionStringer.IndexWellFormed | ch11_go_generate/direction_string.go:17-19 | The offset table starts at 0, strictly increases and ends at the name string's length, so every slice is in bounds |
| DirectionStringer.NameAt | ch11_go_generate/direction_string.go:17-19 | Slice i of the name string is the i-th declared name |
| DirectionStringer.String | ch11_go_generate/direction_string.go:21-27 | A value 1..4 prints its declared name; any other prints "Direction(" + its own decimal value + ")" |
| DirectionStringer.OffsetRestoresValue | ch11_go_generate/direction_string.go:22-24 | Decrementing and re-incrementing in int64 gives back the original value, even at MinInt64; the index is in range exactly for 1..4 |
| DirectionStringer.ConstantsPrintTheirNames | ch11_go_generate/main.go:13-19 | North, South, East and West (1..4) print "North", "South", "East", "West" |
| DirectionStringer.StringInjective | ch11_go_generate/direction_string.go:21-27 | Distinct directions, declared or not, print distinct strings |
| DirectionStringer.FallbackIsRecognisable | ch11_go_generate/direction_string.go:23-26 | A string starts with "Direction(" exactly when the value is not a declared constant |
| UserStore.IdsBelowStep | ch7_types_methods_interfaces/di/store.go:20-21 | The key of position n differs from every earlier key |
| UserStore.StoreStep | ch7_types_methods_interfaces/di/store.go:20-22 | One more loop iteration extends a store of the earlier names to a store of all of them |
| UserStore.NewSimpleDataStore | ch7_types_methods_interfaces/di/store.go:18-24 | The keys are the decimal positions; the store has one entry per name and maps position i to names[i], repeats included |
| UserStore.UserNameForID | ch7_types_methods_interfaces/di/store.go:13-16 | Found exactly when the ID is a key; then the stored name, otherwise "" |
| UserStore.LookupAfterBuild | ch7_types_methods_interfaces/di/store.go:13-24 | Looking up position i finds names[i]; any ID that is no position's decimal form is unknown |
| UserStore.EmptyStoreKnowsNoID | ch7_types_methods_interfaces/di/store.go:18-19 | A store built from no names answers ("", false) for every ID |
| MultipleErrors.Validate | ch9_errors/multiple_errors/main.go:14-29 | Nil exactly when both names are non-empty; one error per empty field, each present exactly when its field is empty, the first-name error first |
| MultipleErrors.ZeroPersonFailsTwice | ch9_errors/multiple_errors/main.go:31-35 | A zero-valued Person fails with both errors, joined on two lines |
| MultipleErrors.ValidateSeesOnlyEmptiness | ch9_errors/multiple_errors/main.go:17-23 | Two persons with the same empty fields validate the same |
| StatusErrors.ErrorText | ch9_errors/errors_as_values/main.go:22-24 | A StatusErr's text is its message, unchanged |
| StatusErrors.Unwrap | ch9_errors/errors_as_values/main.go:26-28 | A StatusErr unwraps to the error it wraps |
| StatusErrors.WrapRoundTrip | ch9_errors/errors_as_values/main.go:16-28 | Both the message and the cause can be read back from a wrapper |
| StatusErrors.InvalidCredentialsMessage | ch9_errors/errors_as_values/main.go:35 | The invalid-login message is "invalid credentials for user " followed by the user ID, nothing else |
| StatusErrors.NotFoundMessageAsWritten | ch9_errors/errors_as_values/main.go:43 | As written, the message has Go's missing-argument marker "%!s(MISSING)" where the file name belongs, and a fixed length of 27 whatever the file |
| StatusErrors.NotFoundMessage | ch9_errors/errors_as_values/main.go:43 | The intended message contains the file name at a fixed position |
| StatusErrors.NotFoundMessageNamesFile | ch9_errors/errors_as_values/main.go:43 | With the intended message, different files give different messages |
| StatusErrors.NotFoundMessageAsWrittenOmitsFile | ch9_errors/errors_as_values/main.go:43 | As written, every file gives the same message "file %!s(MISSING) not found" |
| StatusErrors.LoginAndGetData | ch9_errors/errors_as_values/main.go:30-48 | A failed login gives InvalidLogin wrapping the login error; a failed fetch after it gives NotFound wrapping the fetch error; success exactly when both succeed, returning the data |
| StatusErrors.LoginFailureIgnoresData | ch9_errors/errors_as_values/main.go:31-38 | When login fails, the data source has no influence on the outcome |
| StatusErrors.FailureUnwrapsToCause | ch9_errors/errors_as_values/main.go:30-48 | Every failure is a StatusErr whose status (1 or 2) names the failing step and whose Unwrap is that step's error |
| StatusErrors.StubLogin | ch9_errors/errors_as_values/main.go:54-56 | The stub login always fails |
| StatusErrors.StubGetData | ch9_errors/errors_as_values/main.go:50-52 | The stub getData always fails |
| StatusErrors.StubsAlwaysFailLogin | ch9_errors/errors_as_values/main.go:50-59 | With the stubs, every call fails with InvalidLogin wrapping "foobar" |
| GoInt.Wrap64 | ch5/functions.go:198 | The result is the one int64 value congruent to the mathematical value modulo 2^64, and equals it when it is in range |
| GoInt.TruncDivModSound | ch5/functions.go:214 | Quotient and remainder rounded toward zero satisfy Go's division rule |
| GoInt.TruncDivModUnique | ch5/functions.go:214 | Any pair satisfying Go's division rule is the truncated quotient and remainder |
| GoInt.TruncDivMagnitude | ch5/functions.go:207 | The quotient's magnitude is at most the dividend's, and at most half of it for a divisor of magnitude two or more |
| GoInt.Quo | ch5/functions.go:207 | Go's `/` on int64 is the truncated quotient, except MinInt64 / -1, which wraps to MinInt64 |
| GoInt.Rem | ch5/functions.go:214 | Go's `%` on int64 is the truncated remainder, smaller in magnitude than the divisor |
| GoInt.QuoRemIdentity | ch9_errors/intro/main.go:35 | q*b + r wraps back to a for every pair, and satisfies the division rule without wrapping except for MinInt64 / -1 |
| GoInt.QuoRemOfNonNegative | ch9_errors/intro/main.go:35 | On non-negative operands Go's `/` and `%` agree with floor division |
| Decimal.FormatNat | ch7_types_methods_interfaces/di/store.go:21 | The rendering is a non-empty string of digits with no leading zero ("0" alone for zero) |
| Decimal.FormatInt | ch11_go_generate/direction_string.go:24 | The rendering of a value is the rendering of its magnitude, preceded by "-" exactly when it is negative |
| Decimal.FormatIntCanonical | ch7_types_methods_interfaces/di/store.go:21 | A sign appears exactly for negative values, followed by digits with no leading zero, so "01", "-0" or "007" are never produced |
| Decimal.ParseFormatInt | ch11_go_generate/direction_string.go:24 | Parsing the decimal rendering gives back the original integer |
| Decimal.FormatIntInjective | ch7_types_methods_interfaces/di/store.go:21 | Distinct integers render as distinct strings |
| GoTypes.Utf8Length | ch5/functions.go:183-185 | A string's UTF-8 byte count is between its length and four times its length, equal to its length exactly for ASCII |
| GoTypes.Utf8OfAscii | ch12_concurrency/sync_once/main.go:38-39 | An ASCII string's bytes are its characters' codes |
| Functions.AddTo | ch5/functions.go:195-201 | One result per value, each the base plus that value in int64; no values give an empty result |
| Functions.Div | ch5/functions.go:203-208 | 0 for a zero denominator; otherwise the truncated quotient satisfying Go's division rule, wrapping only for MinInt64 / -1 |
| Functions.DivAndRemainder | ch5/functions.go:210-215 | (0, 0, error) for a zero denominator; otherwise q*d + r == num, with the remainder 0 or signed like num and smaller than d |
| Functions.DivAndRemainderNamedReturnValues | ch5/functions.go:217-223 | Agrees with DivAndRemainder on every input |
| Functions.ReturningFunctionFromAFunction | ch5/functions.go:159-163 | The closure multiplies its argument by the captured base in int64 |
| Functions.MultiplierSample | ch5/functions.go:65-67 | The closure over 7 applied to 12 gives 84; swapping base and factor gives the same product |
| Functions.F1 | ch5/functions.go:183-185 | `len` is the UTF-8 byte count, between the character count and four times it, equal to it exactly for ASCII |
| Functions.F1Sample | ch5/functions.go:183-185 | "Hello" has length 5 |
| Functions.ModSlice | ch5/functions.go:104-110 | Every element of the caller's array is doubled in int64; the appended slice is the callee's local copy only |
| Functions.ModMap | ch5/functions.go:112-117 | Key 2 maps to "hello" and key 3 to "goodbye"; key 1 is gone; every other entry is unchanged |
| Functions.ModMapIdempotent | ch5/functions.go:93-97 | Applying modMap twice equals applying it once; the program's map ends as {2: hello, 3: goodbye} |
| Calculator.OneSimpleCalculator | ch5_exercises/exercises.go:29-37 | A bad operand is rejected before the zero test; "/" by zero is rejected; success exactly otherwise, with the truncated quotient, and MinInt64 for MinInt64 / -1 |
| Calculator.CalculatorSamples | ch5_exercises/exercises.go:11-15 | 10 / 5 gives 2; a bad operand wins over a zero divisor; -7 / 2 gives -3 |
| Calculator.Prefixer | ch5_exercises/exercises.go:23-27 | The closure's result starts with the prefix, has length prefix plus input, and ends with the input |
| Calculator.PrefixerInjective | ch5_exercises/exercises.go:18-27 | Different inputs give different results; ">>> " and "cornholio" give ">>> cornholio" |
| ErrorsIntro.CalcRemainderAndMod | ch9_errors/intro/main.go:31-36 | (0, 0, error) for a zero denominator; otherwise q*d + r wraps to the numerator, and equals it except for MinInt64 / -1, with the remainder smaller than d and signed like the numerator |
| ErrorsIntro.CalcSamples | ch9_errors/intro/main.go:12-17 | 10, 3 gives 3, 1; -10, 3 gives -3, -1; a zero denominator gives the error |
| Pointers.MakePerson | ch6_pointers/exercises.go:34-40 | The Person's fields are the arguments |
| Pointers.MakePersonRoundTrip | ch6_pointers/exercises.go:34-40 | Every Person is MakePerson of its own fields |
| Pointers.MakePersonPointer | ch6_pointers/exercises.go:42-48 | A new cell holding the Person MakePerson builds from the same arguments |
| Pointers.UpdateSlice | ch6_pointers/exercises.go:24-27 | The last element becomes val; the length and every other element are unchanged |
| Pointers.GrowSlice | ch6_pointers/exercises.go:29-32 | The callee's slice is the caller's contents plus val; the caller's array is not modified |
| Pointers.Two | ch6_pointers/exercises.go:16-22 | [a b c] is [a b d] after UpdateSlice and still [a b d] after GrowSlice |
| SyncOnce.SCPI.Parse | ch12_concurrency/sync_once/main.go:37-42 | The result is a prefix of the input of length at most 1, and has length 1 exactly when the input is longer than one byte |
| SyncOnce.InitParser | ch12_concurrency/sync_once/main.go:30-33 | initParser runs once more (one more "initializing!") and the parser becomes an SCPI; the guard is untouched |
| SyncOnce.OnceDo | ch12_concurrency/sync_once/main.go:24-26 | The initialiser runs only if the guard has not fired; afterwards the guard has fired and the parser is set |
| SyncOnce.Parse | ch12_concurrency/sync_once/main.go:23-28 | After any call the parser has been initialised exactly once; the result is SCPI.Parse of the input |
| SyncOnce.ParseAllInitialisesOnce | ch12_concurrency/sync_once/main.go:9-13 | Over any sequence of calls, each result is the parser's result for its input, and "initializing!" runs once if there was a call |
| SyncOnce.LiteralBytes | ch12_concurrency/sync_once/main.go:10-12 | The bytes of the literals "hello", "goodbye", "h" and "g" are their ASCII codes |
| SyncOnce.SampleRun | ch12_concurrency/sync_once/main.go:10-13 | The bytes of "hello" give the bytes of "h", those of "goodbye" give "g", and the initialiser runs once |

## Left out

- Goroutines, channels, `select`, wait groups and context cancellation are
  not modelled. So are concurrent calls racing on the `sync.Once`: the model
  runs calls one after another.
- The multi-stage pipeline example is not modelled. It does not compile,
  because its processor constructors and one channel are undefined.
- The floating-point square-root cache is not modelled.
- I/O and external services are not modelled: the MongoDB and HTTP
  programs, file reads, the test harness, `produceSentinelError` with
  `archive/zip`, and protobuf marshalling.
- Printing is not modelled. This covers `RankPrinter`, which writes each
  ranked name on its own line, every `fmt.Println` in the `main` functions,
  `deferFiFoExample`'s print order, and the "initializing!" output. The last
  is modelled only as a counter of initialiser runs.
- `fmt.Sprintf` formatting is not modelled. `Person.ToString`,
  `Employee.Description` and `f2` have no logic beyond formatting or a rune
  sum. The invalid-login message is the fixed text concatenated with
  the user ID (errors_as_values/main.go:35), which is what the `%s` verb
  produces for a string. The not-found message at line 43 passes no
  argument; see Findings.
- `sort.Slice` is not modelled as an algorithm. `League.Ranking` selects a
  remaining team with the most wins at each step. It proves the result
  properties the sort guarantees: the same entries, in non-increasing order
  of wins. The order among tied teams stays unspecified, as it is in Go.
- Go map iteration order is not modelled; no result in the model depends on
  it.
- Slice capacity is not modelled. `GrowSlice` and `modSlice` assume the
  append reallocates. With spare capacity, Go would write past the caller's
  length into the shared array, which the caller cannot see through its own
  length. So the caller-visible contents are the same either way.
- League.MatchResult: win counts are unbounded integers, so the int64
  wrap-around after 2^63 - 1 wins is not modelled.
- TypesAndMethods.Insert: tree values and ages are unbounded integers.
  The tree only compares values, so this changes nothing.
- TypesAndMethods.Contains: the contract speaks only of search trees, the
  only trees Insert builds. On a hand-made tree that is not ordered, the
  function still performs the Go descent, but no property is stated.
- Pointers.UpdateSlice: an empty slice makes the Go code panic on index
  -1. That case is excluded by the precondition instead of being modelled
  as a panic.
- SyncOnce.SCPI.Parse: the input is the byte sequence of the Go string.
  The result is its first byte, which for a multi-byte first character is
  not a whole character, as in Go.
- StatusErrors.LoginAndGetData: the result uses the intended not-found
  message (see Findings). Nil data on failure is implicit in the `Fail`
  outcome, which carries no data.

## Findings

| source | as written | input that shows it | evidently intended | confidence | as-written member | corrected member |
|---|---|---|---|---|---|---|
| ch9_errors/errors_as_values/main.go:43 | `fmt.Sprintf("file %s not found")` passes no argument for `%s`, so the message is "file %!s(MISSING) not found" for every file | any login that succeeds followed by a fetch that fails, e.g. files "a.txt" and "b.txt" give the same message | the message names the missing file: "file " + file + " not found" | high; not executed | StatusErrors.NotFoundMessageAsWrittenOmitsFile | StatusErrors.NotFoundMessageNamesFile |
