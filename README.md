# generator.js iteration core, in Dafny

This project models the iteration core of `generator.js`, a push-based lazy-sequence
library. A `Generator` holds a `forEach(g)` that drives a producing routine. Each call
to `Yield(val)` hands `val` to the consumer `g`, with the value's index and a `stop()`
function. `stop()` throws the shared `BreakIteration` object, and every drive catches it.
The combinators (`filter`, `map`, `take`, `skip`, `zipWithArray`, `and`, `takeWhile`,
`skipWhile`, `groupBy`, `sortBy`, `evaluated`, `except`) build new Generators whose
routines drive their source. The terminal operations (`toArray`, `reduce`, `all`, `any`,
`first`, `count`) drive a Generator once and return what their consumer accumulated.

How the model is built:

- A consumer is a pure function from its state, a value and an index to a new state and a
  completion. `Normal` means it returned; `Abrupt(BreakIteration)` means it called `stop()`.
- `Protocol.Feed` is the reference definition of a drive. It hands a list of values to a
  consumer until the consumer throws. The index advances only after a normal return.
- The imperative side is `class Drive` (fields `stopped` and `index`, methods `Yield` and
  `End`). The loops over arrays and objects, the `Count` counter and `yieldMany` are
  methods that drive a `Drive` object. Each is proved equal to `Feed`.
- Each combinator is a function on sequences, and the consumer it puts on its source is
  tied to that function in two forms.
  - `FilterConsumer`, `TakeConsumer` and the other `...Consumer` functions put toArray's
    `push` in the place of the combinator's own `Yield`. They model `X(...).toArray()`,
    and a `Feed...` lemma ties each one to its function.
  - `FilterLift`, `TakeLift` and the other `...Lift` functions hand each value to any
    downstream consumer `h` through `YieldTo`, the combinator's own `Yield`. A `stop()` or
    a throw in `h` then leaves through the source's drive, as it does in the code. Each
    `...LiftDrive` lemma shows that the nested drives end as one drive of the
    combinator's list by `h`.
- Modules, one file each:
  - `Values`: the JavaScript values, exceptions and completions.
  - `Protocol`: the drive.
  - `Sources`: the constructor, array and object sources, `asGenerator`, `evaluated`, `Count` and `Range`.
  - `Combinators`: filter, map, take, skip, zipWithArray, takeWhile, skipWhile, except.
  - `Terminal`: the terminal operations.
  - `Grouping`: groupBy.
  - `Sorting`: sortBy.
  - `Concat`: `and` with its nested drives.

Two behaviours of the code are modelled as written:

- `stop()` is caught by the innermost drive on the call stack. `a.and(b)` drives `a` and
  `b` under drives of their own, so a `stop()` while `a` is produced ends only `a`. See
  "Findings".
- `Count` declares its counter `i` outside the producing routine. A second drive of the
  same `Count` or `Range` resumes where the first one left off.

Two consequences of the constructor's code (generator.js:92-105 and 124-132) that a caller
might not expect, modelled as written:

- A params argument that is neither a function nor an array throws a `TypeError`. It is
  not wrapped into a one-element list.
- In `new Generator(fn1, fn2)` the routine `fn1` is used, with no parameters. `fn2` is
  ignored.

## Model

| member | source | states |
|---|---|---|
| Protocol.Drive.constructor | generator.js:134-136 | a fresh drive is not stopped and its index is 0 |
| Protocol.Drive.Yield | generator.js:137-143 | after the drive ended, Yield throws IterationError and leaves the consumer uncalled; otherwise it passes the consumer the current index, and the index advances only when the consumer returned |
| Protocol.Drive.End | generator.js:146-154 | on every exit the drive is marked stopped; BreakIteration becomes a normal return, anything else is rethrown unchanged |
| Protocol.Feed | generator.js:137-143 | definition: the values go to the consumer one by one from index i until it throws, and the index advances only past values it returned from |
| Protocol.RunDrive | generator.js:133-155 | definition: one drive of a value list, Feed from index 0 under the drive's catch |
| Protocol.Catch | generator.js:148-151 | the result is normal exactly when the body returned or threw BreakIteration; otherwise it is the body's own exception |
| Protocol.Run | generator.js:133-155 | a drive of a routine yielding a list ends stopped, with the consumer state and completion that `Feed` defines |
| Protocol.DriveValues | generator.js:133-155 | a fresh drive of a list ends as `RunDrive` defines |
| Protocol.IndicesInOrder | generator.js:137-143 | the consumer sees every value in production order with the indexes 0, 1, 2, ... |
| Protocol.FeedRecorder | generator.js:137-143 | from any starting index i, value k of the list is seen with index i + k |
| Protocol.FeedStopsAt | generator.js:137-143 | when the consumer throws at position k, no later value is produced to it, and the index stays at k |
| Protocol.FeedNormalIndex | generator.js:141-142 | a drive that was never stopped advanced its index once per value |
| Protocol.DriveCatchesOnlyBreak | generator.js:146-151 | BreakIteration never leaves a drive, and any other exception leaves it unchanged |
| Protocol.YieldAfterEnd | generator.js:138-139 | a Yield kept past the end of its drive throws IterationError |
| Sources.Construct | generator.js:92-133 | dispatch on the arguments: with a routine as source, params must be a routine (which replaces the source, with no parameters) or an array, whose elements the routine receives in order, with a hole read as undefined; anything else is a TypeError. Without a routine source, params is a routine, an array or an object, and undefined/null throw TypeError |
| Sources.AsGenerator | generator.js:107-112 | a Generator is used as it is; an array yields its present elements, an object yields its [key, value] pairs, and undefined/null throw TypeError |
| Sources.DriveArray | generator.js:157-164 | driving an array yields its elements in index order, skipping holes |
| Sources.DriveObject | generator.js:166-172 | driving an object yields one [key, value] array per own property, in enumeration order |
| Sources.Present | generator.js:159-162 | the elements an array yields, holes skipped, never more than its length |
| Sources.Pairs | generator.js:168-170 | an object yields one [key, value] array per entry, in order |
| Sources.Produced | generator.js:92-172 | definition: the values one drive of a routine, an array or an object Generator yields |
| Sources.ForEach | generator.js:92-172 | a Generator's forEach drives exactly the values its producer yields |
| Sources.PresentMembers | generator.js:160-162 | a value is yielded by an array iff it is one of the array's present elements |
| Sources.ArrayToArray | generator.js:157-164 | `new Generator(arr).toArray()` is arr's present elements in order |
| Sources.ArrayCount | generator.js:379-383 | `new Generator(arr).count()` is the number of present elements, and the length when there are no holes |
| Sources.Evaluated | generator.js:348-350 | evaluated() is an array Generator with no holes, holding exactly what one drive of the source yielded |
| Sources.EvaluatedCount | generator.js:348-350 | every drive of the evaluated copy of a Count gives the same values, while the original Count moves on |
| Sources.Counter.constructor | generator.js:386-389 | the counter starts at start, and the step defaults to 1 |
| Sources.Counter.Drive | generator.js:390-395 | one drive of Count yields i, i+step, ... until the consumer stops it, and leaves i advanced once per value the consumer returned from |
| Sources.Counter.TakeToArray | generator.js:386-400 | `Count(a, d).take(n).toArray()` is [a + k*d for k < n], and the shared counter ends n steps further |
| Sources.Counter.TakeTakeToArray | generator.js:196-205 | `Count(a, d).take(len).take(n).toArray()` is the first min(n, len) terms, and the shared counter moves min(n, len) steps on: take(n)'s stop() passes through take(len)'s Yield to the Count's drive before `i` moves past the stopped value |
| Sources.RangeTakeThenDrive | generator.js:398-400 | with r = Range(start, len), after `r.take(n).toArray()` gives start .. start+min(n, len)-1, a drive of r gives len numbers from start + min(n, len) |
| Sources.CountTake | generator.js:386-400 | on a fresh Count, take(n) gives start + k*step for k < max(n, 0) |
| Sources.RangeDrivenTwice | generator.js:398-400 | Range(start, len) first gives start .. start+len-1; a second drive of the same Range gives the next len numbers |
| Combinators.Filter | generator.js:186-195 | definition: the values that pass the predicate, in source order, never more than the source |
| Combinators.FilterConsumer | generator.js:190-193 | definition: the consumer filter puts on its source; it yields a value when the predicate holds and never stops |
| Combinators.FilterMembers | generator.js:186-195 | a value is kept iff it is in the source and passes the predicate |
| Combinators.FilterAppend | generator.js:186-195 | filtering a concatenation filters each part, in order |
| Combinators.FilterPartition | generator.js:186-195 | the kept and the dropped values together are a permutation of the source |
| Combinators.FeedFilter | generator.js:189-193 | filter's consumer yields exactly `Filter` of the values, never stopping |
| Combinators.Map | generator.js:215-223 | map keeps the length and applies f elementwise |
| Combinators.MapCompose | generator.js:215-223 | mapping twice is mapping the composition |
| Combinators.MapConsumer | generator.js:219-221 | definition: the consumer map puts on its source; it yields f(val) and never stops |
| Combinators.FeedMap | generator.js:218-222 | map's consumer yields `Map` of the values |
| Combinators.Take | generator.js:196-205 | take(n) is the first min(max(n, 0), length) values |
| Combinators.Skip | generator.js:206-214 | skip(n) is everything after the first min(max(n, 0), length) values |
| Combinators.TakeSkip | generator.js:196-214 | take(n) followed by skip(n) is the source |
| Combinators.TakeConsumer | generator.js:199-203 | definition: the consumer take puts on its source; it calls stop() at index n, before yielding, and otherwise yields the value |
| Combinators.FeedTake | generator.js:198-203 | take's consumer yields `Take` of the values and calls stop() exactly when a value past n arrives |
| Combinators.TakeDrive | generator.js:196-205 | one drive of take(n) yields `Take(s, n)` and ends normally |
| Combinators.SkipConsumer | generator.js:209-212 | definition: the consumer skip puts on its source; it yields the values from index n on and never stops |
| Combinators.FeedSkip | generator.js:208-212 | skip's consumer yields the values from index n on |
| Combinators.ZipWithArray | generator.js:224-239 | the result has length min(|s|, |arr|), and element k is z(s[k], arr[k]) |
| Combinators.ZipConsumer | generator.js:233-236 | definition: the consumer zipWithArray puts on its source; it calls stop() once the index reaches arr's length, and otherwise yields z(val, arr[index]) |
| Combinators.FeedZip | generator.js:230-237 | zipWithArray's consumer yields the zip; it throws BreakIteration exactly when a value arrives at index |arr|, and its index ends at min(|s|, |arr|) |
| Combinators.ZipStopsBy | generator.js:234-235 | zipWithArray's consumer throws on any value at index |arr|, so it bounds an endless source |
| Sources.Counter.ZipToArray | generator.js:224-239 | `Count(a, d).zipWithArray(arr, z).toArray()` has |arr| elements z(a + k*d, arr[k]), and the shared counter ends |arr| steps further |
| Combinators.ZipDefault | generator.js:225-226 | with no zipper, element k is the two-element array [s[k], arr[k]] |
| Combinators.ZipDrive | generator.js:224-239 | one drive of zipWithArray yields `ZipWithArray` and never more than |arr| values |
| Combinators.TakeWhile | generator.js:268-279 | takeWhile is the longest prefix whose values all pass |
| Combinators.TakeWhileConsumer | generator.js:272-276 | definition: the consumer takeWhile puts on its source; it yields while the predicate holds and calls stop() at the first failure |
| Combinators.FeedTakeWhile | generator.js:271-277 | takeWhile's consumer yields that prefix and calls stop() at the first failure |
| Combinators.TakeWhileDrive | generator.js:268-279 | one drive of takeWhile yields `TakeWhile` and ends normally |
| Combinators.SkipWhile | generator.js:280-292 | definition: the source from its first value that fails the predicate |
| Combinators.TakeWhileSkipWhile | generator.js:268-292 | skipWhile is what follows takeWhile: the two split the source |
| Combinators.SkipWhileConsumer | generator.js:283-290 | definition: the consumer skipWhile puts on its source; the `skipping` flag stays on while the predicate holds, and every value is yielded once it is off |
| Combinators.FeedSkipWhile | generator.js:283-291 | skipWhile's consumer yields `SkipWhile` while skipping, and everything once the flag is off |
| Combinators.SkipWhileDrive | generator.js:280-292 | skipWhile yields the source from the first failing value on, never resumes skipping, and its drive ends normally |
| Combinators.Except | generator.js:351-353 | definition: filter with `x !== what` |
| Combinators.ExceptCounts | generator.js:351-353 | except(v) drops every occurrence of v and keeps every other value as often as it occurs |
| Combinators.YieldTo | generator.js:137-143 | definition: a combinator's own Yield onto the consumer h that drives its Generator; that drive's index advances only when h returned |
| Combinators.FilterLift | generator.js:189-193 | definition: filter's consumer handing each passing value to any downstream consumer h |
| Combinators.FeedFilterLift | generator.js:186-195 | the source's drive through filter's consumer leaves h as feeding it `Filter` of the values does: h's state, index and completion |
| Combinators.FilterLiftDrive | generator.js:186-195 | filter(p) driven by any consumer, a stopping or throwing one included, is one drive of `Filter(s, p)` by that consumer |
| Combinators.MapLift | generator.js:218-222 | definition: map's consumer handing f(val) to any downstream consumer h |
| Combinators.FeedMapLift | generator.js:215-223 | the source's drive through map's consumer leaves h as feeding it `Map` of the values does, and the source's index stops where h's stopped |
| Combinators.MapLiftDrive | generator.js:215-223 | map(f) driven by any consumer is one drive of `Map(s, f)` by that consumer |
| Combinators.TakeLift | generator.js:198-203 | definition: take's consumer; stop() at index n, otherwise the value goes to any downstream consumer h |
| Combinators.FeedTakeLift | generator.js:196-205 | the source's drive through take's consumer leaves h as feeding it `Take` of the values does; it ends with h's exception if h threw, otherwise with BreakIteration exactly when a value past n arrived |
| Combinators.TakeLiftDrive | generator.js:196-205 | take(n) driven by any consumer is one drive of `Take(s, n)` by that consumer |
| Combinators.TakeLiftStopsBy | generator.js:200-201 | whatever the downstream consumer does, take(n) stops its source by index max(n, 0) |
| Combinators.SkipLift | generator.js:208-212 | definition: skip's consumer handing the values from index n on to any downstream consumer h |
| Combinators.FeedSkipLift | generator.js:206-214 | the source's drive through skip's consumer leaves h as feeding it `Skip` of the values does |
| Combinators.SkipLiftDrive | generator.js:206-214 | skip(n) driven by any consumer is one drive of `Skip(s, n)` by that consumer |
| Combinators.ZipLift | generator.js:233-236 | definition: zipWithArray's consumer; stop() at index |arr|, otherwise z(val, arr[index]) goes to any downstream consumer h |
| Combinators.FeedZipLift | generator.js:224-239 | the source's drive through zipWithArray's consumer leaves h as feeding it the zip does; it ends with h's exception if h threw, otherwise with BreakIteration exactly when a value arrived at index |arr| |
| Combinators.ZipLiftDrive | generator.js:224-239 | zipWithArray(arr, z) driven by any consumer is one drive of `ZipWithArray(s, arr, z)` by that consumer |
| Combinators.TakeWhileLift | generator.js:271-277 | definition: takeWhile's consumer; passing values go to any downstream consumer h, and the first failure calls stop() |
| Combinators.FeedTakeWhileLift | generator.js:268-279 | the source's drive through takeWhile's consumer leaves h as feeding it `TakeWhile` of the values does; it ends with h's exception if h threw, otherwise with BreakIteration exactly at a failing value |
| Combinators.TakeWhileLiftDrive | generator.js:268-279 | takeWhile(p) driven by any consumer is one drive of `TakeWhile(s, p)` by that consumer |
| Combinators.SkipWhileLift | generator.js:283-291 | definition: skipWhile's consumer with its `skipping` flag, handing every value from the first failure on to any downstream consumer h |
| Combinators.FeedSkipWhileLift | generator.js:280-292 | the source's drive through skipWhile's consumer leaves h as feeding it `SkipWhile` of the values does while skipping, and all of them once the flag is off |
| Combinators.SkipWhileLiftDrive | generator.js:280-292 | skipWhile(p) driven by any consumer is one drive of `SkipWhile(s, p)` by that consumer |
| Terminal.PushConsumer | generator.js:183 | definition: toArray's consumer pushes every value onto the result |
| Terminal.FeedPush | generator.js:181-185 | toArray's consumer appends every value |
| Terminal.ToArray | generator.js:181-185 | toArray returns every value in order |
| Terminal.CountConsumer | generator.js:381 | definition: count's consumer adds one per value |
| Terminal.FeedCount | generator.js:379-383 | count's consumer adds one per value, reaches the number of values and never stops |
| Terminal.Count | generator.js:379-383 | count returns the number of values |
| Terminal.FoldLeftAppend | generator.js:240-260 | a left fold over a concatenation folds the second part from the first part's result |
| Terminal.ReduceConsumer | generator.js:251-258 | definition: reduce's consumer; without an initial value the first value seeds the accumulator, and every later value is combined into it |
| Terminal.FeedReduce | generator.js:251-258 | once seeded, reduce's consumer computes the left fold |
| Terminal.Reduce | generator.js:240-260 | with an initial value, reduce is the left fold from it; without one, the first value seeds the fold, and an empty source gives undefined |
| Values.Truthy | generator.js:297 | definition: JavaScript truthiness; undefined, null, false, 0 and "" are falsy, and every other value, every array included, is truthy |
| Terminal.Test | generator.js:297-308 | definition: the test of all() and any(), `pred ? pred(val) : val`: pred when given, else the value's truthiness |
| Terminal.AllConsumer | generator.js:296-301 | definition: all's consumer sets the result to false and calls stop() at the first value that fails |
| Terminal.FeedAll | generator.js:296-301 | all's consumer leaves true iff every value passes, and its stop() is caught |
| Terminal.All | generator.js:293-303 | all(pred) is true iff every value passes pred (or is truthy without pred) |
| Terminal.AllStopsAtFirstFailure | generator.js:296-301 | all stops its drive at the first failing value |
| Terminal.AnyConsumer | generator.js:307-312 | definition: any's consumer sets the result to true and calls stop() at the first value that passes |
| Terminal.FeedAny | generator.js:307-312 | any's consumer leaves true iff some value passes, and its stop() is caught |
| Terminal.Any | generator.js:304-314 | any(pred) is true iff some value passes pred (or is truthy without pred) |
| Terminal.AnyStopsAtFirstWitness | generator.js:307-312 | any stops its drive at the first passing value |
| Terminal.FirstConsumer | generator.js:317-320 | definition: first's consumer records the value and calls stop() |
| Terminal.First | generator.js:315-322 | first() is the first value, or undefined for an empty source |
| Grouping.IndexOf | generator.js:332 | the first position of the key, or -1 iff it is absent |
| Grouping.DedupSpec | generator.js:330-339 | the reference list of distinct keys holds each key once, and nothing else, in first-occurrence order |
| Grouping.KeyFilterMembers | generator.js:333-338 | a value belongs to a key's contents iff it is in the source with that key |
| Grouping.AddTo | generator.js:331-338 | definition: a value is pushed onto its key's group, or opens a new group at the end for a new key |
| Grouping.GroupConsumer | generator.js:330-339 | definition: groupBy's consumer adds every value with AddTo and never stops |
| Grouping.AddToKeeps | generator.js:331-338 | adding one value keeps the groups equal to the reference definition of the values seen so far |
| Grouping.FeedGroups | generator.js:330-339 | the drive of the source builds exactly the reference groups |
| Grouping.GroupBy | generator.js:323-347 | the keys are pairwise distinct and in first-occurrence order; each group's key is set, and its contents are exactly the values with that key, in source order and never empty; every value's key has a group; together the groups are a permutation of the source |
| Grouping.ZipRebuilds | generator.js:341-345 | zipping the keys with the contents lists rebuilds the groups |
| Values.Utf16 | generator.js:366-369 | a character is one UTF-16 code unit below U+10000, and otherwise a surrogate pair whose first unit is a high surrogate |
| Values.Units | generator.js:366-369 | definition: a string's code units, the concatenation of its characters' UTF-16 encodings |
| Values.UnitsLess | generator.js:366-369 | definition: lexicographic order on code units, a proper prefix first |
| Values.StrLess | generator.js:366-369 | definition: string `<` compares the strings' UTF-16 code units, not their code points |
| Values.UnitsInjective | generator.js:366-369 | two strings with the same code units are equal |
| Values.StrLessIrreflexive | generator.js:366-369 | no string is `<` itself |
| Values.StrLessTransitive | generator.js:366-369 | string `<` is transitive |
| Values.StrLessTotal | generator.js:364-369 | two strings are equal or ordered one way |
| Values.SurrogateOrder | generator.js:366-369 | "\u{10000}" < "\uFFFF" holds and the reverse does not: the high surrogate 0xD800 is below 0xFFFF |
| Values.TypeOf | generator.js:364 | definition: the `typeof` class of a value; null and arrays are both "object" |
| Values.Comparable | generator.js:364-372 | definition: two keys the comparator orders without throwing: the same `typeof`, and neither is an array |
| Values.KeyLess | generator.js:367-370 | definition: JavaScript's `<` on two keys: false before true for booleans, numeric order, and code-unit order on strings |
| Values.KeyLessTotal | generator.js:364-372 | two comparable keys are `===` or ordered by `<` one way, so the comparator never reaches its throw for them |
| Values.KeyLessTransitive | generator.js:366-369 | `<` on keys is transitive |
| Sorting.Compare | generator.js:361-372 | the comparator throws TypeError iff the keys are incomparable; otherwise it returns -1 iff a goes first (smaller key, or equal key and smaller index) and 1 otherwise |
| Sorting.CompareByCodeUnits | generator.js:364-372 | the key "\u{10000}" goes before the key "\uFFFF", as JavaScript's `<` orders them |
| Sorting.Insert | generator.js:361 | one insertion pass keeps the array a permutation and leaves the entries after i as they were; on success one more entry is in order, and a TypeError comes with two incomparable entries |
| Sorting.SortIndexes | generator.js:361-373 | sorting the index array in place leaves a permutation; if no comparison threw, neighbours are comparable and in order; a TypeError comes with two incomparable entries |
| Sorting.SortedIndexes | generator.js:359-373 | sorting Range(0, n).toArray() with the comparator leaves a rearrangement of the indexes below n; with no TypeError neighbours are in order, and a TypeError means two keys are incomparable |
| Sorting.IndexPermFacts | generator.js:359 | a rearrangement of Range(0, n).toArray() holds every index below n exactly once |
| Sorting.AdjacentToAll | generator.js:361-373 | neighbours in order and no index twice: every pair is comparable and in strict order |
| Sorting.SortedUnique | generator.js:361-373 | two strictly sorted rearrangements of the same indexes are equal, so the result does not depend on the sort algorithm |
| Sorting.Pick | generator.js:374-376 | the replay yields, in order, the value at each sorted index, one value per index |
| Sorting.PickMultiset | generator.js:374-376 | rearranging the indexes rearranges the replayed values |
| Sorting.SortedAllComparable | generator.js:361-373 | if the sort finished, every pair of keys was comparable |
| Sorting.IncomparableWitness | generator.js:372 | a comparison that threw names two distinct indexes with incomparable keys |
| Sorting.SortedOutcome | generator.js:354-378 | the replayed values are a permutation of the source, their keys never decrease, and equal keys keep their source order |
| Sorting.SortBy | generator.js:354-378 | sortBy throws TypeError iff two keys are incomparable; otherwise it yields a permutation of the source in non-decreasing key order, with equal keys in source order |
| Concat.YieldMany | generator.js:144-146 | yieldMany forwards every value to the outer Yield at the outer index, and its own drive swallows a BreakIteration |
| Concat.AndFeed | generator.js:261-267 | definition: the consumer's view of one drive of a.and(b); a's part under its own catch, then b's part unless an exception other than BreakIteration escaped |
| Concat.RunAnd | generator.js:261-267 | definition: AndFeed under the outer drive's catch |
| Concat.DriveAnd | generator.js:261-267 | one drive of a.and(b) is `RunAnd`: a's part, then (unless a non-stop exception escaped) b's part, each with its own catch |
| Concat.FeedAppend | generator.js:137-143 | feeding a + b is feeding a and then, if a was not stopped, b |
| Concat.AndWithoutStopInSource | generator.js:261-267 | if no stop() happens while a is produced, a.and(b) behaves as a + b |
| Concat.AndToArray | generator.js:261-267 | `a.and(b).toArray()` is a followed by b |
| Concat.AndTakeWhile | generator.js:268-279 | `a.and(b).takeWhile(p)` is takeWhile of a followed by takeWhile of b |
| Concat.FirstOfAndAsWritten | generator.js:315-322 | `a.and(b).first()` is b's first value when b is non-empty |
| Concat.FirstOfAndCounterexample | generator.js:261-267 | `[1].and([2]).first()` is 2, while the first value of [1, 2] is 1 |
| Concat.FilterFirstOfAndAsWritten | generator.js:189-193 | `a.and(b).filter(p).first()` is the first passing value of b when there is one: first's stop() passes through filter's Yield and is caught by a's drive inside and() |
| Concat.FilterFirstOfAndCounterexample | generator.js:261-267 | `new Generator([1]).and([2]).filter(x => true).first()` is 2 |
| Concat.YieldManyOwned | generator.js:144-146 | a yieldMany that lets a BreakIteration pass to the drive owning stop() forwards the values and the exception unchanged |
| Concat.DriveAndOwned | generator.js:261-267 | with stop() owned by the outer drive, a.and(b) is one drive of a + b |
| Concat.FirstOfAndOwned | generator.js:315-322 | with stop() owned by the outer drive, first() of a.and(b) is the first value of a + b |

## Left out

- Polyfills: the `arrIndexOf` fallback and the `Array.prototype.forEach` polyfill (generator.js:25-85) are host shims. `Grouping.IndexOf` is a plain linear search.
- The `Array.prototype.toArray` monkeypatch (generator.js:87-89) and module registration (generator.js:406-429) are packaging only.
- `selector` string selectors (generator.js:174-178) and the `thisObj` receiver are left out. Predicates, mappers and key functions are explicit Dafny functions.
- Callbacks (predicates, mappers, reducers, routines, key functions) are total, pure functions. A callback that throws its own exception is modelled only through the consumer's completion (`UserError`).
- A producing routine is given by the list of values it yields with its fixed parameters. Routines whose values depend on what `Yield` returns are not modelled.
- Protocol.Drive.Yield: the consumer's return value (`send`, which Yield passes back to the routine) is not modelled.
- Object enumeration order and `hasOwnProperty` (generator.js:168-169) are fixed by the order of the entries given.
- Numbers are mathematical integers: no floating point, NaN, or non-integer `Count` steps.
- `===` on arrays compares identity in JavaScript. The model's `==` is structural, which matters only for `except` and `groupBy` over list values.
- Sorting.Compare: list keys are treated as incomparable. JavaScript would compare two arrays by identity and then through their string conversion.
- Sorting.SortIndexes: an insertion sort stands for the engine's `Array.prototype.sort`. `Sorting.SortedUnique` shows that every algorithm that finishes gives the same order. That a different engine algorithm throws on exactly the same inputs rests on the fact that any correct comparison sort compares every pair of neighbours in its output; this is not proved in Dafny.
- Sources.Counter.Drive: a `Count` is driven only by consumers that stop it by a known index (`StopsBy`), such as `take`. An unbounded drive of a `Count` does not terminate and is not modelled.
- Concat: `and` is modelled over two leaf sources given by their values. When `a` is itself an `and`, a stop inside it ends only the innermost part; the model does not nest further.
- Concat.FirstOfAndAsWritten and Concat.AndTakeWhile state the behaviour as written. The plain concatenation that the name `and` and the two `yieldMany` calls at generator.js:264-265 suggest holds only in `Concat.AndWithoutStopInSource`'s case.
- A routine that calls `yieldMany` and then goes on yielding is not modelled as a list of values. Under a consumer that calls `stop()` it can produce more after the stop: the inner drive of `yieldMany` catches the `BreakIteration` (generator.js:144-150), and the routine goes on. For example, `new Generator(function (Yield, yieldMany) { yieldMany([1]); Yield(2); }).first()` gives 2. `Sources.ForEach` and `Protocol.FeedStopsAt` describe routines that yield only through `Yield`. Nested drives are modelled only for `and`, in `Concat`.

- groupBy and sortBy are modelled by the list of values they yield. Each yields it as the last step of its routine: groupBy through `yieldMany` (generator.js:341-345), sortBy through a drive of the sorted indexes (generator.js:374-376). A downstream `stop()` is caught there and the routine then returns, so a downstream consumer sees one drive of that list. This is argued from the code; there is no lifted consumer for these two.
- `Str`: a Dafny `char` is a Unicode scalar value, so a string key holding a lone surrogate, which JavaScript allows, cannot be written in the model.

## Findings

| source | as written | input that shows it | evidently intended | confidence | as-written member | corrected member |
|---|---|---|---|---|---|---|
| generator.js:261-267 with generator.js:146-151 | the `stop()` of a consumer of `a.and(b)` is caught by the inner drive of `yieldMany(a)`, so `b` is still produced and `first()` returns b's first value | `new Generator([1]).and([2]).first()` gives 2 | `and` concatenates, and `stop()` ends the whole drive, so `first()` gives 1 | high (not executed) | Concat.FirstOfAndCounterexample | Concat.DriveAndOwned |
