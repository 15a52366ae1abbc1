# Lost Ark build planner: a Dafny model of the planning engine

The planner reads a build: a goal list of `(engraving, value)` entries, a list
of engraving books and a list of owned items. It then decides which five
accessories to buy: a necklace, two earrings and two rings, each carrying up
to two engravings. This project models the engine in `index.ts` stage by
stage and proves what each stage does:

1. **Goal reduction** (`initBuild`, `removeBooks`, `removeStone`,
   `removeItemEngravingToGoal`). The remaining goal is the goal list itself.
   The books are subtracted from it in place, then the engravings of the
   first STONE item. For each source entry, the first goal entry with the
   same engraving is lowered.
2. **Decomposition** (`destructedEngravings`). Each remaining value becomes
   accessory slot values of 3, 4 or 5 under a fixed rule priority. The slot
   values are appended as new entries, grouped per goal entry, in goal order.
3. **Feasibility** (`checkIfBuildIsPossible`). The build is possible when
   there are at most 10 slot values and at most 5 of them are above 3.
4. **Owned-item matching** (`findCurrentStuff`). An owned item matches when
   one of its first two engraving entries is, by object identity, a
   decomposed entry above 3 and the other is one at exactly 3. Matching items
   are marked OWNED.
5. **Building** (`getRemainingEmplacements`, `createPerfectStuff`).
   - The decomposed list is sorted by decreasing value, stably and in place.
   - The owned items' entries are spliced out of a copy, as the code does it.
   - Bought items are built for the first 5 − |owned| free slots, in the
     order necklace, earrings, rings. The loop runs 5 − |owned| times, so two
     owned necklaces leave four free slots but give three items. In a real
     run the matcher finds no owned item (see below), so all five slots are
     filled.
   - Each bought item's first engraving is the strongest entry left and its
     second the weakest entry left.

Entries, items and the build are Dafny classes (`BuildTypes`). Their fields
change in place, as in the source. `==` and `in` on them is reference
identity, like `===` and `includes`. Pure specifications work on `Pair`
snapshots of entry values (`Entries`). Each stage is a method proved against
those specifications. `Pipeline.Run` chains the stages in the order of
index.ts:233-249.

In a real run, every decomposed entry is a new object, while the owned items
come from the parsed file. So nothing ever matches, and all five accessories
are built (`Matching.NoMatchForForeignEntries`, `Pipeline.Run`).

In these places the code does something a reader might not expect; the model
follows the code:
- An engraving in the books or the stone that the goal lacks is not ignored.
  `find` yields `undefined` and the subtraction throws, so the model requires
  every source engraving to be in the goal.
- Decomposition overshoots in more cases than for the values 1 and 2. Any
  value of at least 5 that leaves 2 after the fives also gets a final 3: 7
  gives 5 + 3 and 12 gives 5 + 5 + 3. A remaining 4 is emitted as 4.
- A goal of 9 for one engraving builds five items: a necklace with
  [3, 3], an earring with [3], and three items with no engraving.
- Owned entries are not always removed from the pool by identity. The second
  index is computed before the first splice, so it can point one place too
  far (`Builder.StaleSecondIndex`).

## Model

| member | source | states |
|---|---|---|
| `BuildTypes.EngravingValue.constructor` | types/build.ts:16-19 | An entry holds the engraving and the value it was created with. |
| `BuildTypes.Item.constructor` | types/build.ts:21-25 | An item holds its type, its engraving entries and its optional status. |
| `BuildTypes.ProcessBuild.constructor` | types/build.ts:27-38 | A parsed build holds goal, books and items; nothing is remaining or decomposed yet. |
| `Reduction.LowerFirst` | index.ts:28 | One `find(...).value -=` step: keys and their order are unchanged, and every entry of another engraving keeps its value. `SubtractedAt` states the lowered entry. |
| `Reduction.Subtracted` | index.ts:27-29 | The value-level subtraction: each source pair in turn lowers the first goal pair with its engraving. The goal's engravings and their order stay the same. |
| `Reduction.RemoveItemEngravingToGoal` | index.ts:25-33 | `ReducedBy`: each goal entry loses the total of the source values for its engraving exactly when it is (the same object as) the first goal entry with that engraving. Every other entry keeps its value. The source entries are unchanged. Without repeated goal objects, the result equals the value-level subtraction `Subtracted`. |
| `Reduction.SharedGoalEntry` | index.ts:27-29 | A goal list holding one entry object twice shows the single lowering at both positions, because `find` returns that object for both. |
| `Reduction.ReducedByConcat` | index.ts:233-235 | Reducing in place by the books and then by the stone is reducing by the two lists concatenated, entry by entry and, without repeated goal objects, as one `Subtracted`. |
| `Reduction.SubtractedAt` | index.ts:27-29 | Closed form of a subtraction. Goal entry k ends at its value minus the source total for its engraving if it is the first entry with that engraving, and keeps its value otherwise. |
| `Reduction.LoweredIsSubtracted` | index.ts:27-29 | When no goal object occurs twice, lowering the objects in place gives the same snapshot as the value-level subtraction. |
| `Reduction.SubtractedConcat` | index.ts:234-235 | Subtracting the books and then the stone is one subtraction of the two lists concatenated. |
| `Reduction.ReductionExample` | index.ts:45-66 | Goal {X:10} with books {X:3} and stone {X:2} leaves {X:5}. |
| `Reduction.InitBuild` | index.ts:35-43 | The remaining goal is the goal list itself (aliased), and the decomposed list starts empty. |
| `Reduction.RemoveBooks` | index.ts:45-55 | The books are subtracted from the remaining goal as by `RemoveItemEngravingToGoal`. |
| `Reduction.FindStone` | index.ts:59 | Returns the first item of type STONE, or nothing exactly when no item is a stone. |
| `Reduction.RemoveStone` | index.ts:57-66 | The first stone's engravings are subtracted from the remaining goal as by `RemoveItemEngravingToGoal`. Without a stone, every goal value is unchanged. |
| `Decomposition.Split` | index.ts:110-129 | The slot values the `while` loop emits for one value, in order; it emits nothing exactly when the value is not positive. |
| `Decomposition.SlotValue` | index.ts:112-126 | The value one loop step pushes (lines 113, 118, 121 and 125) is 3, 4 or 5, and it is 4 exactly when the remaining value is 4. |
| `Decomposition.NextValue` | index.ts:111-128 | For integer values in the exact-integer range of doubles (below 2^53), each loop step lowers a positive remaining value by at least 3 or sets it to 0, so the loop terminates. |
| `Decomposition.SplitMagnitudes` | index.ts:111-128 | Every emitted slot value is 3, 4 or 5. A 4 is emitted exactly when the value is 4. |
| `Decomposition.SplitSum` | index.ts:111-128 | A non-positive value emits nothing. A positive value v emits values summing to v plus an overshoot: 2 for v = 1, 1 for v = 2 and for v ≥ 5 with v mod 5 = 2, else 0. So the sum lies between v and v + 2. |
| `Decomposition.SplitExamples` | index.ts:111-128 | 1→[3], 2→[3], 4→[4], 7→[5,3], 9→[3,3,3], 12→[5,5,3], 20→[5,5,5,5]. |
| `Decomposition.Decompose` | index.ts:109-130 | The decomposed snapshot of a goal: each entry's `Split` values tagged with its engraving, grouped per entry in goal order. Its properties are stated by `DecomposeAppend` and `DecomposeShape`. |
| `Decomposition.DecomposeAppend` | index.ts:109-130 | Decomposition is grouped per goal entry in goal order: the decomposition of a concatenation is the concatenation of the decompositions. |
| `Decomposition.DecomposeShape` | index.ts:109-130 | Each decomposed entry carries the engraving of a goal entry and the value 3, 4 or 5. A goal with no positive value decomposes to nothing. |
| `Decomposition.DecomposeExample` | index.ts:107-134 | The reduced goal {X:5} decomposes to [X:5], and {X:9} to three X:3 entries. |
| `Decomposition.PushSlots` | index.ts:110-129 | The `while` loop appends new, distinct entries carrying the goal entry's engraving and exactly the slot values `Split` gives, in order. Nothing else is appended. |
| `Decomposition.PushEntry` | index.ts:109-130 | One `forEach` step extends the decomposition of the earlier goal entries by this entry's slots. No slot entry appeared earlier. |
| `Decomposition.DestructedEngravings` | index.ts:107-134 | Appends to the decomposed list new, pairwise distinct entries whose values are the decomposition of the remaining goal. |
| `Feasibility.IsBuildPossible` | index.ts:136-144 | The verdict: at most 10 slot values, at most 5 of them above 3. Any list of at most five entries is possible, and a possible list has at most ten. |
| `Feasibility.CountAbove` | index.ts:137 | The number of entries above the minimum is at most the number of entries, and is zero exactly when no entry exceeds 3. |
| `Feasibility.CountAboveAppend` | index.ts:137 | The count above the minimum adds up over concatenation. |
| `Feasibility.SingleGoalFrontier` | index.ts:111-144 | For a goal with one engraving of value v, the verdict is "possible" exactly when v ≤ 29, v = 31 or v = 34. |
| `Matching.AboveMinimal` | index.ts:187-189 | The decomposed entries above 3, in order (their membership is stated by `FilterMembership`). |
| `Matching.AtMinimal` | index.ts:190 | The decomposed entries exactly at 3, in order (membership in `FilterMembership`). |
| `Matching.FilterMembership` | index.ts:187-190 | An entry is in the above-minimum list exactly when it is a decomposed entry above 3. It is in the at-minimum list exactly when it is a decomposed entry at 3. |
| `Matching.AboveMinimalCount` | index.ts:187-188 | The matcher's above-minimum list has as many entries as the feasibility count of line 137. |
| `Matching.Includes` | index.ts:197-198 | `includes` of a possibly `undefined` entry: `undefined` is never included, since the filtered lists hold only entries. |
| `Matching.IsMatch` | index.ts:193-199 | The matcher's test on an item's first two entries, with `includes` by identity; `IsMatchIff` states what it means. |
| `Matching.IsMatchIff` | index.ts:193-199 | An item matches exactly when it has at least two entries and, in one order or the other, its first two are decomposed entry objects, one above 3 and one at 3. |
| `Matching.Matched` | index.ts:192-203 | The matcher's result lists only items of the build that match, and no more items than the build has. |
| `Matching.MatchedComplete` | index.ts:192-203 | Every matching item of the build is in the result. |
| `Matching.MatchedAppend` | index.ts:192-203 | The result keeps item order: matching a concatenation gives the two results concatenated. |
| `Matching.MatchedSnoc` | index.ts:192-203 | One loop step: the next item is appended to the result exactly when it matches. |
| `Matching.MatchedEmpty` | index.ts:184-207 | The result is empty exactly when no item matches. |
| `Matching.NoMatchForForeignEntries` | index.ts:184-207 | If no owned item's entry is a decomposed entry object, the matcher returns nothing. |
| `Matching.FindCurrentStuff` | index.ts:184-207 | Returns exactly the matching items in item order and marks exactly those OWNED. Every other item keeps its status. |
| `Builder.SortDesc` | index.ts:149 | The stable insertion sort by decreasing value; it keeps the length and only holds entries of its input (its full contract is `SortDescCorrect`). |
| `Builder.SortDescCorrect` | index.ts:149 | The sort orders entries by decreasing value, keeps the same entry objects (a permutation), and is stable: entries of equal value stay in their original order. |
| `Builder.FindIndex` | index.ts:152-153 | `findIndex` by identity gives the first index holding the object, or -1 when it is absent or undefined. |
| `Builder.Splice1` | index.ts:154-155 | `splice(i, 1)` removes index i; -1 removes the last entry; an index past the end removes nothing. |
| `Builder.RemoveOne` | index.ts:152-155 | One owned item's two splices, with both indices computed first; at most two entries leave the pool. |
| `Builder.RemoveOwned` | index.ts:151-156 | The removals for all owned items, in their order (bounded by `RemoveOwnedShrinks`). |
| `Builder.RemoveOwnedShrinks` | index.ts:151-156 | The removals only take entries out of the pool, at most two per owned item. |
| `Builder.RemoveOneSecondFirst` | index.ts:152-155 | When an item's second entry lies before its first in the pool, both entries are removed. |
| `Builder.StaleSecondIndex` | index.ts:152-155 | When the second entry lies after the first and is not last, the second splice removes the entry after it instead. |
| `Builder.StaleSecondIndexAtEnd` | index.ts:152-155 | When the second entry lies after the first and is last, only the first entry is removed. |
| `Builder.StaleSecondIndexKeeps` | index.ts:152-155 | When the second entry lies after the first, it stays in the pool. |
| `Builder.StaleSecondIndexExample` | index.ts:152-155 | Pool [a, b, c] with an owned item [a, b] leaves [b], not [c]. |
| `Builder.RemoveOneMissing` | index.ts:152-155 | An owned item whose entries are not in the pool still removes the last two pool entries (`splice(-1, 1)` twice). |
| `Builder.RemoveOwnedEntries` | index.ts:151-156 | The loop computes the removals for all owned items, in order. |
| `Builder.EmplacementsFor` | index.ts:209-226 | There are at most five free slots, and at least five minus the number of owned items. So `emplacements[i]` is always in range for the builder. |
| `Builder.EmplacementsCount` | index.ts:209-226 | Each accessory type gets max(0, capacity − owned of that type) slots (necklace 1, earring 2, ring 2). Stones and books get none. |
| `Builder.EmplacementsOrder` | index.ts:209-226 | The free slots come as necklaces, then earrings, then rings. |
| `Builder.EmplacementsNoneOwned` | index.ts:209-226 | With nothing owned, the slots are NECKLACE, EARRING, EARRING, RING, RING. |
| `Builder.GetRemainingEmplacements` | index.ts:209-226 | The counted loops produce exactly those free slots. |
| `Builder.Remaining` | index.ts:160-178 | The pool left after i builds, each shifting the first entry and then popping the last; never longer than the starting pool. |
| `Builder.Slot` | index.ts:167-175 | The entries of the i-th built item: at most two, the first and last of the pool it finds. |
| `Builder.RemainingClosed` | index.ts:160-178 | After i items, the pool is the original with i entries cut from each end, or empty. |
| `Builder.SlotClosed` | index.ts:167-175 | Item i holds the i-th entry from the front and the i-th from the back. When only one entry is left it holds that one, and when the pool is exhausted it holds none. A second entry is taken only if a first was. |
| `Builder.SlotsPartition` | index.ts:160-178 | No entry is used twice: the built items and the leftover pool together hold exactly the starting pool. |
| `Builder.AllPlaced` | index.ts:160-178 | n items absorb the whole pool exactly when it holds at most 2n entries. |
| `Builder.SlotPairsStrongWithWeak` | index.ts:149-175 | On a sorted pool, each two-entry item pairs an entry with one of no greater value. |
| `Builder.ThreeEntries` | index.ts:167-175 | Three entries give [first, last] and [middle], and the later items get nothing. |
| `Builder.BuildItems` | index.ts:160-178 | Builds max(0, count) items. Item k is bought, has slot type `emplacements[k]` and holds slot k of the pool. |
| `Builder.CreatePerfectStuff` | index.ts:146-182 | Sorts the build's decomposed list in place and builds exactly max(0, 5 − owned) items. Each is bought, has its free slot's type and holds the next strongest and weakest entries of the pool after the owned entries are removed. |
| `Pipeline.ReduceGoal` | index.ts:233-235 | After initialisation, books and stone, the goal (also the remaining goal) is the original goal reduced in place by books and stone together (`ReducedBy`): entry by entry in general, and equal to `Subtracted` without repeated goal objects. |
| `Pipeline.DecomposeReduced` | index.ts:240 | The decomposition stage on a freshly reduced build: the decomposed list is exactly new, distinct entries whose values are the decomposition of the goal, and the goal's values are unchanged. |
| `Pipeline.Analyse` | index.ts:233-245 | The goal is reduced as by `ReduceGoal`. The decomposed list is made of new, distinct entries whose values are the decomposition of the reduced goal. The verdict is the feasibility of that list. No item status changes. |
| `Pipeline.OwnedEntriesAreOld` | index.ts:113-125 | No entry of an item that existed before decomposition is one of the decomposed entries. |
| `Pipeline.MatchNothing` | index.ts:246-248 | When owned items share no entry with the decomposed list, the matcher returns nothing and changes no status. |
| `Pipeline.MatchAndBuild` | index.ts:246-250 | With no shared entries, five bought items are built (necklace, two earrings, two rings) from the sorted list. Entry and goal values are unchanged. |
| `Pipeline.Run` | index.ts:233-249 | The whole chain: the goal reduced as by `ReduceGoal`, its decomposition (new, distinct entries), the verdict on it, the list sorted in place, no match, unchanged statuses, and five bought accessories. |
| `Pipeline.FiveItemsHoldAll` | index.ts:139-178 | The five built items absorb every decomposed entry exactly when there are at most 10. A possible build therefore has each entry in exactly one accessory. |
| `Pipeline.NineScenario` | index.ts:107-182 | Goal {X:9}: possible. The necklace gets [X:3, X:3], the first earring [X:3], and the three other items nothing. |

## Left out

- `openBuildFile` (index.ts:16-23) and `argv` (index.ts:11): file reading, JSON parsing and command-line handling. The model takes a parsed build.
- The build's `name` and its printing (index.ts:230), the debug tables (index.ts:68-105) and the console output of `checkIfBuildIsPossible` (index.ts:140-142). The verdict is returned as a boolean instead.
- The Promise wrappers. Each stage runs to completion before the next, so each is a sequential method.
- The enumeration of engraving names: types/engravings is not part of this model. `Engraving` is a type with equality only.
- dist/types/build.d.ts and types/build.d.ts are older declaration variants that the engine does not use.
- Values beyond 2^53. JavaScript numbers are doubles, and the model uses unbounded integers. Above 2^56, `value -= VAL_MAX` (index.ts:119) no longer changes `value`, so the loop at index.ts:111 never ends. From 2^53 upward the subtractions at index.ts:28, 114, 119 and 126 round. The model assumes values in the exact-integer range.
- Non-integer values. JSON numbers could be fractional, and the model uses integers. For integers, `value / 3 > 1` is `value > 3` and `value / 5 >= 1` is `value >= 5`.
- The sort of the above-minimum list in `findCurrentStuff` (index.ts:188). The list is only searched, so its order does not matter.
- `removeStone` without a stone resolves unchanged and then calls the subtraction on `undefined` in its detached executor. That rejected inner promise is not modelled: without a stone the stage is a no-op.
- Reduction.RemoveItemEngravingToGoal: also requires that no source entry is itself a goal entry object. Parsed JSON never shares objects between `books`, `items` and `goal`.
- Reduction.RemoveItemEngravingToGoal: the value-level equality with `Subtracted` is stated only when no goal object occurs twice. The general case is stated per entry (`LoweredAll`).
- Pipeline.ReduceGoal: the same holds here; a repeated goal object is covered by the per-entry statement only (`Reduction.SharedGoalEntry`).
- Pipeline.Analyse: the equality with `Subtracted` likewise needs a goal without repeated objects; the per-entry statement is general.
- Pipeline.Run: the equality with `Subtracted` likewise needs a goal without repeated objects; the per-entry statement is general.
- Pipeline.Run: states the outcome of a real run, where the owned items' entries are not decomposed entries. `Builder.CreatePerfectStuff` covers builds with matched items.
