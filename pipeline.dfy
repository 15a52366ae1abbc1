/**
 * The planner's stage order (index.ts:233-249): initialise, subtract the
 * books, subtract the stone, decompose, judge feasibility, match the owned
 * items, build the missing ones.
 */
module Pipeline {
  import opened BuildTypes
  import opened Reduction
  import opened Decomposition
  import opened Feasibility
  import opened Matching
  import opened Builder

  /**
   * The first three stages (index.ts:233-235): the goal becomes the remaining
   * goal and is reduced by the books and then by the stone, which amounts to
   * one subtraction of both lists: entry by entry in general, and value by
   * value when no goal entry object occurs twice.
   */
  method ReduceGoal(pb: ProcessBuild)
    requires Covers(Engravings(pb.goal), Engravings(pb.books + StoneSource(pb.items)))
    requires forall x :: x in pb.books + StoneSource(pb.items) ==> x !in pb.goal
    modifies pb`remainingGoal, pb`destructedEngravings, pb.goal
    ensures pb.remainingGoal == pb.goal && pb.destructedEngravings == []
    ensures ReducedBy(pb.goal, old(Entries(pb.goal)), Entries(pb.goal), old(Entries(pb.books + StoneSource(pb.items))))
  {
    ghost var goal0 := Entries(pb.goal);
    ghost var books0 := Entries(pb.books);
    ghost var stone0 := Entries(StoneSource(pb.items));
    EntriesAppend(pb.books, StoneSource(pb.items));
    assert Engravings(pb.books + StoneSource(pb.items)) == Engravings(pb.books) + Engravings(StoneSource(pb.items));
    InitBuild(pb);
    assert Entries(pb.remainingGoal) == goal0 && Entries(pb.books) == books0;
    assert Entries(StoneSource(pb.items)) == stone0;
    label BeforeBooks:
    RemoveBooks(pb);
    StoneUntouched@BeforeBooks(pb);
    ghost var afterBooks := Entries(pb.goal);
    RemoveStone(pb);
    ReducedByConcat(pb.goal, goal0, afterBooks, Entries(pb.goal), books0, stone0);
  }

  /** Subtracting the books leaves the stone's entries as they were: none of them is a goal entry. */
  twostate lemma StoneUntouched(pb: ProcessBuild)
    requires pb.remainingGoal == old(pb.remainingGoal) && pb.items == old(pb.items)
    requires forall x :: x in StoneSource(pb.items) ==> x !in pb.remainingGoal
    requires forall x: EngravingValue :: old(allocated(x)) && x !in old(pb.remainingGoal) ==> x.value == old(x.value)
    ensures Entries(StoneSource(pb.items)) == old(Entries(StoneSource(pb.items)))
  {
  }

  /** No entry of an owned item is one of the fresh decomposed entries. */
  twostate lemma OwnedEntriesAreOld(items: seq<Item>, new decomposed: seq<EngravingValue>)
    requires forall x :: x in decomposed ==> fresh(x)
    ensures forall k, j :: 0 <= k < |items| && 0 <= j < |items[k].engravings| ==> items[k].engravings[j] !in decomposed
  {
    forall k, j | 0 <= k < |items| && 0 <= j < |items[k].engravings|
      ensures items[k].engravings[j] !in decomposed
    {
      assert old(allocated(items[k].engravings[j]));
    }
  }

  /**
   * Five bought accessories, a necklace, two earrings and two rings, the
   * `k`-th holding the entries of slot `k` of `pool`.
   */
  predicate FiveBought(items: seq<Item>, pool: seq<EngravingValue>)
    reads items
  {
    |items| == 5 &&
    forall k :: 0 <= k < 5 ==>
      items[k].kind == [NECKLACE, EARRING, EARRING, RING, RING][k] &&
      items[k].status == Some(BUY) &&
      items[k].engravings == Slot(pool, k)
  }

  /**
   * The last two stages (index.ts:246-250) on a build whose decomposed list
   * shares no entry with the owned items: nothing matches, no status changes,
   * and all five accessories are built, each bought, from the sorted list.
   */
  method MatchAndBuild(pb: ProcessBuild) returns (owned: seq<Item>, items: seq<Item>)
    requires forall k, j :: 0 <= k < |pb.items| && 0 <= j < |pb.items[k].engravings| ==>
               pb.items[k].engravings[j] !in pb.destructedEngravings
    modifies pb`destructedEngravings, pb.items
    ensures pb.destructedEngravings == old(SortDesc(pb.destructedEngravings))
    ensures Entries(old(pb.destructedEngravings)) == old(Entries(pb.destructedEngravings))
    ensures SortDesc(old(pb.destructedEngravings)) == old(SortDesc(pb.destructedEngravings))
    ensures Entries(pb.goal) == old(Entries(pb.goal))
    ensures pb.goal == old(pb.goal) && pb.remainingGoal == old(pb.remainingGoal) && pb.items == old(pb.items)
    ensures owned == []
    ensures forall k :: 0 <= k < |pb.items| ==> pb.items[k].status == old(pb.items[k].status)
    ensures FiveBought(items, pb.destructedEngravings)
    ensures forall x :: x in items ==> fresh(x)
  {
    owned := MatchNothing(pb);
    items := CreatePerfectStuff(pb, owned);
    EmplacementsNoneOwned();
  }

  /** The matcher on a build whose decomposed list shares no entry with the owned items. */
  method MatchNothing(pb: ProcessBuild) returns (owned: seq<Item>)
    requires forall k, j :: 0 <= k < |pb.items| && 0 <= j < |pb.items[k].engravings| ==>
               pb.items[k].engravings[j] !in pb.destructedEngravings
    modifies pb.items
    ensures owned == []
    ensures forall k :: 0 <= k < |pb.items| ==> pb.items[k].status == old(pb.items[k].status)
  {
    ghost var above := AboveMinimal(pb.destructedEngravings);
    ghost var atMin := AtMinimal(pb.destructedEngravings);
    NoMatchForForeignEntries(pb.items, pb.destructedEngravings);
    MatchedEmpty(pb.items, above, atMin);
    owned := FindCurrentStuff(pb);
    assert AboveMinimal(pb.destructedEngravings) == above && AtMinimal(pb.destructedEngravings) == atMin;
  }

  /**
   * The middle stages (index.ts:233-245): reduction, decomposition and the
   * feasibility verdict, which is computed on the decomposed list.
   */
  method Analyse(pb: ProcessBuild) returns (possible: bool)
    requires Covers(Engravings(pb.goal), Engravings(pb.books + StoneSource(pb.items)))
    requires forall x :: x in pb.books + StoneSource(pb.items) ==> x !in pb.goal
    modifies pb`remainingGoal, pb`destructedEngravings, pb.goal
    ensures pb.goal == old(pb.goal) && pb.items == old(pb.items)
    ensures pb.remainingGoal == pb.goal
    ensures ReducedBy(pb.goal, old(Entries(pb.goal)), Entries(pb.goal), old(Entries(pb.books + StoneSource(pb.items))))
    ensures Entries(pb.destructedEngravings) == Decompose(Entries(pb.goal))
    ensures forall x :: x in pb.destructedEngravings ==> fresh(x)
    ensures Distinct(pb.destructedEngravings)
    ensures possible == IsBuildPossible(Entries(pb.destructedEngravings))
    ensures forall k :: 0 <= k < |pb.items| ==> pb.items[k].status == old(pb.items[k].status)
  {
    ReduceGoal(pb);
    DecomposeReduced(pb);
    possible := IsBuildPossible(Entries(pb.destructedEngravings));
  }

  /** The decomposition stage on a freshly reduced build: the decomposed list is exactly the new entries. */
  method DecomposeReduced(pb: ProcessBuild)
    requires pb.remainingGoal == pb.goal && pb.destructedEngravings == []
    modifies pb`destructedEngravings
    ensures Entries(pb.destructedEngravings) == Decompose(Entries(pb.goal))
    ensures forall x :: x in pb.destructedEngravings ==> fresh(x)
    ensures Distinct(pb.destructedEngravings)
    ensures Entries(pb.goal) == old(Entries(pb.goal))
  {
    ghost var added := DestructedEngravings(pb);
    assert pb.destructedEngravings == added;
  }

  /**
   * The whole plan for a parsed build. The goal ends up reduced by the books
   * and the stone and shared as the remaining goal; the decomposed list is the
   * reduced goal's decomposition, sorted; the verdict is the feasibility of
   * that list. The decomposed entries are new objects, so no owned item
   * matches, no status changes, and the builder makes all five accessories: a
   * necklace, two earrings and two rings, each bought.
   */
  method Run(pb: ProcessBuild) returns (possible: bool, owned: seq<Item>, items: seq<Item>, ghost decomposed: seq<EngravingValue>)
    requires Covers(Engravings(pb.goal), Engravings(pb.books + StoneSource(pb.items)))
    requires forall x :: x in pb.books + StoneSource(pb.items) ==> x !in pb.goal
    modifies pb`remainingGoal, pb`destructedEngravings, pb.goal, pb.items
    ensures pb.remainingGoal == pb.goal
    ensures ReducedBy(pb.goal, old(Entries(pb.goal)), Entries(pb.goal), old(Entries(pb.books + StoneSource(pb.items))))
    ensures Entries(decomposed) == Decompose(Entries(pb.goal))
    ensures forall x :: x in decomposed ==> fresh(x)
    ensures Distinct(decomposed)
    ensures pb.destructedEngravings == SortDesc(decomposed)
    ensures possible == IsBuildPossible(Entries(decomposed))
    ensures owned == []
    ensures forall k :: 0 <= k < |pb.items| ==> pb.items[k].status == old(pb.items[k].status)
    ensures FiveBought(items, pb.destructedEngravings)
    ensures forall x :: x in items ==> fresh(x)
  {
    possible := Analyse(pb);
    ghost var reduced := Entries(pb.goal);
    decomposed := pb.destructedEngravings;
    ghost var slots := Entries(decomposed);
    OwnedEntriesAreOld(pb.items, decomposed);
    owned, items := MatchAndBuild(pb);
    assert Entries(pb.goal) == reduced && Entries(decomposed) == slots;
  }

  /**
   * The five accessories built without owned items hold every decomposed entry
   * exactly when there are at most 10 of them, which a possible build
   * guarantees; then each entry lands in exactly one accessory.
   */
  lemma FiveItemsHoldAll(decomposed: seq<EngravingValue>)
    ensures Remaining(SortDesc(decomposed), 5) == [] <==> |decomposed| <= 10
    ensures |decomposed| <= 10 ==> multiset(Slots(SortDesc(decomposed), 5)) == multiset(decomposed)
    ensures IsBuildPossible(Entries(decomposed)) ==> multiset(Slots(SortDesc(decomposed), 5)) == multiset(decomposed)
  {
    var p := SortDesc(decomposed);
    SortDescCorrect(decomposed);
    AllPlaced(p, 5);
    SlotsPartition(p, 5);
  }

  /** Every entry of `s` carries engraving `x` and value 3, when their snapshot is three such pairs. */
  lemma AllThrees(x: Engraving, s: seq<EngravingValue>)
    requires Entries(s) == [Pair(x, 3), Pair(x, 3), Pair(x, 3)]
    ensures |s| == 3 && forall y :: y in s ==> y.engraving == x && y.value == 3
  {
    forall y | y in s ensures y.engraving == x && y.value == 3 {
      var j :| 0 <= j < |s| && s[j] == y;
      assert Entries(s)[j] == Pair(x, 3);
    }
  }

  /**
   * A goal of 9 for one engraving, nothing subtracted and nothing owned: the
   * build is possible, the necklace gets two entries of 3, the first earring
   * one, and the other three accessories none.
   */
  lemma NineScenario(x: Engraving, decomposed: seq<EngravingValue>, items: seq<Item>)
    requires Entries(decomposed) == Decompose([Pair(x, 9)])
    requires FiveBought(items, SortDesc(decomposed))
    ensures IsBuildPossible(Entries(decomposed))
    ensures items[0].kind == NECKLACE && Entries(items[0].engravings) == [Pair(x, 3), Pair(x, 3)]
    ensures items[1].kind == EARRING && Entries(items[1].engravings) == [Pair(x, 3)]
    ensures forall k :: 2 <= k < 5 ==> items[k].engravings == []
  {
    DecomposeExample(x);
    AllThrees(x, decomposed);
    var p := SortDesc(decomposed);
    ThreeEntries(p);
    assert p[0] in decomposed && p[1] in decomposed && p[2] in decomposed;
    assert items[0].engravings == [p[0], p[2]] && items[1].engravings == [p[1]];
    assert forall k :: 2 <= k < 5 ==> items[k].engravings == Slot(p, k);
  }
}
