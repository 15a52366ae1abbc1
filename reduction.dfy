/**
 * Goal reduction (index.ts:25-66): the build is initialised with the goal as
 * its remaining goal, then the books and the first stone item are subtracted
 * from it, entry by entry, in place.
 */
module Reduction {
  import opened BuildTypes

  /** Total value that the source entries carry for engraving `e`. */
  function SumFor(src: seq<Pair>, e: Engraving): int {
    if src == [] then 0
    else (if src[0].engraving == e then src[0].value else 0) + SumFor(src[1..], e)
  }

  /** Every source engraving is one of the goal's (otherwise `find` yields `undefined` and the subtraction throws). */
  predicate Covers(goal: seq<Engraving>, src: seq<Engraving>) {
    forall e :: e in src ==> e in goal
  }

  /** One step of the `forEach` at index.ts:27-29: the first goal entry with `p`'s engraving loses `p`'s value. */
  function LowerFirst(goal: seq<Pair>, p: Pair): (r: seq<Pair>)
    requires p.engraving in PairKeys(goal)
    ensures PairKeys(r) == PairKeys(goal)
    ensures forall j :: 0 <= j < |goal| && goal[j].engraving != p.engraving ==> r[j] == goal[j]
  {
    var i := IndexOf(PairKeys(goal), p.engraving);
    goal[i := Pair(p.engraving, goal[i].value - p.value)]
  }

  /** The goal after subtracting every source entry in order, as the `forEach` does. */
  function Subtracted(goal: seq<Pair>, src: seq<Pair>): (r: seq<Pair>)
    requires Covers(PairKeys(goal), PairKeys(src))
    ensures PairKeys(r) == PairKeys(goal)
    decreases |src|
  {
    if src == [] then goal
    else
      Subtracted(LowerFirst(goal, src[0]), src[1..])
  }

  /**
   * Closed form of a subtraction: each goal entry that is the first with its
   * engraving loses the total the source carries for that engraving; every
   * other entry keeps its value.
   */
  lemma {:induction false} SubtractedAt(goal: seq<Pair>, src: seq<Pair>, k: nat)
    requires Covers(PairKeys(goal), PairKeys(src))
    requires k < |goal|
    ensures |Subtracted(goal, src)| == |goal|
    ensures Subtracted(goal, src)[k]
         == Pair(goal[k].engraving,
                 goal[k].value
                 - (if IndexOf(PairKeys(goal), goal[k].engraving) == k then SumFor(src, goal[k].engraving) else 0))
    decreases |src|
  {
    assert |PairKeys(Subtracted(goal, src))| == |PairKeys(goal)|;
    if src != [] {
      var g1 := LowerFirst(goal, src[0]);
      SubtractedAt(g1, src[1..], k);
      assert PairKeys(g1)[k] == PairKeys(goal)[k];
    }
  }

  lemma {:induction false} SumForAppend(a: seq<Pair>, b: seq<Pair>, e: Engraving)
    ensures SumFor(a + b, e) == SumFor(a, e) + SumFor(b, e)
    decreases |a|
  {
    if a == [] {
      assert a + b == b;
    } else {
      assert (a + b)[0] == a[0];
      assert (a + b)[1..] == a[1..] + b;
      SumForAppend(a[1..], b, e);
    }
  }

  lemma CoversAppend(keys: seq<Engraving>, a: seq<Pair>, b: seq<Pair>)
    requires Covers(keys, PairKeys(a)) && Covers(keys, PairKeys(b))
    ensures Covers(keys, PairKeys(a + b))
  {
    var ab := PairKeys(a + b);
    forall e | e in ab ensures e in keys {
      var i :| 0 <= i < |ab| && ab[i] == e;
      if i < |a| {
        assert (a + b)[i] == a[i] && PairKeys(a)[i] == e;
      } else {
        assert (a + b)[i] == b[i - |a|] && PairKeys(b)[i - |a|] == e;
      }
    }
  }

  /** Subtracting one list and then another is subtracting their concatenation: books then stone is one pass. */
  lemma {:induction false} SubtractedConcat(goal: seq<Pair>, a: seq<Pair>, b: seq<Pair>)
    requires Covers(PairKeys(goal), PairKeys(a)) && Covers(PairKeys(goal), PairKeys(b))
    ensures Covers(PairKeys(goal), PairKeys(a + b))
    ensures Subtracted(Subtracted(goal, a), b) == Subtracted(goal, a + b)
    decreases |a|
  {
    CoversAppend(PairKeys(goal), a, b);
    if a == [] {
      assert a + b == b;
    } else {
      var head, tail := a[0], a[1..];
      var g1 := LowerFirst(goal, head);
      assert (a + b)[1..] == tail + b;
      assert (a + b)[0] == head;
      SubtractedConcat(g1, tail, b);
    }
  }

  /** An example: goal {X:10}, books {X:3}, stone {X:2} leaves {X:5}. */
  lemma ReductionExample(x: Engraving)
    ensures Subtracted(Subtracted([Pair(x, 10)], [Pair(x, 3)]), [Pair(x, 2)]) == [Pair(x, 5)]
  {
    assert PairKeys([Pair(x, 10)]) == [x];
    assert PairKeys([Pair(x, 3)]) == [x];
    assert PairKeys([Pair(x, 2)]) == [x];
    assert LowerFirst([Pair(x, 10)], Pair(x, 3)) == [Pair(x, 7)];
    assert PairKeys([Pair(x, 7)]) == [x];
    assert LowerFirst([Pair(x, 7)], Pair(x, 2)) == [Pair(x, 5)];
  }

  /** Index of the first item of type STONE, or `|items|` when there is none. */
  function StoneIndex(items: seq<Item>): (i: nat)
    ensures i <= |items|
    ensures i < |items| ==> items[i].kind == STONE
    ensures forall j :: 0 <= j < i ==> items[j].kind != STONE
  {
    if items == [] then 0
    else if items[0].kind == STONE then 0
    else 1 + StoneIndex(items[1..])
  }

  /** The first item of type STONE, as `find` returns it (index.ts:59). */
  function FindStone(items: seq<Item>): (r: Option<Item>)
    ensures r.None? <==> forall k :: 0 <= k < |items| ==> items[k].kind != STONE
    ensures r.Some? ==> r.value == items[StoneIndex(items)]
  {
    var i := StoneIndex(items);
    if i < |items| then Some(items[i]) else None
  }

  /**
   * The goal value of entry `k` after `src` was subtracted from `goal` in place.
   * `find` returns an object, so every occurrence of the first matching object
   * is lowered, and an entry is lowered exactly when it is that object.
   */
  ghost predicate LoweredAt(goal: seq<EngravingValue>, k: nat, before: int, after: int, src: seq<Pair>)
    requires k < |goal|
  {
    var e := goal[k].engraving;
    assert Engravings(goal)[k] == e;
    after == before - (if goal[IndexOf(Engravings(goal), e)] == goal[k] then SumFor(src, e) else 0)
  }

  /**
   * Every entry of `goal`, with values `before` and then `after`, was lowered
   * in place by `src` as `LoweredAt` says; this holds whether or not some goal
   * object occurs twice.
   */
  ghost predicate LoweredAll(goal: seq<EngravingValue>, before: seq<Pair>, after: seq<Pair>, src: seq<Pair>) {
    |before| == |goal| && |after| == |goal| &&
    forall k :: 0 <= k < |goal| ==> LoweredAt(goal, k, before[k].value, after[k].value, src)
  }

  /**
   * The goal `goal` went from values `before` to values `after` by being
   * reduced in place by `src`, whose engravings are all in the goal: entry by
   * entry as `LoweredAll` says, and, when no goal object occurs twice, exactly
   * the value-level `Subtracted`.
   */
  ghost predicate ReducedBy(goal: seq<EngravingValue>, before: seq<Pair>, after: seq<Pair>, src: seq<Pair>) {
    Covers(PairKeys(before), PairKeys(src)) &&
    LoweredAll(goal, before, after, src) &&
    (Distinct(goal) ==> after == Subtracted(before, src))
  }

  /**
   * Reducing by `a` and then by `b` is reducing by `a + b`, when every
   * engraving of `a` and `b` is in the goal.
   */
  lemma ReducedByConcat(goal: seq<EngravingValue>, v0: seq<Pair>, v1: seq<Pair>, v2: seq<Pair>, a: seq<Pair>, b: seq<Pair>)
    requires ReducedBy(goal, v0, v1, a) && ReducedBy(goal, v1, v2, b)
    requires Covers(PairKeys(v0), PairKeys(b))
    ensures ReducedBy(goal, v0, v2, a + b)
  {
    LoweredAllConcat(goal, v0, v1, v2, a, b);
    SubtractedConcat(v0, a, b);
  }

  /**
   * A goal list holding the same entry object twice: `find` returns that
   * object for both positions, so both show the one lowering by the source
   * total, where the value-level `Subtracted` would lower only the first.
   */
  lemma SharedGoalEntry(g: EngravingValue, before: seq<Pair>, after: seq<Pair>, src: seq<Pair>)
    requires LoweredAll([g, g], before, after, src)
    ensures after[0].value == before[0].value - SumFor(src, g.engraving)
    ensures after[1].value == before[1].value - SumFor(src, g.engraving)
  {
    assert Engravings([g, g])[0] == g.engraving;
    assert LoweredAt([g, g], 0, before[0].value, after[0].value, src);
    assert LoweredAt([g, g], 1, before[1].value, after[1].value, src);
  }

  /** Lowering by `a` and then by `b` is lowering by `a + b`. */
  lemma LoweredAllConcat(goal: seq<EngravingValue>, v0: seq<Pair>, v1: seq<Pair>, v2: seq<Pair>, a: seq<Pair>, b: seq<Pair>)
    requires LoweredAll(goal, v0, v1, a) && LoweredAll(goal, v1, v2, b)
    ensures LoweredAll(goal, v0, v2, a + b)
  {
    forall k | 0 <= k < |goal| ensures LoweredAt(goal, k, v0[k].value, v2[k].value, a + b) {
      SumForAppend(a, b, goal[k].engraving);
    }
  }

  lemma {:induction false} SumForSnoc(s: seq<Pair>, p: Pair, e: Engraving)
    ensures SumFor(s + [p], e) == SumFor(s, e) + (if p.engraving == e then p.value else 0)
  {
    SumForAppend(s, [p], e);
    assert SumFor([p], e) == (if p.engraving == e then p.value else 0) + SumFor([], e);
  }

  /** Entry `k` of a goal lowered in place with no object occurring twice. */
  lemma LoweredEntryAt(goal: seq<EngravingValue>, before: seq<Pair>, src: seq<Pair>, k: nat)
    requires Distinct(goal)
    requires PairKeys(before) == Engravings(goal)
    requires Covers(PairKeys(before), PairKeys(src))
    requires k < |goal|
    requires LoweredAt(goal, k, before[k].value, goal[k].value, src)
    ensures |Subtracted(before, src)| == |goal|
    ensures Entries(goal)[k] == Subtracted(before, src)[k]
  {
    SubtractedAt(before, src, k);
    var idx := IndexOf(Engravings(goal), goal[k].engraving);
    assert Engravings(goal)[k] == goal[k].engraving;
    assert (goal[idx] == goal[k]) == (idx == k);
  }

  /** When no goal object occurs twice, lowering in place is the value-level subtraction. */
  lemma LoweredIsSubtracted(goal: seq<EngravingValue>, before: seq<Pair>, src: seq<Pair>)
    requires Distinct(goal)
    requires PairKeys(before) == Engravings(goal)
    requires Covers(PairKeys(before), PairKeys(src))
    requires forall k :: 0 <= k < |goal| ==> LoweredAt(goal, k, before[k].value, goal[k].value, src)
    ensures Entries(goal) == Subtracted(before, src)
  {
    var lhs := Entries(goal);
    var rhs := Subtracted(before, src);
    forall k | 0 <= k < |goal| ensures lhs[k] == rhs[k] {
      LoweredEntryAt(goal, before, src, k);
    }
    assert |PairKeys(rhs)| == |PairKeys(before)|;
    assert lhs == rhs;
  }

  /**
   * index.ts:25-33. For each source entry in order, the first remaining-goal
   * entry with the same engraving is lowered by the source entry's value.
   * A source engraving absent from the goal makes the source throw, so it is
   * excluded; source entries are never goal entries themselves.
   */
  method RemoveItemEngravingToGoal(pb: ProcessBuild, item: Item)
    requires Covers(Engravings(pb.remainingGoal), Engravings(item.engravings))
    requires forall x :: x in item.engravings ==> x !in pb.remainingGoal
    modifies pb.remainingGoal
    ensures pb.remainingGoal == old(pb.remainingGoal)
    ensures Entries(item.engravings) == old(Entries(item.engravings))
    ensures ReducedBy(pb.remainingGoal, old(Entries(pb.remainingGoal)), Entries(pb.remainingGoal), old(Entries(item.engravings)))
  {
    var goal := pb.remainingGoal;
    var src := item.engravings;
    ghost var srcValues := Entries(src);
    for i := 0 to |src|
      invariant Entries(src) == srcValues
      invariant forall k :: 0 <= k < |goal| ==>
                  LoweredAt(goal, k, old(goal[k].value), goal[k].value, srcValues[..i])
    {
      var j := IndexOf(Engravings(goal), src[i].engraving);
      assert Engravings(src)[i] == src[i].engraving;
      assert src[i] !in goal;
      assert goal[j] !in src;
      goal[j].value := goal[j].value - src[i].value;
      assert srcValues[..i + 1] == srcValues[..i] + [srcValues[i]];
      forall k | 0 <= k < |goal|
        ensures LoweredAt(goal, k, old(goal[k].value), goal[k].value, srcValues[..i + 1])
      {
        SumForSnoc(srcValues[..i], srcValues[i], goal[k].engraving);
      }
    }
    assert srcValues[..|src|] == srcValues;
    assert LoweredAll(goal, old(Entries(goal)), Entries(goal), srcValues);
    if Distinct(goal) {
      LoweredIsSubtracted(goal, old(Entries(goal)), srcValues);
    }
  }

  /** index.ts:35-43: the remaining goal is the goal itself (one list, shared), and nothing is decomposed yet. */
  method InitBuild(pb: ProcessBuild)
    modifies pb`remainingGoal, pb`destructedEngravings
    ensures pb.remainingGoal == pb.goal && pb.destructedEngravings == []
  {
    pb.remainingGoal := pb.goal;
    pb.destructedEngravings := [];
  }

  /** index.ts:45-55: the books, wrapped in a BOOK item, are subtracted from the remaining goal. */
  method RemoveBooks(pb: ProcessBuild)
    requires Covers(Engravings(pb.remainingGoal), Engravings(pb.books))
    requires forall x :: x in pb.books ==> x !in pb.remainingGoal
    modifies pb.remainingGoal
    ensures pb.remainingGoal == old(pb.remainingGoal)
    ensures Entries(pb.books) == old(Entries(pb.books))
    ensures ReducedBy(pb.remainingGoal, old(Entries(pb.remainingGoal)), Entries(pb.remainingGoal), old(Entries(pb.books)))
  {
    var item := new Item(BOOK, pb.books, None);
    RemoveItemEngravingToGoal(pb, item);
  }

  /** The engravings of the first stone item, or none without a stone. */
  function StoneSource(items: seq<Item>): (r: seq<EngravingValue>)
    ensures FindStone(items).None? ==> r == []
    ensures FindStone(items).Some? ==> r == FindStone(items).value.engravings
  {
    match FindStone(items)
    case None => []
    case Some(stone) => stone.engravings
  }

  /**
   * index.ts:57-66: the first STONE item's engravings are subtracted from the
   * remaining goal; without a stone the build is left as it was.
   */
  method RemoveStone(pb: ProcessBuild)
    requires Covers(Engravings(pb.remainingGoal), Engravings(StoneSource(pb.items)))
    requires forall x :: x in StoneSource(pb.items) ==> x !in pb.remainingGoal
    modifies pb.remainingGoal
    ensures pb.remainingGoal == old(pb.remainingGoal)
    ensures FindStone(pb.items).None? ==> Entries(pb.remainingGoal) == old(Entries(pb.remainingGoal))
    ensures Entries(StoneSource(pb.items)) == old(Entries(StoneSource(pb.items)))
    ensures ReducedBy(pb.remainingGoal, old(Entries(pb.remainingGoal)), Entries(pb.remainingGoal), old(Entries(StoneSource(pb.items))))
  {
    var stone := FindStone(pb.items);
    if stone.Some? {
      RemoveItemEngravingToGoal(pb, stone.value);
    }
  }
}
