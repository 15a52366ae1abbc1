/**
 * Decomposition (index.ts:107-134): every remaining-goal value becomes a list
 * of accessory slot values, and the entries are appended to the build's
 * decomposed list one goal entry after another.
 */
module Decomposition {
  import opened BuildTypes

  /**
   * The slot value one iteration of the `while` loop at index.ts:111-128
   * emits for a positive remaining value `v`. The source divides numbers
   * exactly: for an integer `v`, `v / VAL_MIN > 1` is `v > VAL_MIN` and
   * `v / VAL_MAX >= 1` is `v >= VAL_MAX`.
   */
  function SlotValue(v: int): (r: int)
    ensures r == VAL_MIN || r == 4 || r == VAL_MAX
    ensures r == 4 <==> v == 4
  {
    if v % VAL_MIN == 0 && v <= 3 * VAL_MIN then VAL_MIN
    else if v > VAL_MIN then (if v >= VAL_MAX then VAL_MAX else v)
    else VAL_MIN
  }

  /** The remaining value after that iteration: lower by the emitted value, or 0 after a final 4. */
  function NextValue(v: int): (r: int)
    ensures v > 0 ==> r == 0 || r <= v - 3
  {
    if v % VAL_MIN == 0 && v <= 3 * VAL_MIN then v - VAL_MIN
    else if v > VAL_MIN then (if v >= VAL_MAX then v - VAL_MAX else 0)
    else v - VAL_MIN
  }

  /** The slot values the loop emits for a remaining value `v`, in order. */
  function Split(v: int): (r: seq<int>)
    ensures r == [] <==> v <= 0
    decreases v
  {
    if v <= 0 then [] else [SlotValue(v)] + Split(NextValue(v))
  }

  function Sum(s: seq<int>): int {
    if s == [] then 0 else s[0] + Sum(s[1..])
  }

  /** Every emitted value is 3, 4 or 5, and 4 is emitted only for a remaining value of exactly 4. */
  lemma {:induction false} SplitMagnitudes(v: int)
    ensures forall m :: m in Split(v) ==> m == 3 || m == 4 || m == 5
    ensures 4 in Split(v) <==> v == 4
    decreases v
  {
    if v > 0 {
      if v % 3 == 0 && v <= 9 {
        SplitMagnitudes(v - 3);
        assert v - 3 != 4;
      } else if v > 3 {
        if v >= 5 {
          SplitMagnitudes(v - 5);
          assert v != 9;
        }
      } else {
        SplitMagnitudes(v - 3);
      }
    }
  }

  /** The amount by which the emitted values exceed a positive `v`: only 1 and 2 remaining at the end make it nonzero. */
  function Excess(v: int): int {
    if v == 1 then 2
    else if v == 2 then 1
    else if v >= 5 && v % 5 == 2 then 1
    else 0
  }

  lemma SumCons(m: int, rest: seq<int>)
    ensures Sum([m] + rest) == m + Sum(rest)
  {
    assert ([m] + rest)[1..] == rest;
  }

  /** One iteration keeps the excess: the emitted value covers the drop in `v` and what the rest exceeds by. */
  lemma StepExcess(v: int)
    requires v > 0
    ensures var w := NextValue(v);
            SlotValue(v) + (if w <= 0 then 0 else w + Excess(w)) == v + Excess(v)
  {
  }

  /**
   * A non-positive value emits nothing; a positive one emits values summing to
   * `v` plus its excess, so between `v` and `v + 2`.
   */
  lemma {:induction false} SplitSum(v: int)
    ensures v <= 0 ==> Split(v) == []
    ensures v > 0 ==> Sum(Split(v)) == v + Excess(v)
    ensures v > 0 ==> v <= Sum(Split(v)) <= v + 2
    decreases v
  {
    if v > 0 {
      var w := NextValue(v);
      SplitSum(w);
      assert Split(v) == [SlotValue(v)] + Split(w);
      SumCons(SlotValue(v), Split(w));
      StepExcess(v);
    }
  }

  /** Sample values and the slots the loop emits for them. */
  lemma SplitExamples()
    ensures Split(1) == [3] && Split(2) == [3] && Split(4) == [4]
    ensures Split(7) == [5, 3] && Split(9) == [3, 3, 3]
    ensures Split(12) == [5, 5, 3] && Split(20) == [5, 5, 5, 5]
  {
    assert Split(2) == [3];
    assert Split(3) == [3];
    assert Split(5) == [5];
    assert Split(6) == [3, 3];
    assert Split(10) == [5, 5];
    assert Split(15) == [5, 5, 5];
  }

  /** The slot values of one goal entry, each carrying that entry's engraving. */
  function Tagged(e: Engraving, ms: seq<int>): (r: seq<Pair>)
    ensures |r| == |ms|
    ensures forall i :: 0 <= i < |ms| ==> r[i] == Pair(e, ms[i])
  {
    if ms == [] then [] else [Pair(e, ms[0])] + Tagged(e, ms[1..])
  }

  /** The decomposed list for a goal: each entry's slot values, grouped per entry, in goal order. */
  function Decompose(goal: seq<Pair>): seq<Pair> {
    if goal == [] then [] else Tagged(goal[0].engraving, Split(goal[0].value)) + Decompose(goal[1..])
  }

  /** Decomposition is grouped: a goal split in two decomposes to the two parts' results, concatenated. */
  lemma {:induction false} DecomposeAppend(a: seq<Pair>, b: seq<Pair>)
    ensures Decompose(a + b) == Decompose(a) + Decompose(b)
    decreases |a|
  {
    if a == [] {
      assert a + b == b;
    } else {
      assert (a + b)[0] == a[0];
      assert (a + b)[1..] == a[1..] + b;
      DecomposeAppend(a[1..], b);
    }
  }

  /**
   * Every decomposed entry carries the engraving of some goal entry and the
   * value 3, 4 or 5; a goal of non-positive values decomposes to nothing.
   */
  lemma {:induction false} DecomposeShape(goal: seq<Pair>)
    ensures forall p :: p in Decompose(goal) ==> p.engraving in PairKeys(goal)
    ensures forall p :: p in Decompose(goal) ==> p.value == 3 || p.value == 4 || p.value == 5
    ensures (forall i :: 0 <= i < |goal| ==> goal[i].value <= 0) ==> Decompose(goal) == []
    decreases |goal|
  {
    if goal != [] {
      DecomposeShape(goal[1..]);
      SplitMagnitudes(goal[0].value);
      SplitSum(goal[0].value);
      var t := Tagged(goal[0].engraving, Split(goal[0].value));
      forall p | p in t ensures p.engraving == goal[0].engraving && (p.value == 3 || p.value == 4 || p.value == 5) {
        var i :| 0 <= i < |t| && t[i] == p;
        assert Split(goal[0].value)[i] in Split(goal[0].value);
      }
      if forall i :: 0 <= i < |goal| ==> goal[i].value <= 0 {
        assert goal[0].value <= 0;
        assert forall i :: 0 <= i < |goal| - 1 ==> goal[1..][i].value <= 0 by {
          forall i | 0 <= i < |goal| - 1 ensures goal[1..][i].value <= 0 { assert goal[1..][i] == goal[i + 1]; }
        }
      }
    }
  }

  /** The reduction example decomposes to a single 5. */
  lemma DecomposeExample(x: Engraving)
    ensures Decompose([Pair(x, 5)]) == [Pair(x, 5)]
    ensures Decompose([Pair(x, 9)]) == [Pair(x, 3), Pair(x, 3), Pair(x, 3)]
  {
    assert Split(5) == [5];
    assert Split(9) == [3, 3, 3];
  }

  lemma EntriesAppend(a: seq<EngravingValue>, b: seq<EngravingValue>)
    ensures Entries(a + b) == Entries(a) + Entries(b)
  {
  }

  lemma DecomposeStep(goal: seq<Pair>, k: nat, out: seq<EngravingValue>, added: seq<EngravingValue>)
    requires k < |goal|
    requires Entries(out) == Decompose(goal[..k])
    requires Entries(added) == Tagged(goal[k].engraving, Split(goal[k].value))
    ensures Entries(out + added) == Decompose(goal[..k + 1])
  {
    EntriesAppend(out, added);
    assert goal[..k + 1] == goal[..k] + [goal[k]];
    DecomposeAppend(goal[..k], [goal[k]]);
    assert Decompose([goal[k]]) == Tagged(goal[k].engraving, Split(goal[k].value));
  }

  twostate lemma DistinctAppendFresh(a: seq<EngravingValue>, new b: seq<EngravingValue>)
    requires Distinct(a) && Distinct(b)
    requires forall x :: x in b ==> fresh(x)
    ensures Distinct(a + b)
  {
    forall i, j | 0 <= i < j < |a + b| ensures (a + b)[i] != (a + b)[j] {
      if i < |a| <= j {
        assert (a + b)[j] == b[j - |a|] && b[j - |a|] in b;
        assert (a + b)[i] == a[i];
      }
    }
  }

  /** Sequence regrouping, kept apart so the solver does not unfold `Split` while proving it. */
  lemma AppendStep(e: seq<int>, m: int, rest: seq<int>, whole: seq<int>)
    requires whole == [m] + rest
    ensures e + [m] + rest == e + whole
  {
  }

  /**
   * The `while` loop at index.ts:110-129 for one goal entry: fresh entries
   * carrying the entry's engraving and the slot values of `value` are pushed,
   * in order, onto the decomposed list. The loop ends because every step
   * lowers the value by at least 3 or sets it to 0.
   */
  method PushSlots(pb: ProcessBuild, engraving: Engraving, value0: int) returns (added: seq<EngravingValue>)
    modifies pb`destructedEngravings
    ensures pb.destructedEngravings == old(pb.destructedEngravings) + added
    ensures Entries(added) == Tagged(engraving, Split(value0))
    ensures forall x :: x in added ==> fresh(x)
    ensures Distinct(added)
  {
    var value := value0;
    ghost var emitted: seq<int> := [];
    added := [];
    while value > 0
      invariant pb.destructedEngravings == old(pb.destructedEngravings) + added
      invariant |added| == |emitted|
      invariant forall i :: 0 <= i < |added| ==> added[i].engraving == engraving && added[i].value == emitted[i]
      invariant emitted + Split(value) == Split(value0)
      invariant forall x :: x in added ==> fresh(x)
      invariant Distinct(added)
      decreases value
    {
      ghost var before := value;
      var m: int;
      if value % VAL_MIN == 0 && value <= 3 * VAL_MIN {
        m := VAL_MIN;
        value := value - VAL_MIN;
      } else if value > VAL_MIN {
        if value >= VAL_MAX {
          m := VAL_MAX;
          value := value - VAL_MAX;
        } else {
          m := value;
          value := 0;
        }
      } else {
        m := VAL_MIN;
        value := value - VAL_MIN;
      }
      assert m == SlotValue(before) && value == NextValue(before);
      assert Split(before) == [m] + Split(value);
      AppendStep(emitted, m, Split(value), Split(before));
      var slot := new EngravingValue(engraving, m);
      assert slot !in added;
      pb.destructedEngravings := pb.destructedEngravings + [slot];
      added := added + [slot];
      emitted := emitted + [m];
    }
    assert Split(value) == [];
    assert emitted == Split(value0);
    assert Entries(added) == Tagged(engraving, emitted);
  }

  /**
   * One iteration of the `forEach` at index.ts:109-130: the slots of the
   * `k`-th goal entry extend the decomposition of the entries before it, and
   * none of them was listed before.
   */
  method PushEntry(pb: ProcessBuild, goal: seq<EngravingValue>, k: nat, ghost goalValues: seq<Pair>,
                   ghost d0: seq<EngravingValue>, ghost out: seq<EngravingValue>)
    returns (ghost all: seq<EngravingValue>)
    requires k < |goal| && Entries(goal) == goalValues
    requires Entries(out) == Decompose(goalValues[..k])
    requires Distinct(out)
    requires pb.destructedEngravings == d0 + out
    modifies pb`destructedEngravings
    ensures pb.destructedEngravings == d0 + all
    ensures Entries(all) == Decompose(goalValues[..k + 1])
    ensures forall x :: x in all ==> x in out || fresh(x)
    ensures Distinct(all)
  {
    assert goalValues[k] == Pair(goal[k].engraving, goal[k].value);
    var added := PushSlots(pb, goal[k].engraving, goal[k].value);
    DistinctAppendFresh(out, added);
    DecomposeStep(goalValues, k, out, added);
    all := out + added;
    assert pb.destructedEngravings == d0 + all;
  }

  /**
   * index.ts:107-134. For each remaining-goal entry in order, its slot values
   * are appended to the decomposed list as fresh entries, `added`. Nothing
   * else changes.
   */
  method DestructedEngravings(pb: ProcessBuild) returns (ghost added: seq<EngravingValue>)
    modifies pb`destructedEngravings
    ensures pb.destructedEngravings == old(pb.destructedEngravings) + added
    ensures Entries(added) == Decompose(old(Entries(pb.remainingGoal)))
    ensures forall x :: x in added ==> fresh(x)
    ensures Distinct(added)
    ensures Entries(pb.goal) == old(Entries(pb.goal))
  {
    var goal := pb.remainingGoal;
    ghost var d0 := pb.destructedEngravings;
    ghost var goalValues := Entries(goal);
    added := [];
    for k := 0 to |goal|
      invariant pb.destructedEngravings == d0 + added
      invariant Entries(added) == Decompose(goalValues[..k])
      invariant forall x :: x in added ==> fresh(x)
      invariant Distinct(added)
    {
      added := PushEntry(pb, goal, k, goalValues, d0, added);
    }
    assert goalValues[..|goal|] == goalValues;
  }
}
