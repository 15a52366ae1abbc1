/**
 * The feasibility predicate (index.ts:136-144): at most 10 decomposed entries
 * (five accessories of two engravings) and at most 5 of them above the minimum.
 */
module Feasibility {
  import opened BuildTypes
  import opened Decomposition

  /** Number of decomposed entries whose value is above the minimum slot value. */
  function CountAbove(s: seq<Pair>): (r: nat)
    ensures r <= |s|
    ensures r == 0 <==> forall i :: 0 <= i < |s| ==> s[i].value <= VAL_MIN
  {
    if s == [] then 0
    else
      assert forall i :: 1 <= i < |s| ==> s[1..][i - 1] == s[i];
      (if s[0].value > VAL_MIN then 1 else 0) + CountAbove(s[1..])
  }

  /**
   * The verdict `checkIfBuildIsPossible` prints: at most 10 slot values and at
   * most 5 of them above the minimum. Any list of at most five entries passes.
   */
  predicate IsBuildPossible(s: seq<Pair>): (r: bool)
    ensures |s| <= 5 ==> r
    ensures r ==> |s| <= 10
  {
    |s| <= 10 && CountAbove(s) <= 5
  }

  lemma CountAboveAppend(a: seq<Pair>, b: seq<Pair>)
    ensures CountAbove(a + b) == CountAbove(a) + CountAbove(b)
  {
    if a == [] {
      assert a + b == b;
    } else {
      assert (a + b)[1..] == a[1..] + b;
      CountAboveAppend(a[1..], b);
    }
  }

  /** A value `v` of 10 or more starts with a 5 and goes on as the value `w`, 5 lower. */
  lemma FiveStep(e: Engraving, v: int, w: int)
    requires v >= 10 && w == v - 5
    ensures |Tagged(e, Split(v))| == 1 + |Tagged(e, Split(w))|
    ensures CountAbove(Tagged(e, Split(v))) == 1 + CountAbove(Tagged(e, Split(w)))
  {
    assert Split(v) == [5] + Split(w);
    var t := Tagged(e, Split(v));
    assert t == [Pair(e, 5)] + Tagged(e, Split(w));
    assert t[1..] == Tagged(e, Split(w));
  }

  /** A value `5 + 5 * q + r` is `q` fives followed by the slots of the base value `5 + r`. */
  lemma {:induction false} Peel(e: Engraving, v: int, q: nat, r: int)
    requires v == 5 + 5 * q + r && 0 <= r < 5
    ensures |Tagged(e, Split(v))| == q + |Tagged(e, Split(5 + r))|
    ensures CountAbove(Tagged(e, Split(v))) == q + CountAbove(Tagged(e, Split(5 + r)))
  {
    if q > 0 {
      var w := v - 5;
      var q1: nat := q - 1;
      assert 5 * q == 5 * q1 + 5;
      FiveStep(e, v, w);
      Peel(e, w, q1, r);
    }
  }

  /** Length and count above the minimum of the slots of the base value `5 + r`. */
  function BaseLength(r: int): int {
    if r == 0 then 1 else if r == 4 then 3 else 2
  }

  function BaseCount(r: int): int {
    if r == 1 || r == 4 then 0 else 1
  }

  lemma CountCons(e: Engraving, m: int, rest: seq<int>)
    ensures Tagged(e, [m] + rest) == [Pair(e, m)] + Tagged(e, rest)
    ensures CountAbove(Tagged(e, [m] + rest)) == (if m > VAL_MIN then 1 else 0) + CountAbove(Tagged(e, rest))
  {
    var t := Tagged(e, [m] + rest);
    assert ([m] + rest)[1..] == rest;
    assert t[1..] == Tagged(e, rest);
  }

  /** The base values 5 to 9 emit 5, 3 3, 5 3, 5 3 and 3 3 3. */
  lemma BaseValues(e: Engraving, r: int)
    requires 0 <= r < 5
    ensures |Tagged(e, Split(5 + r))| == BaseLength(r)
    ensures CountAbove(Tagged(e, Split(5 + r))) == BaseCount(r)
  {
    if r == 0 {
      BaseFive(e);
    } else if r == 1 {
      BaseSix(e);
    } else if r == 4 {
      BaseNine(e);
    } else {
      BaseSevenEight(e, 5 + r);
    }
  }

  lemma BaseFive(e: Engraving)
    ensures |Tagged(e, Split(5))| == 1 && CountAbove(Tagged(e, Split(5))) == 1
  {
    assert Split(5) == [5];
    CountCons(e, 5, []);
  }

  lemma BaseSix(e: Engraving)
    ensures |Tagged(e, Split(6))| == 2 && CountAbove(Tagged(e, Split(6))) == 0
  {
    assert Split(6) == [3, 3];
    CountCons(e, 3, [3]);
    CountCons(e, 3, []);
  }

  lemma BaseSevenEight(e: Engraving, v: int)
    requires v == 7 || v == 8
    ensures |Tagged(e, Split(v))| == 2 && CountAbove(Tagged(e, Split(v))) == 1
  {
    assert Split(v) == [5, 3];
    CountCons(e, 5, [3]);
    CountCons(e, 3, []);
  }

  lemma BaseNine(e: Engraving)
    ensures |Tagged(e, Split(9))| == 3 && CountAbove(Tagged(e, Split(9))) == 0
  {
    assert Split(9) == [3, 3, 3];
    CountCons(e, 3, [3, 3]);
    CountCons(e, 3, [3]);
    CountCons(e, 3, []);
  }

  lemma FrontierArith(v: int, q: nat, r: int)
    requires v == 5 + 5 * q + r && 0 <= r < 5
    ensures (q + BaseLength(r) <= 10 && q + BaseCount(r) <= 5) <==> (v <= 29 || v == 31 || v == 34)
  {
  }

  lemma {:induction false} FrontierFromFive(e: Engraving, v: int)
    requires v >= 5
    ensures IsBuildPossible(Tagged(e, Split(v))) <==> v <= 29 || v == 31 || v == 34
  {
    var q: nat, r := (v - 5) / 5, (v - 5) % 5;
    Peel(e, v, q, r);
    BaseValues(e, r);
    FrontierArith(v, q, r);
  }

  /**
   * A goal with a single value `v` decomposes to a possible build exactly when
   * `v` is at most 29, or 31, or 34: the admitted values are not a prefix of
   * the integers (30, 32 and 33 are refused).
   */
  lemma SingleGoalFrontier(e: Engraving, v: int)
    ensures IsBuildPossible(Decompose([Pair(e, v)])) <==> v <= 29 || v == 31 || v == 34
  {
    var t := Tagged(e, Split(v));
    assert Decompose([Pair(e, v)]) == t + Decompose([]);
    assert Decompose([Pair(e, v)]) == t;
    if v < 5 {
      if v <= 0 {
        assert Split(v) == [];
      } else if v == 3 || v == 4 {
        assert Split(v) == [v];
      } else {
        assert Split(v) == [3] + Split(v - 3);
        assert Split(v - 3) == [];
      }
      assert |t| <= 1;
    } else {
      FrontierFromFive(e, v);
    }
  }
}
