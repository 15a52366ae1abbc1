/**
 * Owned-item matching (index.ts:184-207): an item already owned is marked
 * OWNED when one of its first two engraving entries is, by identity, a
 * decomposed entry above the minimum and the other one at the minimum.
 */
module Matching {
  import opened BuildTypes
  import opened Feasibility

  /**
   * The decomposed entries above the minimum (index.ts:188). The source also
   * sorts this copy; only membership is asked of it, so the order is kept here.
   */
  function AboveMinimal(d: seq<EngravingValue>): seq<EngravingValue>
    reads d
  {
    if d == [] then []
    else (if d[0].value > VAL_MIN then [d[0]] else []) + AboveMinimal(d[1..])
  }

  /** The decomposed entries exactly at the minimum, in order (index.ts:190). */
  function AtMinimal(d: seq<EngravingValue>): seq<EngravingValue>
    reads d
  {
    if d == [] then []
    else (if d[0].value == VAL_MIN then [d[0]] else []) + AtMinimal(d[1..])
  }

  /** An entry is in a filtered list exactly when it is a decomposed entry with the filter's value. */
  lemma {:induction false} FilterMembership(d: seq<EngravingValue>, x: EngravingValue)
    ensures x in AboveMinimal(d) <==> x in d && x.value > VAL_MIN
    ensures x in AtMinimal(d) <==> x in d && x.value == VAL_MIN
  {
    if d != [] {
      FilterMembership(d[1..], x);
      assert x in d <==> x == d[0] || x in d[1..];
    }
  }

  /** The filter used for matching is the one the feasibility count uses. */
  lemma {:induction false} AboveMinimalCount(d: seq<EngravingValue>)
    ensures |AboveMinimal(d)| == CountAbove(Entries(d))
  {
    if d != [] {
      AboveMinimalCount(d[1..]);
      assert Entries(d)[1..] == Entries(d[1..]);
    }
  }

  /** `includes` of a possibly `undefined` element: the lists never hold `undefined`. */
  predicate Includes(list: seq<EngravingValue>, x: Option<EngravingValue>): (r: bool)
    ensures x.None? ==> !r
  {
    x.Some? && x.value in list
  }

  lemma IncludesFacts(d: seq<EngravingValue>, x: Option<EngravingValue>)
    ensures Includes(AboveMinimal(d), x) <==> x.Some? && x.value in d && x.value.value > VAL_MIN
    ensures Includes(AtMinimal(d), x) <==> x.Some? && x.value in d && x.value.value == VAL_MIN
  {
    if x.Some? {
      FilterMembership(d, x.value);
    }
  }

  /**
   * The test at index.ts:196-199 for an item's engravings, against the two
   * filtered lists (an item with fewer than two entries reads `undefined`).
   * The lists hold objects, so membership is identity.
   */
  predicate IsMatch(engravings: seq<EngravingValue>, above: seq<EngravingValue>, atMin: seq<EngravingValue>) {
    var first := At(engravings, 0);
    var second := At(engravings, 1);
    (Includes(above, first) && Includes(atMin, second)) || (Includes(above, second) && Includes(atMin, first))
  }

  /**
   * Against the lists filtered from `d`, an item matches exactly when it has at
   * least two entries and, in one order or the other, its first two are
   * decomposed entries (the same objects), one above the minimum and one at it.
   */
  lemma IsMatchIff(engravings: seq<EngravingValue>, d: seq<EngravingValue>)
    ensures IsMatch(engravings, AboveMinimal(d), AtMinimal(d)) <==>
              |engravings| >= 2 &&
              var first, second := engravings[0], engravings[1];
              first in d && second in d &&
              ((first.value > VAL_MIN && second.value == VAL_MIN) ||
               (second.value > VAL_MIN && first.value == VAL_MIN))
  {
    IncludesFacts(d, At(engravings, 0));
    IncludesFacts(d, At(engravings, 1));
  }

  /** The items the matcher returns: those that match, in item order. */
  function Matched(items: seq<Item>, above: seq<EngravingValue>, atMin: seq<EngravingValue>): (r: seq<Item>)
    ensures forall i :: 0 <= i < |r| ==> r[i] in items && IsMatch(r[i].engravings, above, atMin)
    ensures |r| <= |items|
  {
    if items == [] then []
    else (if IsMatch(items[0].engravings, above, atMin) then [items[0]] else []) + Matched(items[1..], above, atMin)
  }

  /** The matcher returns nothing exactly when no item matches. */
  lemma {:induction false} MatchedEmpty(items: seq<Item>, above: seq<EngravingValue>, atMin: seq<EngravingValue>)
    ensures Matched(items, above, atMin) == [] <==>
              forall k :: 0 <= k < |items| ==> !IsMatch(items[k].engravings, above, atMin)
  {
    if items != [] {
      MatchedEmpty(items[1..], above, atMin);
      assert forall k :: 1 <= k < |items| ==> items[1..][k - 1] == items[k];
    }
  }

  /**
   * In a real run nothing matches: the decomposed entries are created by the
   * decomposition, so no owned item's engravings can be one of them.
   */
  lemma NoMatchForForeignEntries(items: seq<Item>, d: seq<EngravingValue>)
    requires forall k, j :: 0 <= k < |items| && 0 <= j < |items[k].engravings| ==> items[k].engravings[j] !in d
    ensures Matched(items, AboveMinimal(d), AtMinimal(d)) == []
  {
    MatchedEmpty(items, AboveMinimal(d), AtMinimal(d));
    forall k | 0 <= k < |items| ensures !IsMatch(items[k].engravings, AboveMinimal(d), AtMinimal(d)) {
      IsMatchIff(items[k].engravings, d);
    }
  }

  /** The matcher misses no item: every matching item is returned. */
  lemma {:induction false} MatchedComplete(items: seq<Item>, above: seq<EngravingValue>, atMin: seq<EngravingValue>)
    ensures forall k :: 0 <= k < |items| && IsMatch(items[k].engravings, above, atMin) ==> items[k] in Matched(items, above, atMin)
  {
    if items != [] {
      MatchedComplete(items[1..], above, atMin);
      assert forall k :: 1 <= k < |items| ==> items[1..][k - 1] == items[k];
    }
  }

  /** The matcher keeps item order: matching a concatenation concatenates the matches. */
  lemma {:induction false} MatchedAppend(a: seq<Item>, b: seq<Item>, above: seq<EngravingValue>, atMin: seq<EngravingValue>)
    ensures Matched(a + b, above, atMin) == Matched(a, above, atMin) + Matched(b, above, atMin)
  {
    if a == [] {
      assert a + b == b;
    } else {
      assert (a + b)[1..] == a[1..] + b;
      MatchedAppend(a[1..], b, above, atMin);
    }
  }

  /** One step of the matcher's loop: the next item is appended exactly when it matches. */
  lemma MatchedSnoc(items: seq<Item>, it: Item, above: seq<EngravingValue>, atMin: seq<EngravingValue>)
    ensures Matched(items + [it], above, atMin)
         == Matched(items, above, atMin) + (if IsMatch(it.engravings, above, atMin) then [it] else [])
  {
    MatchedAppend(items, [it], above, atMin);
    assert [it][1..] == [];
  }

  /**
   * index.ts:184-207. Returns the matching items in item order and marks each
   * of them OWNED; every other item keeps its status.
   */
  method FindCurrentStuff(pb: ProcessBuild) returns (owned: seq<Item>)
    modifies pb.items
    ensures owned == Matched(pb.items, AboveMinimal(pb.destructedEngravings), AtMinimal(pb.destructedEngravings))
    ensures forall k :: 0 <= k < |pb.items| ==>
              pb.items[k].status
              == if IsMatch(pb.items[k].engravings, AboveMinimal(pb.destructedEngravings), AtMinimal(pb.destructedEngravings))
                 then Some(OWNED) else old(pb.items[k].status)
  {
    var above := AboveMinimal(pb.destructedEngravings);
    var atMin := AtMinimal(pb.destructedEngravings);
    var items := pb.items;
    owned := [];
    for i := 0 to |items|
      invariant owned == Matched(items[..i], above, atMin)
      invariant forall it :: it in items ==>
                  it.status == if it in items[..i] && IsMatch(it.engravings, above, atMin) then Some(OWNED) else old(it.status)
    {
      var item := items[i];
      var first := At(item.engravings, 0);
      var second := At(item.engravings, 1);
      if (Includes(above, first) && Includes(atMin, second)) || (Includes(above, second) && Includes(atMin, first)) {
        item.status := Some(OWNED);
        owned := owned + [item];
      }
      MatchedSnoc(items[..i], item, above, atMin);
      assert items[..i + 1] == items[..i] + [item];
    }
    assert items[..|items|] == items;
  }
}
