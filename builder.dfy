/**
 * The greedy builder (index.ts:146-182, 209-226): the decomposed list is
 * sorted by decreasing value, the entries of already owned items are removed
 * from a copy of it, and each free accessory slot takes the strongest and the
 * weakest entry still available.
 */
module Builder {
  import opened BuildTypes

  // ---------------------------------------------------------------------------
  // The sort at index.ts:149: `Array.prototype.sort` with `b.value - a.value`,
  // a stable sort by decreasing value.

  predicate SortedDesc(s: seq<EngravingValue>)
    reads s
  {
    forall i, j :: 0 <= i < j < |s| ==> s[i].value >= s[j].value
  }

  /** Inserts `x` before the first entry whose value is not above its own. */
  function Insert(x: EngravingValue, t: seq<EngravingValue>): (r: seq<EngravingValue>)
    reads x, t
    ensures |r| == |t| + 1
    ensures forall i :: 0 <= i < |r| ==> r[i] == x || r[i] in t
  {
    if t == [] then [x]
    else if x.value >= t[0].value then [x] + t
    else [t[0]] + Insert(x, t[1..])
  }

  /** The list after the sort. */
  function SortDesc(s: seq<EngravingValue>): (r: seq<EngravingValue>)
    reads s
    ensures |r| == |s|
    ensures forall i :: 0 <= i < |r| ==> r[i] in s
  {
    if s == [] then [] else Insert(s[0], SortDesc(s[1..]))
  }

  lemma {:induction false} InsertMultiset(x: EngravingValue, t: seq<EngravingValue>)
    ensures multiset(Insert(x, t)) == multiset(t) + multiset{x}
    decreases |t|
  {
    if t != [] && x.value < t[0].value {
      InsertMultiset(x, t[1..]);
      assert t == [t[0]] + t[1..];
    }
  }

  /** The entries with value `v`, in list order: the sort must keep this order for every `v`. */
  function WithValue(s: seq<EngravingValue>, v: int): seq<EngravingValue>
    reads s
  {
    if s == [] then [] else (if s[0].value == v then [s[0]] else []) + WithValue(s[1..], v)
  }

  /** A sorted list stays sorted under a head no smaller than any of its entries. */
  lemma SortedCons(h: EngravingValue, u: seq<EngravingValue>)
    requires SortedDesc(u)
    requires forall k :: 0 <= k < |u| ==> u[k].value <= h.value
    ensures SortedDesc([h] + u)
  {
    var r := [h] + u;
    forall i, j | 0 <= i < j < |r| ensures r[i].value >= r[j].value {
      assert r[j] == u[j - 1];
      if i > 0 {
        assert r[i] == u[i - 1];
      }
    }
  }

  lemma SortedTail(t: seq<EngravingValue>)
    requires SortedDesc(t) && t != []
    ensures SortedDesc(t[1..])
    ensures forall k :: 0 <= k < |t[1..]| ==> t[1..][k].value <= t[0].value
  {
  }

  lemma {:induction false} InsertSorted(x: EngravingValue, t: seq<EngravingValue>)
    requires SortedDesc(t)
    ensures SortedDesc(Insert(x, t))
    decreases |t|
  {
    if t != [] && x.value < t[0].value {
      var rest := t[1..];
      SortedTail(t);
      InsertSorted(x, rest);
      var u := Insert(x, rest);
      forall k | 0 <= k < |u| ensures u[k].value <= t[0].value {
        if u[k] != x {
          var j :| 0 <= j < |rest| && rest[j] == u[k];
        }
      }
      SortedCons(t[0], u);
    }
  }

  lemma {:induction false} InsertWithValue(x: EngravingValue, t: seq<EngravingValue>, v: int)
    ensures WithValue(Insert(x, t), v) == (if x.value == v then [x] else []) + WithValue(t, v)
    decreases |t|
  {
    if t == [] {
      assert WithValue([x], v) == (if x.value == v then [x] else []) + WithValue([], v);
    } else if x.value >= t[0].value {
      assert ([x] + t)[1..] == t;
    } else {
      InsertWithValue(x, t[1..], v);
      assert ([t[0]] + Insert(x, t[1..]))[1..] == Insert(x, t[1..]);
    }
  }

  /**
   * The sort of index.ts:149 orders the entries by decreasing value, keeps
   * exactly the same entry objects, and is stable: entries of equal value
   * stay in their original order.
   */
  lemma {:induction false} SortDescCorrect(s: seq<EngravingValue>)
    ensures SortedDesc(SortDesc(s))
    ensures multiset(SortDesc(s)) == multiset(s)
    ensures forall v :: WithValue(SortDesc(s), v) == WithValue(s, v)
    decreases |s|
  {
    if s != [] {
      var rest := s[1..];
      var sorted := SortDesc(rest);
      SortDescCorrect(rest);
      InsertSorted(s[0], sorted);
      InsertMultiset(s[0], sorted);
      assert s == [s[0]] + rest;
      assert multiset(s) == multiset([s[0]]) + multiset(rest);
      forall v ensures WithValue(SortDesc(s), v) == WithValue(s, v) {
        InsertWithValue(s[0], sorted, v);
      }
    }
  }

  // ---------------------------------------------------------------------------
  // The removal of the owned items' entries (index.ts:151-156).

  /** `findIndex` by identity: the first index holding `x`, or -1 (also for `undefined`). */
  function FindIndex(s: seq<EngravingValue>, x: Option<EngravingValue>): (i: int)
    ensures -1 <= i < |s|
    ensures i >= 0 <==> x.Some? && x.value in s
    ensures i >= 0 ==> s[i] == x.value && forall j :: 0 <= j < i ==> s[j] != x.value
  {
    if s == [] || x.None? then -1
    else if s[0] == x.value then 0
    else
      var j := FindIndex(s[1..], x);
      if j < 0 then -1 else j + 1
  }

  /**
   * `splice(start, 1)`: a negative start counts from the end (clamped to 0),
   * a start past the end removes nothing.
   */
  function Splice1<T>(s: seq<T>, start: int): (r: seq<T>)
    ensures 0 <= start < |s| ==> r == s[..start] + s[start + 1..]
    ensures start == -1 && |s| > 0 ==> r == s[..|s| - 1]
    ensures start >= |s| ==> r == s
    ensures |s| - 1 <= |r| <= |s|
  {
    var k := if start < 0 then (if |s| + start < 0 then 0 else |s| + start) else start;
    if k < |s| then s[..k] + s[k + 1..] else s
  }

  lemma Splice1Multiset<T>(s: seq<T>, start: int)
    ensures multiset(Splice1(s, start)) <= multiset(s)
  {
    var k := if start < 0 then (if |s| + start < 0 then 0 else |s| + start) else start;
    if k < |s| {
      assert s == s[..k] + [s[k]] + s[k + 1..];
    }
  }

  /**
   * One owned item's removal, as written: both indices are looked up before
   * the first `splice`, so the second index is stale after it.
   */
  function RemoveOne(pool: seq<EngravingValue>, item: Item): (r: seq<EngravingValue>)
    ensures |pool| - 2 <= |r| <= |pool|
  {
    var firstIndex := FindIndex(pool, At(item.engravings, 0));
    var secondIndex := FindIndex(pool, At(item.engravings, 1));
    Splice1(Splice1(pool, firstIndex), secondIndex)
  }

  /** The pool after the removals for the owned items, in their order. */
  function RemoveOwned(pool: seq<EngravingValue>, existing: seq<Item>): seq<EngravingValue>
    decreases |existing|
  {
    if existing == [] then pool
    else RemoveOne(RemoveOwned(pool, existing[..|existing| - 1]), existing[|existing| - 1])
  }

  /** The removals never add an entry, and each owned item removes at most two. */
  lemma {:induction false} RemoveOwnedShrinks(pool: seq<EngravingValue>, existing: seq<Item>)
    ensures multiset(RemoveOwned(pool, existing)) <= multiset(pool)
    ensures |RemoveOwned(pool, existing)| >= |pool| - 2 * |existing|
    decreases |existing|
  {
    if existing != [] {
      var before := RemoveOwned(pool, existing[..|existing| - 1]);
      var item := existing[|existing| - 1];
      RemoveOwnedShrinks(pool, existing[..|existing| - 1]);
      var firstIndex := FindIndex(before, At(item.engravings, 0));
      Splice1Multiset(before, firstIndex);
      Splice1Multiset(Splice1(before, firstIndex), FindIndex(before, At(item.engravings, 1)));
    }
  }

  /** Two splices where the second index is the lower one: both entries go. */
  lemma SpliceLowerSecond<T>(p: seq<T>, f: int, g: int)
    requires 0 <= g < f < |p|
    ensures Splice1(Splice1(p, f), g) == p[..g] + p[g + 1..f] + p[f + 1..]
  {
    var p1 := Splice1(p, f);
    assert p1 == p[..f] + p[f + 1..];
    assert Splice1(p1, g) == p1[..g] + p1[g + 1..];
    assert p1[..g] == p[..g];
    assert p1[g + 1..] == p[g + 1..f] + p[f + 1..];
  }

  /** Two splices where the second index, taken before the first splice, is the higher one and not last. */
  lemma SpliceHigherSecond<T>(p: seq<T>, f: int, g: int)
    requires 0 <= f < g < |p| - 1
    ensures Splice1(Splice1(p, f), g) == p[..f] + p[f + 1..g + 1] + p[g + 2..]
  {
    var p1 := Splice1(p, f);
    assert p1 == p[..f] + p[f + 1..];
    assert Splice1(p1, g) == p1[..g] + p1[g + 1..];
    assert p1[..g] == p[..f] + p[f + 1..g + 1];
    assert p1[g + 1..] == p[g + 2..];
  }

  /** Two splices where the second index, taken before the first splice, is the last one: it is past the end. */
  lemma SpliceLastSecond<T>(p: seq<T>, f: int, g: int)
    requires 0 <= f < g == |p| - 1
    ensures Splice1(Splice1(p, f), g) == p[..f] + p[f + 1..]
  {
    assert |Splice1(p, f)| == g;
  }

  /** For an item with two entries in the pool, its removal is two splices at the entries' first indices. */
  lemma RemoveOneAt(pool: seq<EngravingValue>, item: Item)
    requires |item.engravings| >= 2
    ensures RemoveOne(pool, item)
         == Splice1(Splice1(pool, FindIndex(pool, Some(item.engravings[0]))), FindIndex(pool, Some(item.engravings[1])))
  {
  }

  /**
   * When the second entry lies before the first in the pool, the stale index
   * still points at it, and exactly the item's two entries are removed.
   */
  lemma RemoveOneSecondFirst(pool: seq<EngravingValue>, item: Item, f: int, g: int)
    requires |item.engravings| >= 2
    requires f == FindIndex(pool, Some(item.engravings[0])) && g == FindIndex(pool, Some(item.engravings[1]))
    requires 0 <= g < f
    ensures RemoveOne(pool, item) == pool[..g] + pool[g + 1..f] + pool[f + 1..]
  {
    RemoveOneAt(pool, item);
    SpliceLowerSecond(pool, f, g);
  }

  /**
   * When the second entry lies after the first and is not last, the stale
   * index is one too far: the item's second entry stays in the pool and the
   * entry after it is removed instead.
   */
  lemma StaleSecondIndex(pool: seq<EngravingValue>, item: Item, f: int, g: int)
    requires |item.engravings| >= 2
    requires f == FindIndex(pool, Some(item.engravings[0])) && g == FindIndex(pool, Some(item.engravings[1]))
    requires 0 <= f < g < |pool| - 1
    ensures RemoveOne(pool, item) == pool[..f] + pool[f + 1..g + 1] + pool[g + 2..]
  {
    RemoveOneAt(pool, item);
    SpliceHigherSecond(pool, f, g);
  }

  /**
   * When the second entry lies after the first and is the pool's last entry,
   * the stale index is past the end: only the first entry is removed.
   */
  lemma StaleSecondIndexAtEnd(pool: seq<EngravingValue>, item: Item, f: int, g: int)
    requires |item.engravings| >= 2
    requires f == FindIndex(pool, Some(item.engravings[0])) && g == FindIndex(pool, Some(item.engravings[1]))
    requires 0 <= f < g == |pool| - 1
    ensures RemoveOne(pool, item) == pool[..f] + pool[f + 1..]
  {
    RemoveOneAt(pool, item);
    SpliceLastSecond(pool, f, g);
  }

  /** The entry at `g` survives two splices at `f` and then `g` when `f < g`. */
  lemma SpliceKeeps<T>(p: seq<T>, f: int, g: int)
    requires 0 <= f < g < |p|
    ensures p[g] in Splice1(Splice1(p, f), g)
  {
    if g < |p| - 1 {
      SpliceHigherSecond(p, f, g);
      assert (p[..f] + p[f + 1..g + 1] + p[g + 2..])[g - 1] == p[g];
    } else {
      SpliceLastSecond(p, f, g);
      assert (p[..f] + p[f + 1..])[g - 1] == p[g];
    }
  }

  /** Either way, an owned item whose second entry lies after its first keeps that second entry in the pool. */
  lemma StaleSecondIndexKeeps(pool: seq<EngravingValue>, item: Item, f: int, g: int)
    requires |item.engravings| >= 2
    requires f == FindIndex(pool, Some(item.engravings[0])) && g == FindIndex(pool, Some(item.engravings[1]))
    requires 0 <= f < g
    ensures item.engravings[1] in RemoveOne(pool, item)
  {
    RemoveOneAt(pool, item);
    SpliceKeeps(pool, f, g);
  }

  /**
   * An owned item none of whose two entries is in the pool still removes
   * entries: `splice(-1, 1)` removes the last one, twice.
   */
  lemma RemoveOneMissing(pool: seq<EngravingValue>, item: Item)
    requires |pool| >= 2
    requires forall j :: 0 <= j < |item.engravings| ==> item.engravings[j] !in pool
    ensures RemoveOne(pool, item) == pool[..|pool| - 2]
  {
    assert FindIndex(pool, At(item.engravings, 0)) == -1;
    assert FindIndex(pool, At(item.engravings, 1)) == -1;
    assert pool[..|pool| - 1][..|pool| - 2] == pool[..|pool| - 2];
  }

  /** A pool [a, b, c] and an owned item with entries [a, b] leave [b], not [c]. */
  lemma StaleSecondIndexExample(a: EngravingValue, b: EngravingValue, c: EngravingValue, item: Item)
    requires a != b && b != c && a != c
    requires item.engravings == [a, b]
    ensures RemoveOne([a, b, c], item) == [b]
  {
    assert FindIndex([a, b, c], Some(a)) == 0;
    assert FindIndex([b, c], Some(b)) == 0;
    assert FindIndex([a, b, c], Some(b)) == 1;
    assert Splice1([a, b, c], 0) == [b, c];
    assert Splice1([b, c], 1) == [b];
  }

  // ---------------------------------------------------------------------------
  // The free accessory slots (index.ts:209-226).

  function CountKind(items: seq<Item>, t: ItemType): nat {
    if items == [] then 0 else (if items[0].kind == t then 1 else 0) + CountKind(items[1..], t)
  }

  /** Accessory slots of each type in a build: one necklace, two earrings, two rings. */
  function Capacity(t: ItemType): nat {
    match t
    case NECKLACE => 1
    case EARRING => 2
    case RING => 2
    case _ => 0
  }

  /** Slots of type `t` the owned items leave free. */
  function Free(items: seq<Item>, t: ItemType): nat {
    if CountKind(items, t) >= Capacity(t) then 0 else Capacity(t) - CountKind(items, t)
  }

  function Repeat(t: ItemType, n: nat): (r: seq<ItemType>)
    ensures |r| == n && forall i :: 0 <= i < n ==> r[i] == t
  {
    if n == 0 then [] else Repeat(t, n - 1) + [t]
  }

  lemma {:induction false} CountKindsTotal(items: seq<Item>)
    ensures CountKind(items, NECKLACE) + CountKind(items, EARRING) + CountKind(items, RING)
            + CountKind(items, STONE) + CountKind(items, BOOK) == |items|
  {
    if items != [] {
      CountKindsTotal(items[1..]);
    }
  }

  /**
   * The free slots in the order they are filled: the necklace, then the
   * earrings, then the rings. There are at most five, and at least five less
   * the number of owned items, so the builder never reads past the list.
   */
  function EmplacementsFor(items: seq<Item>): (r: seq<ItemType>)
    ensures 5 - |items| <= |r| <= 5
  {
    CountKindsTotal(items);
    Repeat(NECKLACE, Free(items, NECKLACE)) + Repeat(EARRING, Free(items, EARRING)) + Repeat(RING, Free(items, RING))
  }

  /** Position of a type in the filling order. */
  function Rank(t: ItemType): nat {
    match t
    case NECKLACE => 0
    case EARRING => 1
    case RING => 2
    case _ => 3
  }

  /**
   * Each accessory type gets as many free slots as its capacity exceeds the
   * owned items of that type (none when it does not), and other types get none.
   */
  lemma EmplacementsCount(items: seq<Item>, t: ItemType)
    ensures multiset(EmplacementsFor(items))[t] == Free(items, t)
  {
    var a, b, c := Repeat(NECKLACE, Free(items, NECKLACE)), Repeat(EARRING, Free(items, EARRING)), Repeat(RING, Free(items, RING));
    RepeatCount(NECKLACE, |a|, t);
    RepeatCount(EARRING, |b|, t);
    RepeatCount(RING, |c|, t);
    assert EmplacementsFor(items) == a + b + c;
    assert multiset(a + b + c) == multiset(a) + multiset(b) + multiset(c);
  }

  lemma EmplacementsCounts(items: seq<Item>)
    ensures forall t :: multiset(EmplacementsFor(items))[t] == Free(items, t)
  {
    forall t ensures multiset(EmplacementsFor(items))[t] == Free(items, t) {
      EmplacementsCount(items, t);
    }
  }

  /** The free slots come in the order necklace, earrings, rings. */
  lemma EmplacementsOrder(items: seq<Item>)
    ensures forall i, j :: 0 <= i < j < |EmplacementsFor(items)| ==>
              Rank(EmplacementsFor(items)[i]) <= Rank(EmplacementsFor(items)[j])
  {
    var n, e := Free(items, NECKLACE), Free(items, EARRING);
    var r := EmplacementsFor(items);
    assert forall i :: 0 <= i < |r| ==> Rank(r[i]) == if i < n then 0 else if i < n + e then 1 else 2;
  }

  /** Without owned items, the five slots are a necklace, two earrings and two rings. */
  lemma EmplacementsNoneOwned()
    ensures EmplacementsFor([]) == [NECKLACE, EARRING, EARRING, RING, RING]
  {
    assert Repeat(NECKLACE, 1) == [NECKLACE];
    assert Repeat(EARRING, 2) == [EARRING, EARRING];
    assert Repeat(RING, 2) == [RING, RING];
  }

  lemma {:induction false} RepeatCount(t: ItemType, n: nat, u: ItemType)
    ensures multiset(Repeat(t, n))[u] == if t == u then n else 0
  {
    if n > 0 {
      RepeatCount(t, n - 1, u);
    }
  }

  /** index.ts:209-226: the free slot types, counted from the owned items. */
  method GetRemainingEmplacements(existing: seq<Item>) returns (emp: seq<ItemType>)
    ensures emp == EmplacementsFor(existing)
    ensures forall t :: multiset(emp)[t] == Free(existing, t)
  {
    emp := [];
    var necklaces := CountKind(existing, NECKLACE);
    if necklaces == 0 {
      emp := emp + [NECKLACE];
    }
    assert emp == Repeat(NECKLACE, Free(existing, NECKLACE));
    ghost var necklaceSlots := emp;
    var earrings: int := CountKind(existing, EARRING);
    var i := 0;
    while i < 2 - earrings
      invariant 0 <= i <= Free(existing, EARRING)
      invariant emp == necklaceSlots + Repeat(EARRING, i)
    {
      emp := emp + [EARRING];
      i := i + 1;
    }
    ghost var earringSlots := emp;
    var rings: int := CountKind(existing, RING);
    i := 0;
    while i < 2 - rings
      invariant 0 <= i <= Free(existing, RING)
      invariant emp == earringSlots + Repeat(RING, i)
    {
      emp := emp + [RING];
      i := i + 1;
    }
    assert emp == EmplacementsFor(existing);
    EmplacementsCounts(existing);
  }

  // ---------------------------------------------------------------------------
  // Filling the free slots (index.ts:160-178): `shift` then `pop` per slot.

  /**
   * The pool left after `i` items were built: each build shifts the first
   * entry off and then, if any entry is left, pops the last one.
   */
  function Remaining(p: seq<EngravingValue>, i: nat): (r: seq<EngravingValue>)
    ensures |r| <= |p|
  {
    if i == 0 then p
    else
      var r := Remaining(p, i - 1);
      if |r| >= 2 then r[1..|r| - 1] else []
  }

  /** The entries of the `i`-th built item: the first and, when there is one, the last of the pool it finds. */
  function Slot(p: seq<EngravingValue>, i: nat): (r: seq<EngravingValue>)
    ensures |r| <= 2
  {
    var r := Remaining(p, i);
    if |r| >= 2 then [r[0], r[|r| - 1]] else r
  }

  /** The entries of the first `n` built items, in order. */
  function Slots(p: seq<EngravingValue>, n: nat): seq<EngravingValue> {
    if n == 0 then [] else Slots(p, n - 1) + Slot(p, n - 1)
  }

  /** After `i` builds the pool is the original one with `i` entries cut from each end. */
  lemma {:induction false} RemainingClosed(p: seq<EngravingValue>, i: nat)
    ensures Remaining(p, i) == if 2 * i <= |p| then p[i..|p| - i] else []
  {
    if i > 0 {
      RemainingClosed(p, i - 1);
      if 2 * i <= |p| {
        var r := p[i - 1..|p| - i + 1];
        assert |r| == |p| - 2 * i + 2;
        var mid := r[1..|r| - 1];
        assert forall j :: 0 <= j < |mid| ==> mid[j] == p[i + j];
        assert mid == p[i..|p| - i];
      }
    }
  }

  /** The `i`-th built item holds the `i`-th entry from the front and the `i`-th from the back. */
  lemma SlotClosed(p: seq<EngravingValue>, i: nat)
    ensures Slot(p, i) == if 2 * i + 1 < |p| then [p[i], p[|p| - 1 - i]]
                          else if 2 * i + 1 == |p| then [p[i]]
                          else []
  {
    RemainingClosed(p, i);
    if 2 * i + 1 == |p| {
      assert p[i..|p| - i] == [p[i]];
    }
  }

  /** The two ends of a pool of two or more, and its middle, hold its entries. */
  lemma SplitEnds(r: seq<EngravingValue>)
    requires |r| >= 2
    ensures multiset([r[0], r[|r| - 1]]) + multiset(r[1..|r| - 1]) == multiset(r)
  {
    var mid := r[1..|r| - 1];
    assert r == [r[0]] + mid + [r[|r| - 1]];
    assert [r[0], r[|r| - 1]] == [r[0]] + [r[|r| - 1]];
    assert multiset(r) == multiset([r[0]]) + multiset(mid) + multiset([r[|r| - 1]]);
    assert multiset([r[0], r[|r| - 1]]) == multiset([r[0]]) + multiset([r[|r| - 1]]);
  }

  lemma StepMultiset(p: seq<EngravingValue>, m: nat, n: nat)
    requires m == n - 1
    ensures multiset(Slot(p, m)) + multiset(Remaining(p, n)) == multiset(Remaining(p, m))
  {
    var r := Remaining(p, m);
    assert Remaining(p, n) == if |r| >= 2 then r[1..|r| - 1] else [];
    if |r| >= 2 {
      SplitEnds(r);
    }
  }

  /** One unfolding of `Slots`, kept apart so the solver does not unfold it inside multiset reasoning. */
  lemma SlotsNext(p: seq<EngravingValue>, m: nat, n: nat)
    requires m == n - 1
    ensures Slots(p, n) == Slots(p, m) + Slot(p, m)
  {
  }

  /**
   * No entry is used twice: the built items and the leftover pool together
   * hold exactly the entries of the pool the builder started from.
   */
  lemma {:induction false} SlotsPartition(p: seq<EngravingValue>, n: nat)
    ensures multiset(Slots(p, n)) + multiset(Remaining(p, n)) == multiset(p)
  {
    if n > 0 {
      var m: nat := n - 1;
      SlotsPartition(p, m);
      StepMultiset(p, m, n);
      SlotsNext(p, m, n);
      assert multiset(Slots(p, m) + Slot(p, m)) == multiset(Slots(p, m)) + multiset(Slot(p, m));
    }
  }

  /** Every entry of the pool is placed in the first `n` items exactly when the pool holds at most `2 * n`. */
  lemma AllPlaced(p: seq<EngravingValue>, n: nat)
    ensures Remaining(p, n) == [] <==> |p| <= 2 * n
  {
    RemainingClosed(p, n);
  }

  /** Each two-entry item pairs an entry with one of no greater value, when the pool is sorted. */
  lemma SlotPairsStrongWithWeak(p: seq<EngravingValue>, i: nat)
    requires SortedDesc(p)
    requires |Slot(p, i)| == 2
    ensures Slot(p, i)[0].value >= Slot(p, i)[1].value
  {
    SlotClosed(p, i);
  }

  /** With three entries: the first item takes the first and the last, the second the middle one, the others nothing. */
  lemma ThreeEntries(p: seq<EngravingValue>)
    requires |p| == 3
    ensures Slot(p, 0) == [p[0], p[2]] && Slot(p, 1) == [p[1]]
    ensures forall k: nat :: k >= 2 ==> Slot(p, k) == []
  {
    SlotClosed(p, 0);
    SlotClosed(p, 1);
    forall k: nat | k >= 2 ensures Slot(p, k) == [] {
      SlotClosed(p, k);
    }
  }

  /** The `forEach` at index.ts:151-156: each owned item's two entries are spliced out of the pool. */
  method RemoveOwnedEntries(pool0: seq<EngravingValue>, existing: seq<Item>) returns (pool: seq<EngravingValue>)
    ensures pool == RemoveOwned(pool0, existing)
  {
    pool := pool0;
    for i := 0 to |existing|
      invariant pool == RemoveOwned(pool0, existing[..i])
    {
      var item := existing[i];
      var firstIndex := FindIndex(pool, At(item.engravings, 0));
      var secondIndex := FindIndex(pool, At(item.engravings, 1));
      pool := Splice1(pool, firstIndex);
      pool := Splice1(pool, secondIndex);
      assert existing[..i + 1][..i] == existing[..i];
    }
    assert existing[..|existing|] == existing;
  }

  /**
   * The `for` loop at index.ts:160-178: `count` bought items of the given slot
   * types, each taking the pool's first entry (`shift`) and then its last
   * (`pop`) while the pool has any.
   */
  method BuildItems(pool0: seq<EngravingValue>, emplacements: seq<ItemType>, count: int) returns (items: seq<Item>)
    requires count <= |emplacements|
    ensures |items| == if count <= 0 then 0 else count
    ensures forall k :: 0 <= k < |items| ==> items[k].kind == emplacements[k]
    ensures forall k :: 0 <= k < |items| ==> items[k].status == Some(BUY)
    ensures forall k :: 0 <= k < |items| ==> items[k].engravings == Slot(pool0, k)
    ensures forall x :: x in items ==> fresh(x)
  {
    var pool := pool0;
    items := [];
    var i := 0;
    while i < count
      invariant 0 <= i && (i <= count || i == 0)
      invariant pool == Remaining(pool0, i)
      invariant |items| == i
      invariant forall k :: 0 <= k < i ==> items[k].kind == emplacements[k]
      invariant forall k :: 0 <= k < i ==> items[k].status == Some(BUY)
      invariant forall k :: 0 <= k < i ==> items[k].engravings == Slot(pool0, k)
      invariant forall x :: x in items ==> fresh(x)
    {
      assert Remaining(pool0, i + 1) == if |pool| >= 2 then pool[1..|pool| - 1] else [];
      ghost var before := pool;
      var engravings: seq<EngravingValue> := [];
      if pool != [] {
        var first := pool[0];
        pool := pool[1..];
        engravings := [first];
        if pool != [] {
          var second := pool[|pool| - 1];
          pool := pool[..|pool| - 1];
          engravings := engravings + [second];
          assert pool == before[1..|before| - 1];
        }
      }
      assert engravings == Slot(pool0, i);
      assert pool == Remaining(pool0, i + 1);
      var item := new Item(emplacements[i], engravings, Some(BUY));
      items := items + [item];
      i := i + 1;
    }
  }

  /**
   * index.ts:146-182. The build's decomposed list is sorted in place; the
   * owned items' entries are removed from a copy; then one item is built per
   * free slot until five items exist in all, each bought, of the slot's type,
   * holding the pool's next strongest and next weakest entries.
   */
  method CreatePerfectStuff(pb: ProcessBuild, existing: seq<Item>) returns (items: seq<Item>)
    modifies pb`destructedEngravings
    ensures pb.destructedEngravings == old(SortDesc(pb.destructedEngravings))
    ensures |items| == if |existing| >= 5 then 0 else 5 - |existing|
    ensures forall k :: 0 <= k < |items| ==> items[k].kind == EmplacementsFor(existing)[k]
    ensures forall k :: 0 <= k < |items| ==> items[k].status == Some(BUY)
    ensures forall k :: 0 <= k < |items| ==>
              items[k].engravings == Slot(RemoveOwned(pb.destructedEngravings, existing), k)
    ensures forall x :: x in items ==> fresh(x)
  {
    pb.destructedEngravings := SortDesc(pb.destructedEngravings);
    var pool := RemoveOwnedEntries(pb.destructedEngravings, existing);
    var emplacements := GetRemainingEmplacements(existing);
    items := BuildItems(pool, emplacements, 5 - |existing|);
  }
}
