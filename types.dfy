/**
 * The data model of a build: engraving entries, items and the build that the
 * planning stages update in place (types/build.ts).
 *
 * Entries and items are objects: the planner compares them by identity and
 * changes their fields, so they are classes here, and `==` on them (and `in`
 * on a sequence of them) is reference identity, as `===` and `includes` are.
 */
module BuildTypes {

  /** An engraving name. Its enumeration is not part of this model; only equality is used. */
  type Engraving(==)

  datatype ItemType = NECKLACE | EARRING | RING | STONE | BOOK

  datatype ItemStatus = BUY | OWNED

  datatype Option<T> = None | Some(value: T)

  /** The smallest and the largest slot value of an accessory engraving. */
  const VAL_MIN: int := 3
  const VAL_MAX: int := 5

  /** An `(engraving, value)` entry. Goal reduction lowers `value` in place. */
  class EngravingValue {
    const engraving: Engraving
    var value: int

    constructor (engraving: Engraving, value: int)
      ensures this.engraving == engraving && this.value == value
    {
      this.engraving := engraving;
      this.value := value;
    }
  }

  /** An item: its type and engravings never change; its optional status does. */
  class Item {
    const kind: ItemType
    const engravings: seq<EngravingValue>
    var status: Option<ItemStatus>

    constructor (kind: ItemType, engravings: seq<EngravingValue>, status: Option<ItemStatus>)
      ensures this.kind == kind && this.engravings == engravings && this.status == status
    {
      this.kind := kind;
      this.engravings := engravings;
      this.status := status;
    }
  }

  /**
   * A parsed build, which the planner also uses as its working state. Before
   * the build is initialised, the two derived lists are absent; here they are empty.
   */
  class ProcessBuild {
    var goal: seq<EngravingValue>
    var books: seq<EngravingValue>
    var items: seq<Item>
    var remainingGoal: seq<EngravingValue>
    var destructedEngravings: seq<EngravingValue>

    constructor (goal: seq<EngravingValue>, books: seq<EngravingValue>, items: seq<Item>)
      ensures this.goal == goal && this.books == books && this.items == items
      ensures remainingGoal == [] && destructedEngravings == []
    {
      this.goal := goal;
      this.books := books;
      this.items := items;
      remainingGoal := [];
      destructedEngravings := [];
    }
  }

  /** The value carried by an entry at one moment: a snapshot of an `EngravingValue`. */
  datatype Pair = Pair(engraving: Engraving, value: int)

  /** The current values of a list of entries. */
  function Entries(s: seq<EngravingValue>): (r: seq<Pair>)
    reads s
    ensures PairKeys(r) == Engravings(s)
  {
    seq(|s|, i reads s requires 0 <= i < |s| => Pair(s[i].engraving, s[i].value))
  }

  /** The engraving of each entry; engravings never change, so nothing is read. */
  function Engravings(s: seq<EngravingValue>): seq<Engraving> {
    seq(|s|, i requires 0 <= i < |s| => s[i].engraving)
  }

  /** The engraving of each snapshot. */
  function PairKeys(s: seq<Pair>): (r: seq<Engraving>)
    ensures |r| == |s| && forall i :: 0 <= i < |s| ==> r[i] == s[i].engraving
  {
    if s == [] then [] else [s[0].engraving] + PairKeys(s[1..])
  }

  /** No entry object occurs twice in the list. */
  predicate Distinct(s: seq<EngravingValue>) {
    forall i, j :: 0 <= i < j < |s| ==> s[i] != s[j]
  }

  /**
   * Index of the first engraving equal to `e`, or `|keys|` when there is none
   * (what `find` looks at when it compares `eng.engraving === engraving.engraving`).
   */
  function IndexOf(keys: seq<Engraving>, e: Engraving): (i: nat)
    ensures i <= |keys|
    ensures i < |keys| <==> e in keys
    ensures i < |keys| ==> keys[i] == e
    ensures forall j :: 0 <= j < i ==> keys[j] != e
  {
    if keys == [] then 0
    else if keys[0] == e then 0
    else 1 + IndexOf(keys[1..], e)
  }

  /** The element at index `i`, or `None` where JavaScript indexing yields `undefined`. */
  function At<T>(s: seq<T>, i: nat): (r: Option<T>)
    ensures r.Some? <==> i < |s|
    ensures r.Some? ==> r.value == s[i]
  {
    if i < |s| then Some(s[i]) else None
  }
}
