/** The tree of memory contexts and the heap blocks that hang off it.

    Context headers live in a map from their address; `live` is the malloc heap, every block tagged with
    the context that owns it. A ghost rank, larger in a parent than in its children, witnesses that the
    parent links form a tree. */
module MemTree {
  import opened Slots

  /** The top context: always present, statically allocated, never freed. */
  const TOP: Ptr := 1

  const WORD := 8
  const UINT32: nat := 0x1_0000_0000
  const UINT16: nat := 0x1_0000

  // Sizes of the parts a context header is assembled from
  const HEADER_SIZE := 32
  const CHILD_ONE_SIZE := 8
  const CHILD_MANY_SIZE := 16
  const ALLOC_ONE_SIZE := 8
  const ALLOC_MANY_SIZE := 16
  const CALLBACK_SIZE := 16

  datatype Qty = Zero | One | Many

  /** Whether the registered callback throws is decided by the callback, not by this module. */
  datatype Callback = NoCallback | Callback(throws: bool)

  datatype MemContext = MemContext(
    childQty: Qty, child: SlotList, childList: Ptr,
    allocQty: Qty, alloc: SlotList, allocList: Ptr,
    hasCallback: bool, callback: Callback,
    allocExtra: nat, active: bool,
    parentIdx: nat, parent: Ptr)

  /** A live heap block. `size` is the 32-bit size field of an allocation header, and `extra` are the extra bytes that
      a context was allocated with, of which its record keeps 16 bits. */
  datatype Block =
    | HeaderBlock(owner: Ptr, bytes: nat, extra: nat)
    | ChildListBlock(owner: Ptr, bytes: nat)
    | AllocListBlock(owner: Ptr, bytes: nat)
    | AllocBlock(owner: Ptr, bytes: nat, allocIdx: nat, size: nat)

  type Contexts = map<Ptr, MemContext>
  type Heap = map<Ptr, Block>
  type Rank = map<Ptr, nat>

  // ---------------------------------------------------------------------------------------------
  // Tree shape

  function Kids(c: MemContext): seq<Ptr> {
    c.child.slots
  }

  /** The slot of `x` in its parent. A parent limited to one child has a single slot and leaves the
      index that the child stores alone. */
  function Home(m: Contexts, x: Ptr): nat
    requires x in m && m[x].parent in m
  {
    if m[m[x].parent].childQty.Many? then m[x].parentIdx else 0
  }

  ghost predicate ListShape(qty: Qty, l: SlotList) {
    && InBounds(l)
    && (qty.Zero? ==> l.slots == [])
    && (qty.One? ==> |l.slots| <= 1)
  }

  ghost predicate Shaped(c: MemContext) {
    ListShape(c.childQty, c.child) && ListShape(c.allocQty, c.alloc)
  }

  ghost predicate Linked(m: Contexts, r: Rank, x: Ptr)
    requires x in m && x in r
  {
    var p := m[x].parent;
    p in m && p in r && r[x] < r[p] && Home(m, x) < |Kids(m[p])| && Kids(m[p])[Home(m, x)] == x
  }

  ghost predicate KidAt(m: Contexts, x: Ptr, i: nat)
    requires x in m && i < |Kids(m[x])|
  {
    var k := Kids(m[x])[i];
    k in m && k != TOP && m[k].parent == x && Home(m, k) == i
  }

  /** Contexts form a tree rooted at the top context: each context sits in its own slot of its parent, and
      each occupied slot holds a context that knows it is there. */
  ghost predicate Tree(m: Contexts, r: Rank) {
    && TOP in m && NULL !in m && m.Keys <= r.Keys
    && (forall x {:trigger m[x]} :: x in m ==> Shaped(m[x]))
    && (forall x {:trigger Linked(m, r, x)} :: x in m && x != TOP ==> Linked(m, r, x))
    && (forall x, i {:trigger KidAt(m, x, i)} :: x in m && 0 <= i < |Kids(m[x])| && Kids(m[x])[i] != NULL ==>
      KidAt(m, x, i))
  }

  function Gap(r: Rank, x: Ptr, c: Ptr): nat
    requires x in r && c in r
  {
    if r[x] < r[c] then r[c] - r[x] else 0
  }

  /** `x` is `c` or one of its descendants. */
  ghost predicate Under(m: Contexts, r: Rank, x: Ptr, c: Ptr)
    requires Tree(m, r) && x in m && c in r
    decreases Gap(r, x, c)
  {
    x == c || (x != TOP && r[x] < r[c] && Linked(m, r, x) && Under(m, r, m[x].parent, c))
  }

  ghost function Subtree(m: Contexts, r: Rank, c: Ptr): set<Ptr>
    requires Tree(m, r) && c in r
  {
    set x | x in m && Under(m, r, x, c)
  }

  lemma {:induction false} UnderRank(m: Contexts, r: Rank, x: Ptr, c: Ptr)
    requires Tree(m, r) && x in m && c in r && Under(m, r, x, c)
    ensures x == c || r[x] < r[c]
  {
  }

  lemma {:induction false} UnderTrans(m: Contexts, r: Rank, x: Ptr, y: Ptr, c: Ptr)
    requires Tree(m, r) && x in m && y in m && c in r
    requires Under(m, r, x, y) && Under(m, r, y, c)
    ensures Under(m, r, x, c)
    decreases Gap(r, x, y)
  {
    if x != y {
      UnderTrans(m, r, m[x].parent, y, c);
      UnderRank(m, r, y, c);
    }
  }

  /** Two contexts above the same context are above one another. */
  lemma {:induction false} UnderLinear(m: Contexts, r: Rank, x: Ptr, a: Ptr, b: Ptr)
    requires Tree(m, r) && x in m && a in m && b in m
    requires Under(m, r, x, a) && Under(m, r, x, b)
    ensures Under(m, r, a, b) || Under(m, r, b, a)
    decreases Gap(r, x, a)
  {
    if x != a && x != b {
      UnderLinear(m, r, m[x].parent, a, b);
    }
  }

  lemma {:induction false} UnderTop(m: Contexts, r: Rank, x: Ptr)
    requires Tree(m, r) && x in m
    ensures Under(m, r, x, TOP)
    decreases Gap(r, x, TOP)
  {
    RankTop(m, r, x);
    if x != TOP {
      assert Linked(m, r, x);
      UnderTop(m, r, m[x].parent);
    }
  }

  /** No rank exceeds the top's: following parents from any context ends at the top. */
  lemma {:induction false} RankTop(m: Contexts, r: Rank, x: Ptr)
    requires Tree(m, r) && x in m
    ensures x == TOP || r[x] < r[TOP]
  {
    ClimbTop(m, r, x, m.Keys);
  }

  lemma {:induction false} ClimbTop(m: Contexts, r: Rank, x: Ptr, todo: set<Ptr>)
    requires Tree(m, r) && x in m && x in todo
    requires forall y :: y in m && r[y] >= r[x] ==> y in todo
    ensures x == TOP || r[x] < r[TOP]
    decreases todo
  {
    if x != TOP {
      assert Linked(m, r, x);
      ClimbTop(m, r, m[x].parent, todo - {x});
    }
  }

  lemma KidUnder(m: Contexts, r: Rank, c: Ptr, i: nat)
    requires Tree(m, r) && c in m && i < |Kids(m[c])| && Kids(m[c])[i] != NULL
    ensures var k := Kids(m[c])[i]; k in m && k != TOP && m[k].parent == c && r[k] < r[c] && Under(m, r, k, c)
  {
    assert KidAt(m, c, i);
    assert Linked(m, r, Kids(m[c])[i]);
    assert Under(m, r, c, c);
  }

  /** A proper descendant is under exactly one of the children. */
  lemma {:induction false} UnderSomeKid(m: Contexts, r: Rank, x: Ptr, c: Ptr) returns (i: nat)
    requires Tree(m, r) && x in m && c in m && x != c && Under(m, r, x, c)
    ensures i < |Kids(m[c])| && Kids(m[c])[i] != NULL && Kids(m[c])[i] in r && Under(m, r, x, Kids(m[c])[i])
    decreases Gap(r, x, c)
  {
    assert Linked(m, r, x);
    if m[x].parent == c {
      i := Home(m, x);
    } else {
      i := UnderSomeKid(m, r, m[x].parent, c);
      KidUnder(m, r, c, i);
      UnderRank(m, r, m[x].parent, Kids(m[c])[i]);
    }
  }

  lemma KidsApart(m: Contexts, r: Rank, x: Ptr, c: Ptr, i: nat, j: nat)
    requires Tree(m, r) && x in m && c in m
    requires i < |Kids(m[c])| && Kids(m[c])[i] != NULL && Kids(m[c])[i] in r && Under(m, r, x, Kids(m[c])[i])
    requires j < |Kids(m[c])| && Kids(m[c])[j] != NULL && Kids(m[c])[j] in r && Under(m, r, x, Kids(m[c])[j])
    ensures i == j
  {
    if i != j {
      KidNotUnder(m, r, c, i, j);
      KidNotUnder(m, r, c, j, i);
      UnderLinear(m, r, x, Kids(m[c])[i], Kids(m[c])[j]);
    }
  }

  lemma KidNotUnder(m: Contexts, r: Rank, c: Ptr, i: nat, j: nat)
    requires Tree(m, r) && c in m && i != j
    requires i < |Kids(m[c])| && Kids(m[c])[i] != NULL && j < |Kids(m[c])| && Kids(m[c])[j] != NULL
    ensures Kids(m[c])[i] in m && Kids(m[c])[j] in m && !Under(m, r, Kids(m[c])[i], Kids(m[c])[j])
  {
    KidUnder(m, r, c, i);
    KidUnder(m, r, c, j);
    assert KidAt(m, c, i) && KidAt(m, c, j);
    if Under(m, r, Kids(m[c])[i], Kids(m[c])[j]) {
      UnderRank(m, r, c, Kids(m[c])[j]);
    }
  }

  /** Being under a context depends on the parent links alone. */
  lemma {:induction false} UnderFrame(m: Contexts, m': Contexts, r: Rank, x: Ptr, c: Ptr)
    requires Tree(m, r) && Tree(m', r) && x in m' && c in r
    requires forall y :: y in m' ==> y in m && m'[y].parent == m[y].parent
    ensures Under(m', r, x, c) == Under(m, r, x, c)
    decreases Gap(r, x, c)
  {
    if x != c && x != TOP && r[x] < r[c] {
      assert Linked(m, r, x) && Linked(m', r, x);
      UnderFrame(m, m', r, m[x].parent, c);
    }
  }

  // ---------------------------------------------------------------------------------------------
  // Adding, moving and removing contexts

  /** The record of a parent after `p` has been put in a free slot. A new child moves the hint past its
      slot, a moved child leaves it there. `list` is where the child list is after it may have grown. */
  function AddKid(c: MemContext, p: Ptr, advance: bool, list: Ptr): (r: MemContext)
    requires !c.childQty.Zero? && ListShape(c.childQty, c.child)
    requires c.childQty.One? ==> c.child.slots in [[], [NULL]]
    ensures ListShape(r.childQty, r.child)
    ensures KidSlot(c) < |Kids(r)| && Kids(r)[KidSlot(c)] == p
    ensures |Kids(c)| <= |Kids(r)|
    ensures KidSlot(c) < |Kids(c)| ==> Kids(c)[KidSlot(c)] == NULL
    ensures forall i :: 0 <= i < |Kids(r)| && i != KidSlot(c) ==>
      Kids(r)[i] == if i < |Kids(c)| then Kids(c)[i] else NULL
  {
    if c.childQty.One? then c.(child := SlotList([p], 0))
    else
      var f := Reserve(c.child);
      c.(child := SlotList(f.slots[f.freeIdx := p], if advance then f.freeIdx + 1 else f.freeIdx), childList := list)
  }

  function KidSlot(c: MemContext): nat
    requires !c.childQty.Zero? && ListShape(c.childQty, c.child)
  {
    if c.childQty.One? then 0 else Reserve(c.child).freeIdx
  }

  /** The record of a parent after the child in slot `i` has been freed. */
  function FreeKid(c: MemContext, i: nat): (r: MemContext)
    requires ListShape(c.childQty, c.child) && i < |Kids(c)|
    ensures ListShape(r.childQty, r.child)
    ensures Kids(r) == Kids(c)[i := NULL]
  {
    c.(child := if c.childQty.Many? then Give(c.child, i) else SlotList(c.child.slots[i := NULL], c.child.freeIdx))
  }

  /** The record of the old parent after the child in slot `i` has been moved away: the hint stays. */
  function LoseKid(c: MemContext, i: nat): (r: MemContext)
    requires ListShape(c.childQty, c.child) && i < |Kids(c)|
    ensures ListShape(r.childQty, r.child)
    ensures Kids(r) == Kids(c)[i := NULL]
  {
    c.(child := SlotList(c.child.slots[i := NULL], c.child.freeIdx))
  }

  ghost predicate Accepts(c: MemContext) {
    && !c.childQty.Zero?
    && (c.childQty.One? ==> c.child.slots in [[], [NULL]])
  }

  /** The contexts after `p`, with record `c`, has been created under `parent`. */
  ghost function Insert(m: Contexts, p: Ptr, c: MemContext, parent: Ptr, advance: bool, list: Ptr): Contexts
    requires parent in m && Accepts(m[parent]) && ListShape(m[parent].childQty, m[parent].child)
  {
    var idx := if m[parent].childQty.Many? then KidSlot(m[parent]) else c.parentIdx;
    m[parent := AddKid(m[parent], p, advance, list)][p := c.(parent := parent, parentIdx := idx)]
  }

  /** A rank for the contexts after an insertion that puts `sub` under `parent`. */
  ghost function Lift(r: Rank, keys: set<Ptr>, sub: set<Ptr>, p: Ptr): Rank
    requires keys <= r.Keys && p in r
  {
    map x | x in keys :: if x in sub then r[x] else r[x] + r[p] + 1
  }

  /** memContextNew keeps the tree: the slot taken was free and every other slot is as before. */
  lemma NewKeepsTree(m: Contexts, r: Rank, p: Ptr, c: MemContext, parent: Ptr, list: Ptr)
    requires Tree(m, r) && parent in m && Accepts(m[parent])
    requires p !in m && p != NULL && c.child == Uninitialized && c.alloc == Uninitialized && c.parentIdx == 0
    ensures Tree(Insert(m, p, c, parent, true, list), Lift(r[p := 0], m.Keys + {p}, {p}, p))
  {
    hide Linked, KidAt;
    var m' := Insert(m, p, c, parent, true, list);
    var r' := Lift(r[p := 0], m.Keys + {p}, {p}, p);
    assert Shaped(m'[parent]) && Shaped(m'[p]);
    forall x | x in m' && x != TOP ensures Linked(m', r', x) {
      NewLink(m, r, p, c, parent, list, x);
    }
    forall x, i | x in m' && 0 <= i < |Kids(m'[x])| && Kids(m'[x])[i] != NULL ensures KidAt(m', x, i) {
      NewKid(m, r, p, c, parent, list, x, i);
    }
  }

  lemma NewLink(m: Contexts, r: Rank, p: Ptr, c: MemContext, parent: Ptr, list: Ptr, x: Ptr)
    requires Tree(m, r) && parent in m && Accepts(m[parent]) && Shaped(m[parent])
    requires p !in m && p != NULL && c.parentIdx == 0 && x != TOP && (x in m || x == p)
    ensures Linked(Insert(m, p, c, parent, true, list), Lift(r[p := 0], m.Keys + {p}, {p}, p), x)
  {
    if x != p { assert Linked(m, r, x); }
  }

  lemma NewKid(m: Contexts, r: Rank, p: Ptr, c: MemContext, parent: Ptr, list: Ptr, x: Ptr, i: nat)
    requires Tree(m, r) && parent in m && Accepts(m[parent]) && Shaped(m[parent])
    requires p !in m && p != NULL && c.child == Uninitialized && c.parentIdx == 0
    requires var m' := Insert(m, p, c, parent, true, list); x in m' && i < |Kids(m'[x])| && Kids(m'[x])[i] != NULL
    ensures KidAt(Insert(m, p, c, parent, true, list), x, i)
  {
    if x != parent || i != KidSlot(m[parent]) {
      assert x != p;
      assert KidAt(m, x, i);
    }
  }

  /** The contexts after `c` has been moved from its parent to `to`. */
  ghost function Moved(m: Contexts, c: Ptr, to: Ptr, list: Ptr): Contexts
    requires c in m && to in m && m[c].parent in m && to != m[c].parent && to != c && c != m[c].parent
    requires ListShape(m[m[c].parent].childQty, m[m[c].parent].child) && Home(m, c) < |Kids(m[m[c].parent])|
    requires Accepts(m[to]) && ListShape(m[to].childQty, m[to].child)
  {
    var p := m[c].parent;
    Insert(m[p := LoseKid(m[p], Home(m, c))], c, m[c], to, false, list)
  }

  ghost predicate CanMove(m: Contexts, r: Rank, c: Ptr, to: Ptr) {
    && Tree(m, r) && c in m && to in m && c != TOP && to != m[c].parent
    && !Under(m, r, to, c) && Accepts(m[to])
  }

  /** What a move changes: the old slot is empty, the new slot holds `c`, `c` knows its new parent. */
  lemma MovedFacts(m: Contexts, r: Rank, c: Ptr, to: Ptr, list: Ptr)
    requires CanMove(m, r, c, to)
    ensures Linked(m, r, c) && to != c && c != m[c].parent
    ensures
      var m', p, k := Moved(m, c, to, list), m[c].parent, KidSlot(m[to]);
      && m'.Keys == m.Keys
      && (forall x {:trigger m'[x]} :: x in m ==> Shaped(m'[x]) && m'[x].childQty == m[x].childQty)
      && (forall x {:trigger m'[x]} :: x in m && x != to && x != p ==> Kids(m'[x]) == Kids(m[x]))
      && (forall x {:trigger m'[x]} :: x in m && x != c ==>
        m'[x].parent == m[x].parent && m'[x].parentIdx == m[x].parentIdx)
      && Kids(m'[p]) == Kids(m[p])[Home(m, c) := NULL]
      && m'[c].parent == to && Home(m', c) == k
      && |Kids(m[to])| <= |Kids(m'[to])| && k < |Kids(m'[to])| && Kids(m'[to])[k] == c
      && (forall i :: 0 <= i < |Kids(m'[to])| && i != k ==>
        Kids(m'[to])[i] == if i < |Kids(m[to])| then Kids(m[to])[i] else NULL)
      && (k < |Kids(m[to])| ==> Kids(m[to])[k] == NULL)
  {
    assert Linked(m, r, c);
    assert Under(m, r, c, c);
    var p := m[c].parent;
    assert Shaped(m[p]) && Shaped(m[to]) && Shaped(m[c]);
  }

  /** memContextMove keeps the tree when the new parent is outside the moved subtree. */
  lemma MoveKeepsTree(m: Contexts, r: Rank, c: Ptr, to: Ptr, list: Ptr)
    requires CanMove(m, r, c, to)
    ensures Linked(m, r, c) && to != c && c != m[c].parent
    ensures Tree(Moved(m, c, to, list), Lift(r, m.Keys, Subtree(m, r, c), c))
  {
    MovedFacts(m, r, c, to, list);
    var m' := Moved(m, c, to, list);
    var r' := Lift(r, m.Keys, Subtree(m, r, c), c);
    assert Under(m, r, c, c);
    forall x | x in m' && x != TOP ensures Linked(m', r', x) {
      assert Linked(m, r, x);
      if x != c {
        MovedRank(m, r, c, x);
      }
    }
    forall x, i | x in m' && 0 <= i < |Kids(m'[x])| && Kids(m'[x])[i] != NULL ensures KidAt(m', x, i) {
      MovedKid(m, r, c, to, list, x, i);
    }
  }

  lemma MovedKid(m: Contexts, r: Rank, c: Ptr, to: Ptr, list: Ptr, x: Ptr, i: nat)
    requires CanMove(m, r, c, to) && Linked(m, r, c) && to != c && c != m[c].parent && x in m
    requires i < |Kids(Moved(m, c, to, list)[x])| && Kids(Moved(m, c, to, list)[x])[i] != NULL
    ensures KidAt(Moved(m, c, to, list), x, i)
  {
    MovedFacts(m, r, c, to, list);
    if x != to || i != KidSlot(m[to]) {
      assert KidAt(m, x, i);
    }
  }

  lemma MovedRank(m: Contexts, r: Rank, c: Ptr, x: Ptr)
    requires Tree(m, r) && c in m && x in m && x != TOP && x != c && Linked(m, r, x)
    ensures var r' := Lift(r, m.Keys, Subtree(m, r, c), c); r'[x] < r'[m[x].parent]
  {
    if Under(m, r, m[x].parent, c) { UnderStep(m, r, x, c); }
    if Under(m, r, x, c) { UnderRank(m, r, x, c); }
  }

  lemma UnderStep(m: Contexts, r: Rank, x: Ptr, c: Ptr)
    requires Tree(m, r) && x in m && x != TOP && c in r && Linked(m, r, x) && Under(m, r, m[x].parent, c)
    ensures Under(m, r, x, c)
  {
    UnderRank(m, r, m[x].parent, c);
  }

  ghost function Cut(m: Contexts, r: Rank, c: Ptr): Contexts
    requires Tree(m, r) && c in r
  {
    map x | x in m && !Under(m, r, x, c) :: m[x]
  }

  function Emptied(c: MemContext): MemContext {
    c.(child := Uninitialized, alloc := Uninitialized, active := true)
  }

  /** The contexts after `c` has been freed: its subtree is gone and its slot in the parent is empty. The
      top context itself survives, stripped of everything below it. */
  ghost function Freed(m: Contexts, r: Rank, c: Ptr): Contexts
    requires Tree(m, r) && c in m
  {
    if c == TOP then map[TOP := Emptied(m[TOP])]
    else
      assert Linked(m, r, c);
      var p := m[c].parent;
      Cut(m, r, c)[p := FreeKid(m[p], Home(m, c))]
  }

  lemma FreeKeepsTree(m: Contexts, r: Rank, c: Ptr)
    requires Tree(m, r) && c in m
    ensures Tree(Freed(m, r, c), r)
    ensures c != TOP ==> Freed(m, r, c).Keys == m.Keys - Subtree(m, r, c)
  {
    var m' := Freed(m, r, c);
    if c != TOP {
      assert Linked(m, r, c);
      var p := m[c].parent;
      assert !Under(m, r, p, c);
      assert !Under(m, r, TOP, c) by { RankTop(m, r, c); }
      forall x | x in m' && x != TOP ensures Linked(m', r, x) {
        assert Linked(m, r, x);
        assert m[x].parent in m' by { if Under(m, r, m[x].parent, c) { UnderStep(m, r, x, c); } }
        assert x != c;
      }
      forall x, i | x in m' && 0 <= i < |Kids(m'[x])| && Kids(m'[x])[i] != NULL ensures KidAt(m', x, i) {
        FreedKid(m, r, c, x, i);
      }
    }
  }

  lemma FreedKid(m: Contexts, r: Rank, c: Ptr, x: Ptr, i: nat)
    requires Tree(m, r) && c in m && c != TOP && Linked(m, r, c)
    requires var m' := Freed(m, r, c); x in m' && i < |Kids(m'[x])| && Kids(m'[x])[i] != NULL
    ensures KidAt(Freed(m, r, c), x, i)
  {
    assert !Under(m, r, m[c].parent, c);
    assert KidAt(m, x, i);
    var k := Kids(m[x])[i];
    assert Linked(m, r, k) && k != c;
  }

  // ---------------------------------------------------------------------------------------------
  // What creating, moving and freeing leave alone

  /** A child list is used as an allocation list is: a new child takes a slot as an allocation does and a freed one
      gives it back. Only moving differs: it leaves the hint of both lists where the search stopped or where it
      was. */
  lemma KidHints(c: MemContext, p: Ptr, list: Ptr, i: nat)
    requires c.childQty.Many? && InBounds(c.child) && i < |Kids(c)|
    ensures AddKid(c, p, true, list).child == Take(c.child, p)
    ensures AddKid(c, p, false, list).child == Take(c.child, p).(freeIdx := Take(c.child, p).freeIdx - 1)
    ensures FreeKid(c, i).child == Give(c.child, i)
    ensures LoseKid(c, i).child == Give(c.child, i).(freeIdx := c.child.freeIdx)
  {
  }

  /** Two records that differ in the child list alone. */
  predicate SameButKids(a: MemContext, b: MemContext) {
    b == a.(child := b.child, childList := b.childList)
  }

  lemma InsertElsewhere(m: Contexts, p: Ptr, c: MemContext, parent: Ptr, advance: bool, list: Ptr)
    requires parent in m && Accepts(m[parent]) && ListShape(m[parent].childQty, m[parent].child) && p != parent
    ensures var m' := Insert(m, p, c, parent, advance, list);
      && m'.Keys == m.Keys + {p} && SameButKids(m[parent], m'[parent])
      && m'[p] == c.(parent := parent, parentIdx := m'[p].parentIdx)
      && (m[parent].childQty.One? ==> m'[p].parentIdx == c.parentIdx)
      && forall y :: y in m && y !in {p, parent} ==> m'[y] == m[y]
  {
  }

  lemma MovedElsewhere(m: Contexts, r: Rank, c: Ptr, to: Ptr, list: Ptr)
    requires CanMove(m, r, c, to)
    ensures Linked(m, r, c) && to != c && c != m[c].parent
    ensures var m' := Moved(m, c, to, list);
      && m'.Keys == m.Keys && SameButKids(m[to], m'[to]) && SameButKids(m[m[c].parent], m'[m[c].parent])
      && m'[c] == m[c].(parent := to, parentIdx := m'[c].parentIdx)
      && (m[to].childQty.One? ==> m'[c].parentIdx == m[c].parentIdx)
      && forall y :: y in m && y !in {c, to, m[c].parent} ==> m'[y] == m[y]
  {
    MovedFacts(m, r, c, to, list);
  }

  /** Every context that survives is as it was, but for the slot in the parent; of the top context there is nothing
      left but itself, with no children and no allocations. */
  lemma FreedElsewhere(m: Contexts, r: Rank, c: Ptr)
    requires Tree(m, r) && c in m
    ensures c == TOP ==>
      Freed(m, r, c) == map[TOP := m[TOP].(child := SlotList([], 0), alloc := SlotList([], 0), active := true)]
    ensures c != TOP ==>
      var m' := Freed(m, r, c);
      && m[c].parent in m && m[c].parent in m' && SameButKids(m[m[c].parent], m'[m[c].parent])
      && forall y :: y in m' && y != m[c].parent ==> y in m && m'[y] == m[y]
  {
    if c != TOP {
      assert Linked(m, r, c);
      assert !Under(m, r, m[c].parent, c);
    }
  }

  // ---------------------------------------------------------------------------------------------
  // Any interleaving of creating, moving and freeing

  datatype TreeOp =
    | Create(p: Ptr, rec: MemContext, parent: Ptr, at: Ptr)
    | Relocate(c: Ptr, to: Ptr, at: Ptr)
    | Remove(c: Ptr)

  ghost predicate Permitted(m: Contexts, r: Rank, op: TreeOp)
    requires Tree(m, r)
  {
    match op
    case Create(p, rec, parent, _) =>
      && parent in m && Accepts(m[parent]) && p !in m && p != NULL
      && rec.child == Uninitialized && rec.alloc == Uninitialized && rec.parentIdx == 0
    case Relocate(c, to, _) => CanMove(m, r, c, to)
    case Remove(c) => c in m
  }

  ghost function Apply(m: Contexts, r: Rank, op: TreeOp): (s: (Contexts, Rank))
    requires Tree(m, r) && Permitted(m, r, op)
    ensures Tree(s.0, s.1)
  {
    match op
    case Create(p, rec, parent, at) =>
      NewKeepsTree(m, r, p, rec, parent, at);
      (Insert(m, p, rec, parent, true, at), Lift(r[p := 0], m.Keys + {p}, {p}, p))
    case Relocate(c, to, at) =>
      MoveKeepsTree(m, r, c, to, at);
      (Moved(m, c, to, at), Lift(r, m.Keys, Subtree(m, r, c), c))
    case Remove(c) =>
      FreeKeepsTree(m, r, c);
      (Freed(m, r, c), r)
  }

  lemma SlotKeptCreating(m: Contexts, r: Rank, p: Ptr, rec: MemContext, parent: Ptr, list: Ptr, x: Ptr, i: nat)
    requires Tree(m, r) && x in m && parent in m && Accepts(m[parent]) && p !in m && Shaped(m[parent])
    requires i < |Kids(m[x])| && Kids(m[x])[i] != NULL
    ensures i < |Kids(Insert(m, p, rec, parent, true, list)[x])|
    ensures Kids(Insert(m, p, rec, parent, true, list)[x])[i] == Kids(m[x])[i]
  {
  }

  lemma SlotKeptMoving(m: Contexts, r: Rank, c: Ptr, to: Ptr, list: Ptr, x: Ptr, i: nat)
    requires CanMove(m, r, c, to) && Linked(m, r, c) && to != c && c != m[c].parent
    requires x in m && i < |Kids(m[x])| && Kids(m[x])[i] != NULL
    ensures i < |Kids(Moved(m, c, to, list)[x])|
    ensures Kids(Moved(m, c, to, list)[x])[i] == if c == Kids(m[x])[i] then NULL else Kids(m[x])[i]
  {
    assert KidAt(m, x, i);
    MovedFacts(m, r, c, to, list);
  }

  lemma SlotKeptFreeing(m: Contexts, r: Rank, c: Ptr, x: Ptr, i: nat)
    requires Tree(m, r) && c in m && c != TOP
    requires x in Freed(m, r, c) && x in m && i < |Kids(m[x])| && Kids(m[x])[i] != NULL
    ensures i < |Kids(Freed(m, r, c)[x])|
    ensures Kids(Freed(m, r, c)[x])[i] == if c == Kids(m[x])[i] then NULL else Kids(m[x])[i]
  {
    assert KidAt(m, x, i);
    assert Linked(m, r, c);
  }

  /** No operation overwrites an occupied slot of a context that survives it: a slot is emptied only by moving
      or freeing the very context it holds, also when the list it belongs to grows. */
  lemma OccupiedSlotKept(m: Contexts, r: Rank, op: TreeOp, x: Ptr, i: nat)
    requires Tree(m, r) && Permitted(m, r, op) && op != Remove(TOP)
    requires x in m && x in Apply(m, r, op).0 && i < |Kids(m[x])| && Kids(m[x])[i] != NULL
    ensures var m', k := Apply(m, r, op).0, Kids(m[x])[i];
      && i < |Kids(m'[x])|
      && Kids(m'[x])[i] == if (op.Relocate? || op.Remove?) && op.c == k then NULL else k
  {
    match op
    case Create(p, rec, parent, at) => SlotKeptCreating(m, r, p, rec, parent, at, x, i);
    case Relocate(c, to, at) => SlotKeptMoving(m, r, c, to, at, x, i);
    case Remove(c) => SlotKeptFreeing(m, r, c, x, i);
  }

  /** A run: the contexts after each operation, starting from the top context alone. */
  ghost predicate TreeRun(ss: seq<(Contexts, Rank)>, ops: seq<TreeOp>) {
    && |ss| == |ops| + 1
    && ss[0].0.Keys == {TOP} && Shaped(ss[0].0[TOP]) && ss[0].0[TOP].child == Uninitialized && TOP in ss[0].1
    && forall k :: 0 <= k < |ops| ==>
      Tree(ss[k].0, ss[k].1) ==> Permitted(ss[k].0, ss[k].1, ops[k]) && ss[k + 1] == Apply(ss[k].0, ss[k].1, ops[k])
  }

  /** After any interleaving the contexts are a tree in which every context hangs below the top and every
      parent's slot holds exactly the child that claims it. */
  lemma {:induction false} RunKeepsTree(ss: seq<(Contexts, Rank)>, ops: seq<TreeOp>, k: nat, x: Ptr)
    requires TreeRun(ss, ops) && k < |ss|
    ensures Tree(ss[k].0, ss[k].1)
    ensures x in ss[k].0 ==> Under(ss[k].0, ss[k].1, x, TOP)
    ensures x in ss[k].0 && x != TOP ==>
      var m := ss[k].0; m[x].parent in m && Home(m, x) < |Kids(m[m[x].parent])| && Kids(m[m[x].parent])[Home(m, x)] == x
  {
    if k > 0 {
      RunKeepsTree(ss, ops, k - 1, x);
    }
    var m, r := ss[k].0, ss[k].1;
    assert Tree(m, r);
    if x in m {
      UnderTop(m, r, x);
      assert x != TOP ==> Linked(m, r, x);
    }
  }
}
