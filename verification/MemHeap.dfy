/** How the operations on contexts act on the heap: the state half way through a teardown, the blocks that
    survive it, and the local updates that keep every block owned. */
module MemHeap {
  import opened Slots
  import opened MemTree
  import opened MemTeardown

  /** The heap without the blocks of the subtree of `c`. */
  ghost function Without(live: Heap, m: Contexts, r: Rank, c: Ptr): Heap
    requires Tree(m, r) && c in m
  {
    map b | b in live && !(live[b].owner in m && Under(m, r, live[b].owner, c)) :: live[b]
  }

  /** The heap without the blocks of the first `n` children of `c`. */
  ghost function WithoutKids(live: Heap, m: Contexts, r: Rank, c: Ptr, n: nat): Heap
    requires Tree(m, r) && c in m && n <= |Kids(m[c])|
  {
    map b | b in live && !(live[b].owner in m && InKids(m, r, c, n, live[b].owner)) :: live[b]
  }

  /** The contexts `m` are `m0` after the first `n` children of `c` have been freed, each child having emptied
      its slot in `c` on its way out. */
  ghost predicate MidFree(m0: Contexts, r: Rank, m: Contexts, c: Ptr, n: nat)
    requires Tree(m0, r) && c in m0 && n <= |Kids(m0[c])|
  {
    && (forall x {:trigger x in m} :: x in m <==> x in m0 && !InKids(m0, r, c, n, x))
    && (forall x {:trigger m[x]} :: x in m && x != c ==> m[x] == m0[x])
    && c in m && m[c] == m0[c].(child := m[c].child)
    && Kids(m[c]) == Nulls(n) + Kids(m0[c])[n..]
  }

  lemma MidFreeStart(m0: Contexts, r: Rank, c: Ptr)
    requires Tree(m0, r) && c in m0
    ensures MidFree(m0, r, m0, c, 0)
  {
  }

  lemma MidFreeSkip(m0: Contexts, r: Rank, m: Contexts, c: Ptr, n: nat)
    requires Tree(m0, r) && c in m0 && n < |Kids(m0[c])| && MidFree(m0, r, m, c, n) && Kids(m0[c])[n] == NULL
    ensures MidFree(m0, r, m, c, n + 1)
    ensures KidsOrder(m0, r, c, n + 1) == KidsOrder(m0, r, c, n)
  {
    assert Nulls(n + 1) + Kids(m0[c])[n + 1..] == Nulls(n) + Kids(m0[c])[n..];
  }

  /** Freeing the next child: the state before the call looks to the child like the original one. */
  lemma MidFreeChild(m0: Contexts, r: Rank, m: Contexts, c: Ptr, n: nat)
    requires Tree(m0, r) && Tree(m, r) && c in m0 && n < |Kids(m0[c])| && MidFree(m0, r, m, c, n)
    requires Kids(m0[c])[n] != NULL
    ensures var k := Kids(m0[c])[n];
      && k in m && k in m0 && k != TOP && m[k].parent == c && r[k] < r[c] && Kids(m[c])[n] == k
      && (forall x :: x in m ==> Under(m, r, x, k) == Under(m0, r, x, k))
      && FreeOrder(m, r, k) == FreeOrder(m0, r, k)
      && KidsOrder(m0, r, c, n + 1) == KidsOrder(m0, r, c, n) + FreeOrder(m0, r, k)
  {
    var k := Kids(m0[c])[n];
    KidUnder(m0, r, c, n);
    assert forall x :: x in m ==> m[x].parent == m0[x].parent;
    forall x | x in m0 && Under(m0, r, x, k) ensures x in m && x != c {
      if InKids(m0, r, c, n, x) {
        var j := InKidsWitness(m0, r, c, n, x);
        KidsApart(m0, r, x, c, j, n);
      }
      UnderRank(m0, r, x, k);
    }
    assert Under(m0, r, k, k);
    assert Kids(m[c])[n] == k;
    forall x | x in m ensures Under(m, r, x, k) == Under(m0, r, x, k) { UnderFrame(m0, m, r, x, k); }
    FreeOrderFrame(m0, m, r, k);
  }

  lemma MidFreeStep(m0: Contexts, r: Rank, m: Contexts, c: Ptr, n: nat)
    requires Tree(m0, r) && Tree(m, r) && c in m0 && n < |Kids(m0[c])| && MidFree(m0, r, m, c, n)
    requires var k := Kids(m0[c])[n]; k != NULL && k in m && k != TOP && m[k].parent == c && Kids(m[c])[n] == k
    requires forall x :: x in m && Kids(m0[c])[n] in r ==>
      Under(m, r, x, Kids(m0[c])[n]) == Under(m0, r, x, Kids(m0[c])[n])
    ensures MidFree(m0, r, Freed(m, r, Kids(m0[c])[n]), c, n + 1)
  {
    var k := Kids(m0[c])[n];
    var m' := Freed(m, r, k);
    assert KidAt(m, c, n) && Linked(m, r, k);
    assert Home(m, k) == n;
    assert !Under(m, r, c, k);
    assert Kids(m'[c]) == Kids(m[c])[n := NULL];
    assert Nulls(n + 1) + Kids(m0[c])[n + 1..] == (Nulls(n) + Kids(m0[c])[n..])[n := NULL];
    assert forall x :: x in m0 ==> InKids(m0, r, c, n + 1, x) == (InKids(m0, r, c, n, x) || Under(m0, r, x, k));
  }

  lemma MidHeapStep(m0: Contexts, r: Rank, live: Heap, m: Contexts, live': Heap, c: Ptr, n: nat)
    requires Tree(m0, r) && Tree(m, r) && c in m0 && n < |Kids(m0[c])| && MidFree(m0, r, m, c, n)
    requires HeapOk(m0, live) && live' == WithoutKids(live, m0, r, c, n)
    requires Kids(m0[c])[n] in m && Kids(m0[c])[n] != NULL
    requires forall x :: x in m ==> Under(m, r, x, Kids(m0[c])[n]) == Under(m0, r, x, Kids(m0[c])[n])
    ensures Without(live', m, r, Kids(m0[c])[n]) == WithoutKids(live, m0, r, c, n + 1)
  {
  }

  lemma MidHeapSkip(m0: Contexts, r: Rank, live: Heap, c: Ptr, n: nat)
    requires Tree(m0, r) && c in m0 && n < |Kids(m0[c])| && Kids(m0[c])[n] == NULL
    ensures WithoutKids(live, m0, r, c, n + 1) == WithoutKids(live, m0, r, c, n)
  {
  }

  /** Once the children are gone, taking `c` out leaves exactly what freeing `c` should leave. */
  lemma MidFreeDone(m0: Contexts, r: Rank, m: Contexts, live: Heap, c: Ptr)
    requires Tree(m0, r) && c in m0 && HeapOk(m0, live) && MidFree(m0, r, m, c, |Kids(m0[c])|)
    ensures c == TOP ==> m.Keys == {TOP} && Emptied(m[TOP]) == Emptied(m0[TOP])
    ensures c != TOP ==> Linked(m0, r, c) && m0[c].parent in m && m0[c].parent != c
    ensures c != TOP ==> Freed(m0, r, c) == (m - {c})[m0[c].parent := FreeKid(m0[m0[c].parent], Home(m0, c))]
    ensures WithoutKids(live, m0, r, c, |Kids(m0[c])|) - (set b | b in OwnBlocks(m0[c], c)) == Without(live, m0, r, c)
  {
    hide FreeOrder, KidsOrder, NonNull, InKids, KidCovers, HeaderAt, HeaderBytes;
    forall x | x in m0 ensures InKids(m0, r, c, |Kids(m0[c])|, x) <==> x != c && Under(m0, r, x, c) {
      InKidsAll(m0, r, c, x);
    }
    assert Under(m0, r, c, c);
    if c == TOP {
      forall x | x in m0 ensures Under(m0, r, x, TOP) { UnderTop(m0, r, x); }
    } else {
      assert Linked(m0, r, c);
      assert !Under(m0, r, m0[c].parent, c);
      assert Freed(m0, r, c).Keys == (m - {c})[m0[c].parent := FreeKid(m0[m0[c].parent], Home(m0, c))].Keys;
    }
    assert Owns(m0[c], c, live);
    forall b | b in live ensures b in OwnBlocks(m0[c], c) <==> live[b].owner == c {
      assert OwnedBlock(m0, live, b);
      if b in OwnBlocks(m0[c], c) { OwnIsLive(m0[c], c, live, b); }
    }
  }

  /** A record keeps its blocks when the heap around them changes. */
  lemma OwnsFrame(c: MemContext, c': MemContext, p: Ptr, live: Heap, live': Heap)
    requires Owns(c, p, live)
    requires OwnBlocks(c', p) == OwnBlocks(c, p) && c'.alloc == c.alloc && c'.allocQty == c.allocQty
      && c'.allocList == c.allocList
    requires c'.childList == c.childList && c'.childQty == c.childQty && |c'.child.slots| == |c.child.slots|
    requires HeaderBytes(c') == HeaderBytes(c) && c'.allocExtra == c.allocExtra
    requires forall b :: b in OwnBlocks(c, p) ==> b in live' && live'[b] == live[b]
    ensures Owns(c', p, live')
  {
    assert forall b :: b in OwnBlocks(c, p) ==> b in live by {
      forall b | b in OwnBlocks(c, p) ensures b in live { OwnIsLive(c, p, live, b); }
    }
    forall i | 0 <= i < |c'.alloc.slots| && c'.alloc.slots[i] != NULL ensures AllocAt(c', p, live', i) {
      assert AllocAt(c, p, live, i);
      assert c.alloc.slots[i] in OwnBlocks(c, p);
    }
    if ListPart(c.childQty, c.child, c.childList) != [] { assert c.childList in OwnBlocks(c, p); }
    if ListPart(c.allocQty, c.alloc, c.allocList) != [] { assert c.allocList in OwnBlocks(c, p); }
    if p != TOP { assert p in OwnBlocks(c, p); }
  }

  lemma OwnsKept(c: MemContext, p: Ptr, live: Heap, live': Heap)
    requires Owns(c, p, live)
    requires forall b :: b in live && live[b].owner == p ==> b in live' && live'[b] == live[b]
    ensures Owns(c, p, live')
  {
    forall b | b in OwnBlocks(c, p) ensures b in live' && live'[b] == live[b] { OwnIsLive(c, p, live, b); }
    OwnsFrame(c, c, p, live, live');
  }

  /** Removing whole contexts together with their blocks keeps the heap in order; a surviving record may have
      had child slots emptied. */
  lemma HeapShrinks(m: Contexts, live: Heap, m': Contexts, live': Heap)
    requires HeapOk(m, live)
    requires forall x :: x in m' ==>
      x in m && m'[x].(child := m[x].child) == m[x] && |m'[x].child.slots| == |m[x].child.slots|
    requires forall b :: b in live' <==> b in live && live[b].owner in m'
    requires forall b :: b in live' ==> live'[b] == live[b]
    ensures HeapOk(m', live')
  {
    forall x | x in m' ensures Owns(m'[x], x, live') {
      assert Owns(m[x], x, live);
      forall b | b in OwnBlocks(m[x], x) ensures b in live' { OwnIsLive(m[x], x, live, b); }
      OwnsFrame(m[x], m'[x], x, live, live');
    }
    forall b | b in live' ensures OwnedBlock(m', live', b) { assert OwnedBlock(m, live, b); }
  }

  /** Changing one context and its own blocks keeps the heap in order. */
  lemma HeapUpdate(m: Contexts, live: Heap, c: Ptr, rec: MemContext, live': Heap)
    requires HeapOk(m, live)
    requires Owns(rec, c, live')
    requires forall b :: b in live && live[b].owner != c ==> b in live' && live'[b] == live[b]
    requires forall b :: b in live' && live'[b].owner != c ==> b in live && live'[b] == live[b]
    requires forall b :: b in live' && live'[b].owner == c ==> b in OwnBlocks(rec, c)
    ensures HeapOk(m[c := rec], live')
  {
    var m' := m[c := rec];
    forall x | x in m' ensures Owns(m'[x], x, live') {
      if x != c {
        assert Owns(m[x], x, live);
        OwnsKept(m[x], x, live, live');
      }
    }
    forall b | b in live' ensures OwnedBlock(m', live', b) {
      if live'[b].owner != c { assert OwnedBlock(m, live, b); }
    }
  }

  // ---------------------------------------------------------------------------------------------
  // Lists that grow, allocations that come and go

  lemma HeadersLive(m: Contexts, live: Heap)
    requires HeapOk(m, live)
    ensures forall x :: x in m && x != TOP ==> x in live
  {
    forall x | x in m && x != TOP ensures x in live { assert Owns(m[x], x, live); }
  }

  /** `p` is an address that malloc may return: neither null, the static top context, nor live. */
  ghost predicate Fresh(live: Heap, p: Ptr) {
    p != NULL && p != TOP && p !in live
  }

  /** `q` is an address that malloc, or realloc of a list that exists, may return. */
  ghost predicate FreshList(live: Heap, l: SlotList, list: Ptr, q: Ptr) {
    Fresh(live, q) || (l.slots != [] && q == list)
  }

  /** Where a list is after it has gone from `l` to `n` slots. */
  function ListAfter(l: SlotList, n: nat, list: Ptr, q: Ptr): Ptr {
    if n == |l.slots| then list else q
  }

  /** The heap after a list has gone from `l` to the size that block `b` records. */
  function HeapAfter(live: Heap, l: SlotList, n: nat, list: Ptr, q: Ptr, b: Block): Heap {
    if n == |l.slots| then live else (if l.slots == [] then live else live - {list})[q := b]
  }

  function ChildHeapAfter(live: Heap, x: Ptr, c: MemContext, n: nat, q: Ptr): Heap {
    HeapAfter(live, c.child, n, c.childList, q, ChildListBlock(x, WORD * n))
  }

  function AllocHeapAfter(live: Heap, x: Ptr, c: MemContext, n: nat, q: Ptr): Heap {
    HeapAfter(live, c.alloc, n, c.allocList, q, AllocListBlock(x, WORD * n))
  }

  /** A child list may be refilled and may grow. */
  lemma ChildListKept(m: Contexts, live: Heap, x: Ptr, child: SlotList, q: Ptr)
    requires HeapOk(m, live) && x in m && TOP !in live && NULL !in live && m[x].childQty.Many?
    requires child.slots != [] && FreshList(live, m[x].child, m[x].childList, q)
    ensures var n := |child.slots|;
      HeapOk(m[x := m[x].(child := child, childList := ListAfter(m[x].child, n, m[x].childList, q))],
        ChildHeapAfter(live, x, m[x], n, q))
  {
    var c, n := m[x], |child.slots|;
    var live' := ChildHeapAfter(live, x, c, n, q);
    var c' := c.(child := child, childList := ListAfter(c.child, n, c.childList, q));
    assert Owns(c, x, live);
    forall i | 0 <= i < |c.alloc.slots| && c.alloc.slots[i] != NULL ensures AllocAt(c', x, live', i) {
      assert AllocAt(c, x, live, i);
    }
    forall b | b in live' && live'[b].owner == x ensures b in OwnBlocks(c', x) {
      if b in live { assert OwnedBlock(m, live, b); }
    }
    HeapUpdate(m, live, x, c', live');
  }

  /** A new allocation in a context that holds many: it takes a free slot of a list that may grow. */
  lemma AllocKept(m: Contexts, live: Heap, x: Ptr, p: Ptr, bytes: nat, q: Ptr)
    requires HeapOk(m, live) && x in m && TOP !in live && NULL !in live && m[x].allocQty.Many? && InBounds(m[x].alloc)
    requires Fresh(live, p) && FreshList(live, m[x].alloc, m[x].allocList, q) && p != q
    ensures var n, i := |Reserve(m[x].alloc).slots|, Reserve(m[x].alloc).freeIdx;
      HeapOk(m[x := m[x].(alloc := Take(m[x].alloc, p), allocList := ListAfter(m[x].alloc, n, m[x].allocList, q))],
             AllocHeapAfter(live, x, m[x], n, q)[p := AllocBlock(x, bytes, i, bytes % UINT32)])
  {
    hide Reserve, NonNull, FirstFree;
    var c, f := m[x], Reserve(m[x].alloc);
    var n := |f.slots|;
    var live' := AllocHeapAfter(live, x, c, n, q)[p := AllocBlock(x, bytes, f.freeIdx, bytes % UINT32)];
    var c' := c.(alloc := Take(c.alloc, p), allocList := ListAfter(c.alloc, n, c.allocList, q));
    assert Owns(c, x, live);
    forall i | 0 <= i < |c'.alloc.slots| && c'.alloc.slots[i] != NULL ensures AllocAt(c', x, live', i) {
      if i != f.freeIdx { assert AllocAt(c, x, live, i); }
    }
    forall b | b in live' && live'[b].owner == x ensures b in OwnBlocks(c', x) {
      if b == p {
        assert c'.alloc.slots[f.freeIdx] == p;
      } else if b in live {
        assert OwnedBlock(m, live, b);
        if b in NonNull(c.alloc.slots) {
          var i :| 0 <= i < |c.alloc.slots| && c.alloc.slots[i] == b;
          assert c'.alloc.slots[i] == b;
        }
      }
    }
    HeapUpdate(m, live, x, c', live');
  }

  /** Replacing the contents of slot `i` of an allocation list: the block there is released, or moved to `q`. */
  lemma AllocChanged(m: Contexts, live: Heap, x: Ptr, i: nat, alloc: SlotList, q: Ptr, bytes: nat)
    requires HeapOk(m, live) && x in m && TOP !in live && NULL !in live
    requires ListShape(m[x].allocQty, m[x].alloc) && i < |m[x].alloc.slots| && m[x].alloc.slots[i] != NULL
    requires q == NULL || Fresh(live, q) || q == m[x].alloc.slots[i]
    requires alloc.slots == m[x].alloc.slots[i := q]
    ensures HeapOk(m[x := m[x].(alloc := alloc)], AllocReplaced(live, x, m[x].alloc.slots[i], i, q, bytes))
  {
    hide NonNull;
    var c, b0 := m[x], m[x].alloc.slots[i];
    var live' := AllocReplaced(live, x, b0, i, q, bytes);
    var c' := c.(alloc := alloc);
    assert Owns(c, x, live);
    assert AllocAt(c, x, live, i);
    forall j | 0 <= j < |c'.alloc.slots| && c'.alloc.slots[j] != NULL ensures AllocAt(c', x, live', j) {
      if j != i { assert AllocAt(c, x, live, j); }
    }
    forall b | b in live' && live'[b].owner == x ensures b in OwnBlocks(c', x) {
      if b == q {
        assert c'.alloc.slots[i] == q;
      } else {
        assert OwnedBlock(m, live, b);
        if b in NonNull(c.alloc.slots) {
          var j :| 0 <= j < |c.alloc.slots| && c.alloc.slots[j] == b;
          assert c'.alloc.slots[j] == b;
        }
      }
    }
    HeapUpdate(m, live, x, c', live');
  }

  function AllocReplaced(live: Heap, x: Ptr, b: Ptr, i: nat, q: Ptr, bytes: nat): Heap {
    if q == NULL then live - {b} else (live - {b})[q := AllocBlock(x, bytes, i, bytes % UINT32)]
  }

  /** A new context brings one block, its header. */
  lemma HeaderAdded(m: Contexts, live: Heap, p: Ptr, c: MemContext, extra: nat)
    requires HeapOk(m, live) && p !in m && Fresh(live, p) && c.child == Uninitialized && c.alloc == Uninitialized
    requires c.allocExtra == extra % UINT16
    ensures HeapOk(m[p := c], live[p := HeaderBlock(p, HeaderBytes(c) - c.allocExtra + extra, extra)])
  {
    forall b | b in live ensures live[b].owner != p { assert OwnedBlock(m, live, b); }
    HeapUpdate(m, live, p, c, live[p := HeaderBlock(p, HeaderBytes(c) - c.allocExtra + extra, extra)]);
  }

  /** Emptying or filling child slots, or moving to another parent, leaves the blocks of a context alone. */
  lemma RecordKept(m: Contexts, live: Heap, x: Ptr, c: MemContext)
    requires HeapOk(m, live) && x in m && c == m[x].(child := c.child, parent := c.parent, parentIdx := c.parentIdx)
    requires |c.child.slots| == |m[x].child.slots| || m[x].childQty.One?
    ensures HeapOk(m[x := c], live)
  {
    assert Owns(m[x], x, live);
    forall i | 0 <= i < |c.alloc.slots| && c.alloc.slots[i] != NULL ensures AllocAt(c, x, live, i) {
      assert AllocAt(m[x], x, live, i);
    }
    forall b | b in live && live[b].owner == x ensures b in OwnBlocks(c, x) { assert OwnedBlock(m, live, b); }
    HeapUpdate(m, live, x, c, live);
  }

  /** The size of a subtree, counted block by block, is what freeing it gives back. */
  lemma FreeGivesBack(m: Contexts, r: Rank, live: Heap, c: Ptr)
    requires Tree(m, r) && HeapOk(m, live) && c in m
    ensures forall b :: b in FreeOrder(m, r, c) ==> b in live
    ensures TotalBytes(live) == Bytes(live, FreeOrder(m, r, c)) + TotalBytes(Without(live, m, r, c))
  {
    FreeOrderExact(m, r, live, c);
    var s := FreeOrder(m, r, c);
    TotalRemoveAll(live, s);
    assert live - (set b | b in s) == Without(live, m, r, c);
  }

  // ---------------------------------------------------------------------------------------------
  // The callback pass

  /** The callback pass touches flags and callbacks of the subtree of `c` and nothing else. */
  ghost predicate Touched(m0: Contexts, r: Rank, m: Contexts, c: Ptr)
    requires Tree(m0, r) && c in m0
  {
    && m.Keys == m0.Keys
    && (forall x {:trigger m[x]} :: x in m ==> SameBody(m0[x], m[x]))
    && (forall x {:trigger m[x]} :: x in m ==> m[x].callback in {m0[x].callback, NoCallback})
    && (forall x {:trigger m[x]} :: x in m && !Under(m0, r, x, c) ==> m[x] == m0[x])
  }

  lemma TouchedTree(m0: Contexts, r: Rank, m: Contexts)
    requires Tree(m0, r) && m.Keys == m0.Keys
    requires forall x {:trigger m[x]} :: x in m ==> SameBody(m0[x], m[x])
    ensures Tree(m, r)
  {
    forall x | x in m ensures Shaped(m[x]) { assert Shaped(m0[x]); }
    forall x | x in m && x != TOP ensures Linked(m, r, x) {
      assert Linked(m0, r, x);
      assert SameBody(m0[m0[x].parent], m[m0[x].parent]);
    }
    forall x, i | x in m && 0 <= i < |Kids(m[x])| && Kids(m[x])[i] != NULL ensures KidAt(m, x, i) {
      assert KidAt(m0, x, i);
      assert SameBody(m0[Kids(m0[x])[i]], m[Kids(m0[x])[i]]);
    }
  }

  lemma TouchedHeap(m0: Contexts, live: Heap, m: Contexts)
    requires HeapOk(m0, live) && m.Keys == m0.Keys
    requires forall x {:trigger m[x]} :: x in m ==> SameBody(m0[x], m[x])
    ensures HeapOk(m, live)
  {
    forall x | x in m ensures Owns(m[x], x, live) {
      assert Owns(m0[x], x, live);
      forall b | b in OwnBlocks(m0[x], x) ensures b in live { OwnIsLive(m0[x], x, live, b); }
      OwnsFrame(m0[x], m[x], x, live, live);
    }
    forall b | b in live ensures OwnedBlock(m, live, b) { assert OwnedBlock(m0, live, b); }
  }

  lemma TouchedUnder(m0: Contexts, r: Rank, m: Contexts, c: Ptr, x: Ptr)
    requires Tree(m0, r) && Tree(m, r) && c in m0 && Touched(m0, r, m, c) && x in m0
    ensures Under(m, r, x, c) == Under(m0, r, x, c)
  {
    forall y | y in m0 ensures m[y].parent == m0[y].parent { assert SameBody(m0[y], m[y]); }
    UnderFrame(m0, m, r, x, c);
  }

  lemma TouchedCut(m0: Contexts, r: Rank, m: Contexts, live: Heap, c: Ptr)
    requires Tree(m0, r) && Tree(m, r) && c in m0 && Touched(m0, r, m, c)
    ensures Cut(m, r, c) == Cut(m0, r, c)
    ensures Without(live, m, r, c) == Without(live, m0, r, c)
  {
    forall x | x in m0 ensures Under(m, r, x, c) == Under(m0, r, x, c) { TouchedUnder(m0, r, m, c, x); }
  }

  /** Tearing down after the callback pass does what tearing down before it would have done. */
  lemma TouchedFreed(m0: Contexts, r: Rank, m: Contexts, c: Ptr)
    requires Tree(m0, r) && Tree(m, r) && c in m0 && Touched(m0, r, m, c)
    requires m0[TOP].callback.NoCallback? && m[TOP].callback.NoCallback?
    ensures Freed(m, r, c) == Freed(m0, r, c)
    ensures FreeOrder(m, r, c) == FreeOrder(m0, r, c)
  {
    FreeOrderFrame(m0, m, r, c);
    TouchedCut(m0, r, m, map[], c);
    if c == TOP {
      assert SameBody(m0[TOP], m[TOP]);
    } else {
      assert Linked(m0, r, c);
      assert SameBody(m0[c], m[c]);
      assert !Under(m0, r, m0[c].parent, c);
      assert m[m0[c].parent] == m0[m0[c].parent];
    }
  }

  /** The callback pass has run the callbacks of `c` and of its first `n` children; none of them threw. */
  ghost predicate MidCalls(m0: Contexts, r: Rank, m: Contexts, c: Ptr, n: nat)
    requires Tree(m0, r) && c in m0 && n <= |Kids(m0[c])|
  {
    && Touched(m0, r, m, c)
    && (forall x {:trigger m[x]} :: x in m && x != c && !InKids(m0, r, c, n, x) ==> m[x] == m0[x])
    && (forall x :: x in OwnCall(m0, c) + KidsCalls(m0, r, c, n) ==> !Throws(m0, x))
    && (forall x {:trigger m[x]} :: x in m && (x == c || InKids(m0, r, c, n, x)) ==> Marked(m[x]))
  }

  /** The callback pass has been here: the context is not active any more and its callback has been run. */
  predicate Marked(c: MemContext) {
    !c.active && c.callback.NoCallback?
  }

  /** Running the callback of `c` itself starts the pass. */
  lemma OwnCalled(m0: Contexts, r: Rank, c: Ptr, rec: MemContext)
    requires Tree(m0, r) && c in m0 && SameBody(m0[c], rec) && rec.callback in {m0[c].callback, NoCallback}
    ensures Tree(m0[c := rec], r) && Touched(m0, r, m0[c := rec], c)
    ensures !Throws(m0, c) && Marked(rec) ==> MidCalls(m0, r, m0[c := rec], c, 0)
    ensures OwnCall(m0, c) + KidsCalls(m0, r, c, 0) == OwnCall(m0, c)
  {
    assert Under(m0, r, c, c);
    TouchedTree(m0, r, m0[c := rec]);
  }

  lemma {:induction false} RunCallsFrame(m: Contexts, m': Contexts, s: seq<Ptr>)
    requires forall x :: x in s ==> Throws(m, x) == Throws(m', x)
    ensures RunCalls(m, s) == RunCalls(m', s)
  {
    if s != [] {
      RunCallsFrame(m, m', s[1..]);
    }
  }

  lemma {:induction false} KidsCallsPrefix(m: Contexts, r: Rank, c: Ptr, i: nat, n: nat) returns (rest: seq<Ptr>)
    requires Tree(m, r) && c in m && i <= n <= |Kids(m[c])|
    ensures KidsCalls(m, r, c, n) == KidsCalls(m, r, c, i) + rest
  {
    hide Under, CallOrder;
    if i == n {
      rest := [];
    } else {
      rest := KidsCallsPrefix(m, r, c, i, n - 1);
      if Kids(m[c])[n - 1] != NULL {
        KidUnder(m, r, c, n - 1);
        rest := rest + CallOrder(m, r, Kids(m[c])[n - 1]);
      }
    }
  }

  /** To the next child, the contexts look as they did when the pass began. */
  lemma MidCallsChild(m0: Contexts, r: Rank, m: Contexts, c: Ptr, n: nat)
    requires Tree(m0, r) && Tree(m, r) && c in m0 && n < |Kids(m0[c])| && MidCalls(m0, r, m, c, n)
    requires Kids(m0[c])[n] != NULL
    ensures var k := Kids(m0[c])[n];
      && k in m && k in m0 && r[k] < r[c]
      && CallOrder(m, r, k) == CallOrder(m0, r, k)
      && RunCalls(m, CallOrder(m, r, k)) == RunCalls(m0, CallOrder(m0, r, k))
      && (forall x :: x in CallOrder(m0, r, k) ==> Throws(m, x) == Throws(m0, x))
      && KidsCalls(m0, r, c, n + 1) == KidsCalls(m0, r, c, n) + CallOrder(m0, r, k)
      && (forall x :: x in m ==> Under(m, r, x, k) == Under(m0, r, x, k))
      && (forall x :: x in m && Under(m0, r, x, k) ==> Under(m0, r, x, c) && InKids(m0, r, c, n + 1, x))
      && (forall x :: x in m && InKids(m0, r, c, n, x) ==> InKids(m0, r, c, n + 1, x))
  {
    var k := Kids(m0[c])[n];
    KidUnder(m0, r, c, n);
    forall x | x in m0 ensures m[x].parent == m0[x].parent { assert SameBody(m0[x], m[x]); }
    forall x | x in m0 && Under(m0, r, x, k) ensures m[x] == m0[x] && Under(m0, r, x, c) && InKids(m0, r, c, n + 1, x) {
      if InKids(m0, r, c, n, x) {
        var j := InKidsWitness(m0, r, c, n, x);
        KidsApart(m0, r, x, c, j, n);
      }
      UnderRank(m0, r, x, k);
      UnderTrans(m0, r, x, k, c);
      assert KidCovers(m0, r, c, n, x);
    }
    forall x | x in m ensures Under(m, r, x, k) == Under(m0, r, x, k) { UnderFrame(m0, m, r, x, k); }
    CallOrderFrame(m0, m, r, k);
    CallOrderExact(m0, r, k);
    RunCallsFrame(m, m0, CallOrder(m0, r, k));
  }

  lemma TouchedTrans(m0: Contexts, r: Rank, m: Contexts, m': Contexts, c: Ptr, k: Ptr)
    requires Tree(m0, r) && Tree(m, r) && c in m0 && k in m && Touched(m0, r, m, c) && Touched(m, r, m', k)
    requires forall x :: x in m && Under(m, r, x, k) ==> Under(m0, r, x, c)
    ensures Touched(m0, r, m', c)
  {
    forall x | x in m' ensures SameBody(m0[x], m'[x]) {
      assert SameBody(m0[x], m[x]) && SameBody(m[x], m'[x]);
    }
    forall x | x in m' && !Under(m0, r, x, c) ensures m'[x] == m0[x] {
      assert m[x] == m0[x];
    }
  }

  /** A child that did not throw extends the pass. */
  lemma MidCallsStep(m0: Contexts, r: Rank, m: Contexts, m': Contexts, c: Ptr, n: nat)
    requires Tree(m0, r) && Tree(m, r) && c in m0 && n < |Kids(m0[c])| && MidCalls(m0, r, m, c, n)
    requires Kids(m0[c])[n] in m && Kids(m0[c])[n] != NULL && Touched(m, r, m', Kids(m0[c])[n])
    requires forall x :: x in CallOrder(m, r, Kids(m0[c])[n]) ==> !Throws(m, x)
    requires forall x {:trigger m'[x]} :: x in m' && Under(m, r, x, Kids(m0[c])[n]) ==> Marked(m'[x])
    ensures MidCalls(m0, r, m', c, n + 1)
  {
    var k := Kids(m0[c])[n];
    MidCallsChild(m0, r, m, c, n);
    TouchedTrans(m0, r, m, m', c, k);
    forall x | x in m' && x != c && !InKids(m0, r, c, n + 1, x) ensures m'[x] == m0[x] {
      assert !Under(m, r, x, k);
      assert m[x] == m0[x];
    }
    forall x | x in m' && (x == c || InKids(m0, r, c, n + 1, x)) ensures Marked(m'[x]) {
      if !Under(m, r, x, k) {
        assert m'[x] == m[x];
      }
    }
  }

  lemma MidCallsSkip(m0: Contexts, r: Rank, m: Contexts, c: Ptr, n: nat)
    requires Tree(m0, r) && c in m0 && n < |Kids(m0[c])| && MidCalls(m0, r, m, c, n) && Kids(m0[c])[n] == NULL
    ensures MidCalls(m0, r, m, c, n + 1)
    ensures KidsCalls(m0, r, c, n + 1) == KidsCalls(m0, r, c, n)
  {
    assert KidsCalls(m0, r, c, n + 1) == KidsCalls(m0, r, c, n);
  }

  /** A child that threw ends the pass: later callbacks are not run. */
  lemma CallsCut(m0: Contexts, r: Rank, m: Contexts, c: Ptr, n: nat, k: Ptr)
    requires Tree(m0, r) && Tree(m, r) && c in m0 && n < |Kids(m0[c])| && MidCalls(m0, r, m, c, n)
    requires k == Kids(m0[c])[n] && k in m && k != NULL
    requires exists x :: x in CallOrder(m, r, k) && Throws(m, x)
    ensures RunCalls(m0, CallOrder(m0, r, c))
      == OwnCall(m0, c) + KidsCalls(m0, r, c, n) + RunCalls(m, CallOrder(m, r, k))
    ensures exists x :: x in CallOrder(m0, r, c) && Throws(m0, x)
  {
    MidCallsChild(m0, r, m, c, n);
    var rest := KidsCallsPrefix(m0, r, c, n + 1, |Kids(m0[c])|);
    var own, head, kid := OwnCall(m0, c), KidsCalls(m0, r, c, n), CallOrder(m0, r, k);
    AssociateCalls(own, head, kid, rest);
    RunCallsConcat(m0, own + head, kid + rest);
    RunCallsCut(m0, kid, rest);
    var x :| x in kid && Throws(m0, x);
    assert x in (own + head) + (kid + rest);
  }

  /** The pass after a child has returned: either the child's callbacks extend it or it is over. */
  lemma KidReturned(m0: Contexts, r: Rank, m: Contexts, m': Contexts, c: Ptr, n: nat, k: Ptr)
    requires Tree(m0, r) && Tree(m, r) && c in m0 && n < |Kids(m0[c])| && MidCalls(m0, r, m, c, n)
    requires k == Kids(m0[c])[n] && k in m && k != NULL && Touched(m, r, m', k)
    requires forall x :: x in CallOrder(m, r, k) ==> !Throws(m, x)
    requires forall x {:trigger m'[x]} :: x in m' && Under(m, r, x, k) ==> Marked(m'[x])
    ensures MidCalls(m0, r, m', c, n + 1)
    ensures OwnCall(m0, c) + KidsCalls(m0, r, c, n) + RunCalls(m, CallOrder(m, r, k))
      == OwnCall(m0, c) + KidsCalls(m0, r, c, n + 1)
  {
    MidCallsChild(m0, r, m, c, n);
    MidCallsStep(m0, r, m, m', c, n);
    AssociateCalls(OwnCall(m0, c), KidsCalls(m0, r, c, n), CallOrder(m0, r, k), []);
    assert KidsCalls(m0, r, c, n) + CallOrder(m0, r, k) + [] == KidsCalls(m0, r, c, n + 1);
    assert CallOrder(m0, r, k) + [] == CallOrder(m0, r, k);
  }

  lemma KidThrew(m0: Contexts, r: Rank, m: Contexts, m': Contexts, c: Ptr, n: nat, k: Ptr)
    requires Tree(m0, r) && Tree(m, r) && c in m0 && n < |Kids(m0[c])| && MidCalls(m0, r, m, c, n)
    requires k == Kids(m0[c])[n] && k in m && k != NULL && Touched(m, r, m', k)
    requires exists x :: x in CallOrder(m, r, k) && Throws(m, x)
    ensures Touched(m0, r, m', c)
    ensures RunCalls(m0, CallOrder(m0, r, c))
      == OwnCall(m0, c) + KidsCalls(m0, r, c, n) + RunCalls(m, CallOrder(m, r, k))
    ensures exists x :: x in CallOrder(m0, r, c) && Throws(m0, x)
  {
    MidCallsChild(m0, r, m, c, n);
    TouchedTrans(m0, r, m, m', c, k);
    CallsCut(m0, r, m, c, n, k);
  }

  /** No callback threw: all of them ran. */
  lemma CallsDone(m0: Contexts, r: Rank, m: Contexts, c: Ptr)
    requires Tree(m0, r) && c in m0 && MidCalls(m0, r, m, c, |Kids(m0[c])|)
    ensures RunCalls(m0, CallOrder(m0, r, c)) == OwnCall(m0, c) + KidsCalls(m0, r, c, |Kids(m0[c])|)
    ensures forall x :: x in CallOrder(m0, r, c) ==> !Throws(m0, x)
    ensures forall x :: x in m && Under(m0, r, x, c) ==> Marked(m[x])
  {
    forall x | x in m && Under(m0, r, x, c) ensures Marked(m[x]) {
      InKidsAll(m0, r, c, x);
    }
  }

  /** The callback of the context itself threw: no other callback ran. */
  lemma CallsCutOwn(m0: Contexts, r: Rank, c: Ptr)
    requires Tree(m0, r) && c in m0 && Throws(m0, c)
    ensures RunCalls(m0, CallOrder(m0, r, c)) == OwnCall(m0, c)
    ensures c in CallOrder(m0, r, c)
  {
    assert CallOrder(m0, r, c)[0] == c;
  }

  lemma AssociateCalls(a: seq<Ptr>, b: seq<Ptr>, c: seq<Ptr>, d: seq<Ptr>)
    ensures a + (b + c + d) == (a + b) + (c + d)
  {
  }
}
