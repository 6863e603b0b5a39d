/** What tearing down a subtree does to the heap: the order in which callbacks run and blocks are freed, and
    the proof that this order covers the subtree exactly once. */
module MemTeardown {
  import opened Slots
  import opened MemTree

  datatype Event = Called(c: Ptr) | Released(b: Ptr)

  function Calls(s: seq<Ptr>): (e: seq<Event>)
    ensures |e| == |s| && forall i :: 0 <= i < |s| ==> e[i] == Called(s[i])
  {
    seq(|s|, i requires 0 <= i < |s| => Called(s[i]))
  }

  function Releases(s: seq<Ptr>): (e: seq<Event>)
    ensures |e| == |s| && forall i :: 0 <= i < |s| ==> e[i] == Released(s[i])
  {
    seq(|s|, i requires 0 <= i < |s| => Released(s[i]))
  }

  lemma ReleasesAppend(e: seq<Event>, s: seq<Ptr>, t: seq<Ptr>)
    ensures e + Releases(s) + Releases(t) == e + Releases(s + t)
  {
  }

  ghost predicate NoDup<T>(s: seq<T>) {
    forall i, j :: 0 <= i < j < |s| ==> s[i] != s[j]
  }

  lemma NoDupConcat<T>(s: seq<T>, t: seq<T>)
    requires NoDup(s) && NoDup(t) && forall x :: x in s ==> x !in t
    ensures NoDup(s + t)
  {
    forall i, j | 0 <= i < j < |s + t| ensures (s + t)[i] != (s + t)[j] {
      if i < |s| <= j { assert s[i] in s && t[j - |s|] in t; }
    }
  }

  // ---------------------------------------------------------------------------------------------
  // Free order

  /** The blocks of one context in the order they are freed: child list, allocations, allocation list, header. */
  function OwnBlocks(c: MemContext, p: Ptr): seq<Ptr> {
    ListPart(c.childQty, c.child, c.childList) + NonNull(c.alloc.slots)
    + ListPart(c.allocQty, c.alloc, c.allocList) + if p == TOP then [] else [p]
  }

  function ListPart(qty: Qty, l: SlotList, list: Ptr): seq<Ptr> {
    if qty.Many? && l.slots != [] then [list] else []
  }

  /** The blocks of a subtree in the order they are freed. */
  ghost function FreeOrder(m: Contexts, r: Rank, c: Ptr): seq<Ptr>
    requires Tree(m, r) && c in m
    decreases r[c], |Kids(m[c])| + 1
  {
    KidsOrder(m, r, c, |Kids(m[c])|) + OwnBlocks(m[c], c)
  }

  ghost function KidsOrder(m: Contexts, r: Rank, c: Ptr, n: nat): seq<Ptr>
    requires Tree(m, r) && c in m && n <= |Kids(m[c])|
    decreases r[c], n
  {
    if n == 0 then []
    else
      KidsOrder(m, r, c, n - 1) +
      if Kids(m[c])[n - 1] == NULL then []
      else
        KidUnder(m, r, c, n - 1);
        FreeOrder(m, r, Kids(m[c])[n - 1])
  }

  /** Two records with the same children and blocks; flags and callbacks may differ. */
  ghost predicate SameBody(a: MemContext, b: MemContext) {
    b == a.(callback := b.callback, active := b.active)
  }

  lemma {:induction false} FreeOrderFrame(m: Contexts, m': Contexts, r: Rank, c: Ptr)
    requires Tree(m, r) && Tree(m', r) && c in m
    requires forall x {:trigger Under(m, r, x, c)} :: x in m && Under(m, r, x, c) ==> x in m' && SameBody(m[x], m'[x])
    ensures c in m' && FreeOrder(m', r, c) == FreeOrder(m, r, c)
    decreases r[c], |Kids(m[c])| + 1
  {
    assert Under(m, r, c, c);
    assert SameBody(m[c], m'[c]);
    KidsOrderFrame(m, m', r, c, |Kids(m[c])|);
  }

  lemma {:induction false} KidsOrderFrame(m: Contexts, m': Contexts, r: Rank, c: Ptr, n: nat)
    requires Tree(m, r) && Tree(m', r) && c in m && c in m' && n <= |Kids(m[c])| && Kids(m[c]) == Kids(m'[c])
    requires forall x {:trigger Under(m, r, x, c)} :: x in m && Under(m, r, x, c) ==> x in m' && SameBody(m[x], m'[x])
    ensures KidsOrder(m', r, c, n) == KidsOrder(m, r, c, n)
    decreases r[c], n
  {
    hide Under, FreeOrder;
    if n > 0 {
      KidsOrderFrame(m, m', r, c, n - 1);
      var k := Kids(m[c])[n - 1];
      if k != NULL {
        KidUnder(m, r, c, n - 1);
        forall x | x in m && Under(m, r, x, k) ensures x in m' && SameBody(m[x], m'[x]) {
          UnderTrans(m, r, x, k, c);
        }
        FreeOrderFrame(m, m', r, k);
      }
    }
  }

  // ---------------------------------------------------------------------------------------------
  // Ownership of heap blocks

  /** The bytes of a header as its record has them. */
  function HeaderBytes(c: MemContext): nat {
    HEADER_SIZE + c.allocExtra
    + (match c.childQty case Zero => 0 case One => CHILD_ONE_SIZE case Many => CHILD_MANY_SIZE)
    + (match c.allocQty case Zero => 0 case One => ALLOC_ONE_SIZE case Many => ALLOC_MANY_SIZE)
    + if c.hasCallback then CALLBACK_SIZE else 0
  }

  ghost predicate AllocAt(c: MemContext, p: Ptr, live: Heap, i: nat)
    requires i < |c.alloc.slots|
  {
    var b := c.alloc.slots[i];
    && b in live && live[b].AllocBlock? && live[b].owner == p
    && (c.allocQty.Many? ==> live[b].allocIdx == i)
    && live[b].size == live[b].bytes % UINT32
  }

  /** The header was allocated for this record; of the extra bytes the record keeps 16 bits. */
  ghost predicate HeaderAt(c: MemContext, p: Ptr, live: Heap) {
    && p in live && live[p].HeaderBlock? && live[p].owner == p
    && c.allocExtra == live[p].extra % UINT16
    && live[p].bytes == HeaderBytes(c) - c.allocExtra + live[p].extra
  }

  /** The heap blocks of one context are live, its own, and of the kind and size the context believes. */
  ghost predicate Owns(c: MemContext, p: Ptr, live: Heap) {
    && (ListPart(c.childQty, c.child, c.childList) != [] ==>
      c.childList in live && live[c.childList] == ChildListBlock(p, WORD * |c.child.slots|))
    && (ListPart(c.allocQty, c.alloc, c.allocList) != [] ==>
      c.allocList in live && live[c.allocList] == AllocListBlock(p, WORD * |c.alloc.slots|))
    && (p != TOP ==> HeaderAt(c, p, live))
    && (forall i :: 0 <= i < |c.alloc.slots| && c.alloc.slots[i] != NULL ==> AllocAt(c, p, live, i))
  }

  ghost predicate OwnedBlock(m: Contexts, live: Heap, b: Ptr)
    requires b in live
  {
    live[b].owner in m && b in OwnBlocks(m[live[b].owner], live[b].owner)
  }

  /** Every block of every context is live and every live block belongs to a context: nothing dangles and
      nothing leaks. */
  ghost predicate HeapOk(m: Contexts, live: Heap) {
    && (forall x {:trigger Owns(m[x], x, live)} :: x in m ==> Owns(m[x], x, live))
    && (forall b {:trigger OwnedBlock(m, live, b)} :: b in live ==> OwnedBlock(m, live, b))
  }

  lemma {:induction false} AllocsDistinct(c: MemContext, p: Ptr, live: Heap, n: nat)
    requires Owns(c, p, live) && ListShape(c.allocQty, c.alloc) && n <= |c.alloc.slots|
    ensures NoDup(NonNull(c.alloc.slots[..n]))
  {
    if n > 0 {
      AllocsDistinct(c, p, live, n - 1);
      var s := c.alloc.slots;
      assert s[..n][..n - 1] == s[..n - 1];
      forall i | 0 <= i < n - 1 && s[i] != NULL && s[n - 1] != NULL ensures s[i] != s[n - 1] {
        assert AllocAt(c, p, live, i) && AllocAt(c, p, live, n - 1);
      }
      NoDupConcat(NonNull(s[..n - 1]), if s[n - 1] == NULL then [] else [s[n - 1]]);
    }
  }

  /** A context never owns the same block twice. */
  lemma OwnDistinct(c: MemContext, p: Ptr, live: Heap)
    requires Owns(c, p, live) && ListShape(c.allocQty, c.alloc)
    ensures NoDup(OwnBlocks(c, p))
  {
    AllocsDistinct(c, p, live, |c.alloc.slots|);
    assert c.alloc.slots[..|c.alloc.slots|] == c.alloc.slots;
    var allocs := NonNull(c.alloc.slots);
    forall b | b in allocs ensures b in live && live[b].AllocBlock? {
      var i :| 0 <= i < |c.alloc.slots| && c.alloc.slots[i] == b;
      assert AllocAt(c, p, live, i);
    }
    var head := ListPart(c.childQty, c.child, c.childList);
    var list := ListPart(c.allocQty, c.alloc, c.allocList);
    NoDupConcat(head, allocs);
    NoDupConcat(head + allocs, list);
    NoDupConcat(head + allocs + list, if p == TOP then [] else [p]);
  }

  lemma OwnIsLive(c: MemContext, p: Ptr, live: Heap, b: Ptr)
    requires Owns(c, p, live) && b in OwnBlocks(c, p)
    ensures b in live && live[b].owner == p
  {
    if b in NonNull(c.alloc.slots) {
      var i :| 0 <= i < |c.alloc.slots| && c.alloc.slots[i] == b;
      assert AllocAt(c, p, live, i);
    }
  }

  /** Which blocks the first `n` children of `c` account for. */
  ghost predicate InKids(m: Contexts, r: Rank, c: Ptr, n: nat, x: Ptr)
    requires Tree(m, r) && c in m && n <= |Kids(m[c])| && x in m
  {
    n > 0 && (KidCovers(m, r, c, n - 1, x) || InKids(m, r, c, n - 1, x))
  }

  lemma {:induction false} InKidsIntro(m: Contexts, r: Rank, c: Ptr, n: nat, x: Ptr, j: nat)
    requires Tree(m, r) && c in m && j < n <= |Kids(m[c])| && x in m && KidCovers(m, r, c, j, x)
    ensures InKids(m, r, c, n, x)
  {
    if j < n - 1 { InKidsIntro(m, r, c, n - 1, x, j); }
  }

  lemma {:induction false} InKidsWitness(m: Contexts, r: Rank, c: Ptr, n: nat, x: Ptr) returns (j: nat)
    requires Tree(m, r) && c in m && n <= |Kids(m[c])| && x in m && InKids(m, r, c, n, x)
    ensures j < n && KidCovers(m, r, c, j, x)
  {
    if KidCovers(m, r, c, n - 1, x) { j := n - 1; } else { j := InKidsWitness(m, r, c, n - 1, x); }
  }

  ghost predicate KidCovers(m: Contexts, r: Rank, c: Ptr, j: nat, x: Ptr)
    requires Tree(m, r) && c in m && j < |Kids(m[c])| && x in m
  {
    Kids(m[c])[j] != NULL && Kids(m[c])[j] in r && Under(m, r, x, Kids(m[c])[j])
  }

  lemma InKidsAll(m: Contexts, r: Rank, c: Ptr, x: Ptr)
    requires Tree(m, r) && c in m && x in m
    ensures InKids(m, r, c, |Kids(m[c])|, x) <==> x != c && Under(m, r, x, c)
  {
    if x != c && Under(m, r, x, c) {
      var i := UnderSomeKid(m, r, x, c);
      InKidsIntro(m, r, c, |Kids(m[c])|, x, i);
    }
    if InKids(m, r, c, |Kids(m[c])|, x) {
      var j := InKidsWitness(m, r, c, |Kids(m[c])|, x);
      KidUnder(m, r, c, j);
      UnderTrans(m, r, x, Kids(m[c])[j], c);
      UnderRank(m, r, x, Kids(m[c])[j]);
    }
  }

  /** Every block listed belongs to a context of the subtree. */
  lemma {:induction false} FreeOrderOwner(m: Contexts, r: Rank, c: Ptr, b: Ptr) returns (x: Ptr)
    requires Tree(m, r) && c in m && b in FreeOrder(m, r, c)
    ensures x in m && Under(m, r, x, c) && b in OwnBlocks(m[x], x)
    decreases r[c], |Kids(m[c])| + 1
  {
    hide KidsOrder;
    if b in OwnBlocks(m[c], c) {
      x := c;
    } else {
      var j;
      j, x := KidsOrderOwner(m, r, c, |Kids(m[c])|, b);
      KidUnder(m, r, c, j);
      UnderTrans(m, r, x, Kids(m[c])[j], c);
    }
  }

  lemma {:induction false} KidsOrderOwner(m: Contexts, r: Rank, c: Ptr, n: nat, b: Ptr) returns (j: nat, x: Ptr)
    requires Tree(m, r) && c in m && n <= |Kids(m[c])| && b in KidsOrder(m, r, c, n)
    ensures j < n && x in m && KidCovers(m, r, c, j, x) && b in OwnBlocks(m[x], x)
    decreases r[c], n
  {
    hide Under, FreeOrder;
    if b in KidsOrder(m, r, c, n - 1) {
      j, x := KidsOrderOwner(m, r, c, n - 1, b);
    } else {
      KidUnder(m, r, c, n - 1);
      j := n - 1;
      x := FreeOrderOwner(m, r, Kids(m[c])[n - 1], b);
    }
  }

  /** Every block of every context of the subtree is listed. */
  lemma {:induction false} FreeOrderCovers(m: Contexts, r: Rank, c: Ptr, x: Ptr, b: Ptr)
    requires Tree(m, r) && c in m && x in m && Under(m, r, x, c) && b in OwnBlocks(m[x], x)
    ensures b in FreeOrder(m, r, c)
    decreases r[c], |Kids(m[c])| + 1
  {
    hide KidsOrder, NonNull;
    if x != c {
      var j := UnderSomeKid(m, r, x, c);
      KidsOrderCovers(m, r, c, |Kids(m[c])|, j, x, b);
    }
  }

  lemma {:induction false} KidsOrderCovers(m: Contexts, r: Rank, c: Ptr, n: nat, j: nat, x: Ptr, b: Ptr)
    requires Tree(m, r) && c in m && j < n <= |Kids(m[c])| && x in m && KidCovers(m, r, c, j, x)
      && b in OwnBlocks(m[x], x)
    ensures b in KidsOrder(m, r, c, n)
    decreases r[c], n
  {
    hide Under, FreeOrder, OwnBlocks, NonNull;
    if j == n - 1 {
      KidUnder(m, r, c, j);
      FreeOrderCovers(m, r, Kids(m[c])[j], x, b);
    } else {
      KidsOrderCovers(m, r, c, n - 1, j, x, b);
    }
  }

  ghost predicate OwnerUnder(m: Contexts, r: Rank, live: Heap, c: Ptr, b: Ptr)
    requires Tree(m, r) && c in m
  {
    b in live && live[b].owner in m && Under(m, r, live[b].owner, c)
  }

  /** Freeing a subtree releases each block of the subtree exactly once and no other block. */
  lemma FreeOrderExact(m: Contexts, r: Rank, live: Heap, c: Ptr)
    requires Tree(m, r) && HeapOk(m, live) && c in m
    ensures NoDup(FreeOrder(m, r, c))
    ensures forall b :: b in FreeOrder(m, r, c) <==> OwnerUnder(m, r, live, c, b)
  {
    hide FreeOrder, KidsOrder;
    FreeOrderDistinct(m, r, live, c);
    forall b ensures b in FreeOrder(m, r, c) <==> OwnerUnder(m, r, live, c, b) {
      if b in FreeOrder(m, r, c) {
        var x := FreeOrderOwner(m, r, c, b);
        assert Owns(m[x], x, live);
        OwnIsLive(m[x], x, live, b);
      }
      if OwnerUnder(m, r, live, c, b) {
        assert OwnedBlock(m, live, b);
        FreeOrderCovers(m, r, c, live[b].owner, b);
      }
    }
  }

  lemma {:induction false} FreeOrderDistinct(m: Contexts, r: Rank, live: Heap, c: Ptr)
    requires Tree(m, r) && HeapOk(m, live) && c in m
    ensures NoDup(FreeOrder(m, r, c))
    decreases r[c], |Kids(m[c])| + 1
  {
    hide KidsOrder;
    var kids, own := KidsOrder(m, r, c, |Kids(m[c])|), OwnBlocks(m[c], c);
    KidsOrderDistinct(m, r, live, c, |Kids(m[c])|);
    assert Owns(m[c], c, live) && Shaped(m[c]);
    OwnDistinct(m[c], c, live);
    forall b | b in kids && b in own ensures false {
      var j, x := KidsOrderOwner(m, r, c, |Kids(m[c])|, b);
      KidUnder(m, r, c, j);
      UnderRank(m, r, x, Kids(m[c])[j]);
      SameOwner(m, live, x, c, b);
    }
    NoDupConcat(kids, own);
  }

  lemma {:induction false} KidsOrderDistinct(m: Contexts, r: Rank, live: Heap, c: Ptr, n: nat)
    requires Tree(m, r) && HeapOk(m, live) && c in m && n <= |Kids(m[c])|
    ensures NoDup(KidsOrder(m, r, c, n))
    decreases r[c], n
  {
    hide Under, FreeOrder;
    if n > 0 {
      KidsOrderDistinct(m, r, live, c, n - 1);
      var head, k := KidsOrder(m, r, c, n - 1), Kids(m[c])[n - 1];
      if k == NULL {
        assert KidsOrder(m, r, c, n) == head;
      } else {
        KidUnder(m, r, c, n - 1);
        FreeOrderDistinct(m, r, live, k);
        forall b | b in head && b in FreeOrder(m, r, k) ensures false {
          var j, x := KidsOrderOwner(m, r, c, n - 1, b);
          var y := FreeOrderOwner(m, r, k, b);
          SameOwner(m, live, x, y, b);
          KidsApart(m, r, x, c, j, n - 1);
        }
        NoDupConcat(head, FreeOrder(m, r, k));
      }
    }
  }

  /** Block `b` is found by way of block `a`: everything below a context by way of its header, what its children own by
      way of its child list, and its allocations by way of its allocation list. */
  ghost predicate Leads(m: Contexts, r: Rank, live: Heap, a: Ptr, b: Ptr)
    requires Tree(m, r)
  {
    && a != b && a in live && b in live && live[a].owner in m && live[b].owner in m
    && match live[a]
       case HeaderBlock(x, _, _) => Under(m, r, live[b].owner, x)
       case ChildListBlock(x, _) => live[b].owner != x && Under(m, r, live[b].owner, x)
       case AllocListBlock(x, _) => live[b].AllocBlock? && live[b].owner == x
       case AllocBlock(_, _, _, _) => false
  }

  /** No block of the list stands behind one that leads to it. */
  ghost predicate LeadersLast(m: Contexts, r: Rank, live: Heap, s: seq<Ptr>)
    requires Tree(m, r)
  {
    forall i, j {:trigger Leads(m, r, live, s[i], s[j])} :: 0 <= i < j < |s| ==> !Leads(m, r, live, s[i], s[j])
  }

  lemma LeadersConcat(m: Contexts, r: Rank, live: Heap, s: seq<Ptr>, t: seq<Ptr>)
    requires Tree(m, r) && LeadersLast(m, r, live, s) && LeadersLast(m, r, live, t)
    requires forall a, b :: a in s && b in t ==> !Leads(m, r, live, a, b)
    ensures LeadersLast(m, r, live, s + t)
  {
    hide Leads;
    forall i, j | 0 <= i < j < |s + t| ensures !Leads(m, r, live, (s + t)[i], (s + t)[j]) {
      if i < |s| <= j { assert (s + t)[i] in s && (s + t)[j] in t; }
    }
  }

  lemma LeadsUnder(m: Contexts, r: Rank, live: Heap, a: Ptr, b: Ptr)
    requires Tree(m, r) && HeapOk(m, live) && Leads(m, r, live, a, b)
    ensures Under(m, r, live[b].owner, live[a].owner)
  {
    hide HeapOk;
  }

  /** Nothing is released after a block that leads to it: the program never looks for a block in memory that it has
      given back. */
  lemma {:induction false} ReleasedInReach(m: Contexts, r: Rank, live: Heap, c: Ptr)
    requires Tree(m, r) && HeapOk(m, live) && c in m && TOP !in live
    ensures LeadersLast(m, r, live, FreeOrder(m, r, c))
    decreases r[c], |Kids(m[c])| + 1
  {
    hide KidsOrder, Leads, LeadersLast, OwnBlocks;
    var kids, own := KidsOrder(m, r, c, |Kids(m[c])|), OwnBlocks(m[c], c);
    KidsInReach(m, r, live, c, |Kids(m[c])|);
    OwnInReach(m, r, live, c);
    forall a, b | a in kids && b in own ensures !Leads(m, r, live, a, b) {
      var j, x := KidsOrderOwner(m, r, c, |Kids(m[c])|, a);
      KidUnder(m, r, c, j);
      UnderRank(m, r, x, Kids(m[c])[j]);
      OwnersOf(m, live, x, a);
      OwnersOf(m, live, c, b);
      if Leads(m, r, live, a, b) {
        LeadsUnder(m, r, live, a, b);
        UnderRank(m, r, c, x);
      }
    }
    LeadersConcat(m, r, live, kids, own);
  }

  lemma OwnersOf(m: Contexts, live: Heap, x: Ptr, b: Ptr)
    requires HeapOk(m, live) && x in m && b in OwnBlocks(m[x], x)
    ensures b in live && live[b].owner == x
  {
    assert Owns(m[x], x, live);
    OwnIsLive(m[x], x, live, b);
  }

  lemma {:induction false} KidsInReach(m: Contexts, r: Rank, live: Heap, c: Ptr, n: nat)
    requires Tree(m, r) && HeapOk(m, live) && c in m && n <= |Kids(m[c])| && TOP !in live
    ensures LeadersLast(m, r, live, KidsOrder(m, r, c, n))
    decreases r[c], n
  {
    hide Under, FreeOrder, Leads, LeadersLast, HeapOk;
    if n == 0 {
      NoLeaders(m, r, live);
    } else {
      KidsInReach(m, r, live, c, n - 1);
      var head, k := KidsOrder(m, r, c, n - 1), Kids(m[c])[n - 1];
      if k == NULL {
        assert KidsOrder(m, r, c, n) == head;
      } else {
        KidUnder(m, r, c, n - 1);
        ReleasedInReach(m, r, live, k);
        forall a, b | a in head && b in FreeOrder(m, r, k) ensures !Leads(m, r, live, a, b) {
          KidsDoNotLead(m, r, live, c, n - 1, a, b);
        }
        LeadersConcat(m, r, live, head, FreeOrder(m, r, k));
      }
    }
  }

  lemma NoLeaders(m: Contexts, r: Rank, live: Heap)
    requires Tree(m, r)
    ensures LeadersLast(m, r, live, [])
  {
  }

  lemma KidsDoNotLead(m: Contexts, r: Rank, live: Heap, c: Ptr, n: nat, a: Ptr, b: Ptr)
    requires Tree(m, r) && HeapOk(m, live) && c in m && n < |Kids(m[c])| && Kids(m[c])[n] in m && Kids(m[c])[n] != NULL
    requires a in KidsOrder(m, r, c, n) && b in FreeOrder(m, r, Kids(m[c])[n])
    ensures !Leads(m, r, live, a, b)
  {
    hide Under, FreeOrder, Leads, KidsOrder, HeapOk;
    var j, x := KidsOrderOwner(m, r, c, n, a);
    var y := FreeOrderOwner(m, r, Kids(m[c])[n], b);
    OwnersOf(m, live, x, a);
    OwnersOf(m, live, y, b);
    if Leads(m, r, live, a, b) {
      LeadsUnder(m, r, live, a, b);
      UnderTrans(m, r, y, x, Kids(m[c])[j]);
      KidsApart(m, r, y, c, j, n);
    }
  }

  lemma OwnInReach(m: Contexts, r: Rank, live: Heap, c: Ptr)
    requires Tree(m, r) && HeapOk(m, live) && c in m && TOP !in live
    ensures LeadersLast(m, r, live, OwnBlocks(m[c], c))
  {
    var s := OwnBlocks(m[c], c);
    assert Owns(m[c], c, live);
    forall i, j | 0 <= i < j < |s| ensures !Leads(m, r, live, s[i], s[j]) {
      OwnersOf(m, live, c, s[i]);
      OwnersOf(m, live, c, s[j]);
      OwnKinds(m[c], c, live, i, j);
    }
  }

  /** Of a context's own blocks the header is the last, and no allocation stands behind the allocation list. */
  lemma OwnKinds(c: MemContext, p: Ptr, live: Heap, i: nat, j: nat)
    requires Owns(c, p, live) && i < j < |OwnBlocks(c, p)| && TOP !in live
    ensures var s := OwnBlocks(c, p);
      && s[i] in live && s[j] in live && !live[s[i]].HeaderBlock?
      && (live[s[i]].AllocListBlock? ==> !live[s[j]].AllocBlock?)
  {
    var s, head, allocs := OwnBlocks(c, p), ListPart(c.childQty, c.child, c.childList), NonNull(c.alloc.slots);
    OwnIsLive(c, p, live, s[i]);
    OwnIsLive(c, p, live, s[j]);
    if |head| <= i < |head| + |allocs| {
      assert s[i] == allocs[i - |head|];
      AllocIsBlock(c, p, live, s[i]);
    }
  }

  lemma AllocIsBlock(c: MemContext, p: Ptr, live: Heap, b: Ptr)
    requires Owns(c, p, live) && b in NonNull(c.alloc.slots)
    ensures b in live && live[b].AllocBlock?
  {
    var i :| 0 <= i < |c.alloc.slots| && c.alloc.slots[i] == b;
    assert AllocAt(c, p, live, i);
  }

  lemma SameOwner(m: Contexts, live: Heap, x: Ptr, y: Ptr, b: Ptr)
    requires HeapOk(m, live) && x in m && y in m && b in OwnBlocks(m[x], x) && b in OwnBlocks(m[y], y)
    ensures x == y
  {
    assert Owns(m[x], x, live) && Owns(m[y], y, live);
    OwnIsLive(m[x], x, live, b);
    OwnIsLive(m[y], y, live, b);
  }

  // ---------------------------------------------------------------------------------------------
  // Bytes

  /** Bytes of the blocks in a list. */
  ghost function Bytes(live: Heap, s: seq<Ptr>): nat
    requires forall b :: b in s ==> b in live
  {
    if s == [] then 0 else Bytes(live, s[..|s| - 1]) + live[s[|s| - 1]].bytes
  }

  lemma {:induction false} BytesConcat(live: Heap, s: seq<Ptr>, t: seq<Ptr>)
    requires forall b :: b in s + t ==> b in live
    ensures (forall b :: b in s ==> b in s + t) && (forall b :: b in t ==> b in s + t)
    ensures Bytes(live, s + t) == Bytes(live, s) + Bytes(live, t)
  {
    assert (forall b :: b in s ==> b in s + t) && (forall b :: b in t ==> b in s + t);
    if t == [] {
      assert s + t == s;
    } else {
      assert (s + t)[..|s + t| - 1] == s + t[..|t| - 1];
      BytesConcat(live, s, t[..|t| - 1]);
    }
  }

  /** The bytes of a block as the program has them recorded: 32 bits for an allocation, 16 for the extra bytes of a
      context. */
  function RecordedBytes(b: Block): nat {
    match b
    case AllocBlock(_, _, _, size) => size
    case HeaderBlock(_, bytes, extra) => if extra <= bytes then bytes - extra + extra % UINT16 else bytes
    case _ => b.bytes
  }

  ghost function Recorded(live: Heap): Heap {
    map b | b in live :: live[b].(bytes := RecordedBytes(live[b]))
  }

  /** The block is not larger than its record can say. */
  predicate FitsRecord(b: Block) {
    (b.AllocBlock? ==> b.bytes < UINT32) && (b.HeaderBlock? ==> b.extra < UINT16)
  }

  /** What is recorded of some blocks is never more than their bytes, and all of them if and only if every block
      fits. */
  lemma {:induction false} RecordedExactIff(live: Heap, s: seq<Ptr>)
    requires forall b :: b in s ==> b in live
    requires forall b :: b in s && live[b].AllocBlock? ==> live[b].size == live[b].bytes % UINT32
    requires forall b :: b in s && live[b].HeaderBlock? ==> live[b].extra <= live[b].bytes
    ensures Bytes(Recorded(live), s) <= Bytes(live, s)
    ensures Bytes(Recorded(live), s) == Bytes(live, s) <==> forall b :: b in s ==> FitsRecord(live[b])
  {
    if s != [] {
      RecordedExactIff(live, s[..|s| - 1]);
      assert forall b :: b in s <==> b in s[..|s| - 1] || b == s[|s| - 1];
    }
  }

  /** One more slot of an allocation list, counted. */
  lemma SlotBytes(c: MemContext, p: Ptr, live: Heap, i: nat)
    requires Owns(c, p, live) && i < |c.alloc.slots| && forall b :: b in NonNull(c.alloc.slots[..i]) ==> b in live
    ensures forall b :: b in NonNull(c.alloc.slots[..i + 1]) ==> b in live
    ensures c.alloc.slots[i] == NULL ==>
      Bytes(Recorded(live), NonNull(c.alloc.slots[..i + 1])) == Bytes(Recorded(live), NonNull(c.alloc.slots[..i]))
    ensures c.alloc.slots[i] != NULL ==>
      var b := c.alloc.slots[i];
      && b in live && live[b].AllocBlock?
      && Bytes(Recorded(live), NonNull(c.alloc.slots[..i + 1]))
         == Bytes(Recorded(live), NonNull(c.alloc.slots[..i])) + live[b].size
  {
    hide RecordedBytes, Recorded, ListPart, HeaderAt, NonNull, Bytes;
    var b, some := c.alloc.slots[i], NonNull(c.alloc.slots[..i]);
    NextSlot(c.alloc.slots, i);
    if b != NULL {
      assert AllocAt(c, p, live, i);
      BlockSize(live, b);
      SameKeys(live);
      BytesConcat(Recorded(live), some, [b]);
      BytesOne(Recorded(live), b);
    } else {
      assert some + [] == some;
    }
  }

  lemma SameKeys(live: Heap)
    ensures Recorded(live).Keys == live.Keys
  {
  }

  lemma BlockSize(live: Heap, b: Ptr)
    requires b in live && live[b].AllocBlock?
    ensures b in Recorded(live) && Recorded(live)[b].bytes == live[b].size
  {
  }

  lemma NoSlots(live: Heap, slots: seq<Ptr>)
    ensures NonNull(slots[..0]) == [] && Bytes(live, []) == 0
  {
  }

  function ListBytes(qty: Qty, l: SlotList): nat {
    if qty.Many? && l.slots != [] then WORD * |l.slots| else 0
  }

  /** The bytes of one context's own blocks, part by part, as they are and as they are recorded. */
  lemma OwnBytes(c: MemContext, p: Ptr, live: Heap, h: Heap)
    requires Owns(c, p, live) && h in {live, Recorded(live)}
    ensures (forall b :: b in OwnBlocks(c, p) ==> b in h) && (forall b :: b in NonNull(c.alloc.slots) ==> b in h)
    ensures p != TOP ==> p in h && Recorded(live)[p].bytes == HeaderBytes(c)
    ensures Bytes(h, OwnBlocks(c, p)) == ListBytes(c.childQty, c.child) + Bytes(h, NonNull(c.alloc.slots))
      + ListBytes(c.allocQty, c.alloc) + (if p == TOP then 0 else h[p].bytes)
  {
    var head, allocs := ListPart(c.childQty, c.child, c.childList), NonNull(c.alloc.slots);
    var list, self := ListPart(c.allocQty, c.alloc, c.allocList), if p == TOP then [] else [p];
    assert OwnBlocks(c, p) == head + allocs + list + self;
    forall b | b in OwnBlocks(c, p) ensures b in h { OwnIsLive(c, p, live, b); }
    hide OwnBlocks, NonNull;
    BytesConcat(h, head, allocs);
    BytesConcat(h, head + allocs, list);
    BytesConcat(h, head + allocs + list, self);
    PartBytes(c, p, live, h, head, list, self);
  }

  lemma PartBytes(c: MemContext, p: Ptr, live: Heap, h: Heap, head: seq<Ptr>, list: seq<Ptr>, self: seq<Ptr>)
    requires Owns(c, p, live) && h in {live, Recorded(live)} && head == ListPart(c.childQty, c.child, c.childList)
    requires list == ListPart(c.allocQty, c.alloc, c.allocList) && self == if p == TOP then [] else [p]
    ensures (forall b :: b in head + list + self ==> b in h)
    ensures Bytes(h, head) == ListBytes(c.childQty, c.child) && Bytes(h, list) == ListBytes(c.allocQty, c.alloc)
    ensures Bytes(h, self) == if p == TOP then 0 else h[p].bytes
    ensures p != TOP ==> Recorded(live)[p].bytes == HeaderBytes(c)
  {
    hide NonNull;
    if head != [] { BytesOne(h, c.childList); }
    if list != [] { BytesOne(h, c.allocList); }
    if self != [] { BytesOne(h, p); }
  }

  lemma BytesOne(live: Heap, b: Ptr)
    requires b in live
    ensures Bytes(live, [b]) == live[b].bytes
  {
    assert [b][..0] == [];
  }

  /** All bytes the program holds. */
  ghost function TotalBytes(live: Heap): nat {
    if live == map[] then 0 else var b :| b in live; live[b].bytes + TotalBytes(live - {b})
  }

  lemma {:induction false} TotalRemove(live: Heap, b: Ptr)
    requires b in live
    ensures TotalBytes(live) == live[b].bytes + TotalBytes(live - {b})
    decreases |live|
  {
    var p :| p in live && TotalBytes(live) == live[p].bytes + TotalBytes(live - {p});
    if p != b {
      TotalRemove(live - {p}, b);
      TotalRemove(live - {b}, p);
      assert live - {p} - {b} == live - {b} - {p};
    }
  }

  lemma {:induction false} TotalRemoveAll(live: Heap, s: seq<Ptr>)
    requires NoDup(s) && forall b :: b in s ==> b in live
    ensures TotalBytes(live) == Bytes(live, s) + TotalBytes(live - (set b | b in s))
  {
    if s == [] {
      assert live - (set b | b in s) == live;
    } else {
      var t, b := s[..|s| - 1], s[|s| - 1];
      assert s == t + [b];
      TotalRemoveAll(live, t);
      var rest := live - (set x | x in t);
      TotalRemove(rest, b);
      assert rest - {b} == live - (set x | x in s);
    }
  }

  // ---------------------------------------------------------------------------------------------
  // Callbacks

  /** The contexts of a subtree that have a callback, parents first. */
  ghost function CallOrder(m: Contexts, r: Rank, c: Ptr): seq<Ptr>
    requires Tree(m, r) && c in m
    decreases r[c], |Kids(m[c])| + 1
  {
    OwnCall(m, c) + KidsCalls(m, r, c, |Kids(m[c])|)
  }

  ghost function OwnCall(m: Contexts, c: Ptr): seq<Ptr>
    requires c in m
  {
    if m[c].callback.NoCallback? then [] else [c]
  }

  ghost function KidsCalls(m: Contexts, r: Rank, c: Ptr, n: nat): seq<Ptr>
    requires Tree(m, r) && c in m && n <= |Kids(m[c])|
    decreases r[c], n
  {
    if n == 0 then []
    else
      KidsCalls(m, r, c, n - 1) +
      if Kids(m[c])[n - 1] == NULL then []
      else
        KidUnder(m, r, c, n - 1);
        CallOrder(m, r, Kids(m[c])[n - 1])
  }

  ghost predicate Throws(m: Contexts, c: Ptr) {
    c in m && m[c].callback.Callback? && m[c].callback.throws
  }

  /** A list of callbacks is run up to and including the first one that throws. */
  ghost function RunCalls(m: Contexts, s: seq<Ptr>): (t: seq<Ptr>)
    ensures t <= s
    ensures (exists c :: c in s && Throws(m, c)) || t == s
  {
    if s == [] then []
    else if Throws(m, s[0]) then [s[0]]
    else [s[0]] + RunCalls(m, s[1..])
  }

  lemma {:induction false} RunCallsConcat(m: Contexts, s: seq<Ptr>, t: seq<Ptr>)
    requires forall c :: c in s ==> !Throws(m, c)
    ensures RunCalls(m, s + t) == s + RunCalls(m, t)
  {
    if s == [] {
      assert s + t == t;
    } else {
      assert (s + t)[1..] == s[1..] + t;
      RunCallsConcat(m, s[1..], t);
    }
  }

  lemma {:induction false} RunCallsCut(m: Contexts, s: seq<Ptr>, t: seq<Ptr>)
    requires exists c :: c in s && Throws(m, c)
    ensures RunCalls(m, s + t) == RunCalls(m, s)
  {
    if !Throws(m, s[0]) {
      assert (s + t)[1..] == s[1..] + t;
      RunCallsCut(m, s[1..], t);
    }
  }

  lemma {:induction false} CallOrderFrame(m: Contexts, m': Contexts, r: Rank, c: Ptr)
    requires Tree(m, r) && Tree(m', r) && c in m
    requires forall x {:trigger Under(m, r, x, c)} :: x in m && Under(m, r, x, c) ==> x in m' && m'[x] == m[x]
    ensures c in m' && CallOrder(m', r, c) == CallOrder(m, r, c)
    decreases r[c], |Kids(m[c])| + 1
  {
    assert Under(m, r, c, c);
    assert m'[c] == m[c];
    KidsCallsFrame(m, m', r, c, |Kids(m[c])|);
  }

  lemma {:induction false} KidsCallsFrame(m: Contexts, m': Contexts, r: Rank, c: Ptr, n: nat)
    requires Tree(m, r) && Tree(m', r) && c in m && c in m' && n <= |Kids(m[c])| && Kids(m[c]) == Kids(m'[c])
    requires forall x {:trigger Under(m, r, x, c)} :: x in m && Under(m, r, x, c) ==> x in m' && m'[x] == m[x]
    ensures KidsCalls(m', r, c, n) == KidsCalls(m, r, c, n)
    decreases r[c], n
  {
    hide Under, CallOrder;
    if n > 0 {
      KidsCallsFrame(m, m', r, c, n - 1);
      var k := Kids(m[c])[n - 1];
      if k != NULL {
        KidUnder(m, r, c, n - 1);
        forall x | x in m && Under(m, r, x, k) ensures x in m' && m'[x] == m[x] {
          UnderTrans(m, r, x, k, c);
        }
        CallOrderFrame(m, m', r, k);
      }
    }
  }

  /** Every context listed has a callback and is in the subtree. */
  lemma {:induction false} CallOrderUnder(m: Contexts, r: Rank, c: Ptr, x: Ptr)
    requires Tree(m, r) && c in m && x in CallOrder(m, r, c)
    ensures x in m && Under(m, r, x, c) && m[x].callback.Callback?
    decreases r[c], |Kids(m[c])| + 1
  {
    hide KidsCalls;
    if x !in OwnCall(m, c) {
      var j := KidsCallsUnder(m, r, c, |Kids(m[c])|, x);
      KidUnder(m, r, c, j);
      UnderTrans(m, r, x, Kids(m[c])[j], c);
    }
  }

  lemma {:induction false} KidsCallsUnder(m: Contexts, r: Rank, c: Ptr, n: nat, x: Ptr) returns (j: nat)
    requires Tree(m, r) && c in m && n <= |Kids(m[c])| && x in KidsCalls(m, r, c, n)
    ensures j < n && x in m && KidCovers(m, r, c, j, x) && m[x].callback.Callback?
    decreases r[c], n
  {
    hide Under, CallOrder;
    if x in KidsCalls(m, r, c, n - 1) {
      j := KidsCallsUnder(m, r, c, n - 1, x);
    } else {
      KidUnder(m, r, c, n - 1);
      j := n - 1;
      CallOrderUnder(m, r, Kids(m[c])[n - 1], x);
    }
  }

  /** Every context of the subtree that has a callback is listed. */
  lemma {:induction false} CallOrderCovers(m: Contexts, r: Rank, c: Ptr, x: Ptr)
    requires Tree(m, r) && c in m && x in m && Under(m, r, x, c) && m[x].callback.Callback?
    ensures x in CallOrder(m, r, c)
    decreases r[c], |Kids(m[c])| + 1
  {
    if x != c {
      var j := UnderSomeKid(m, r, x, c);
      KidsCallsCovers(m, r, c, |Kids(m[c])|, j, x);
    }
  }

  lemma {:induction false} KidsCallsCovers(m: Contexts, r: Rank, c: Ptr, n: nat, j: nat, x: Ptr)
    requires Tree(m, r) && c in m && j < n <= |Kids(m[c])| && x in m && KidCovers(m, r, c, j, x)
      && m[x].callback.Callback?
    ensures x in KidsCalls(m, r, c, n)
    decreases r[c], n
  {
    hide Under, CallOrder;
    if j == n - 1 {
      KidUnder(m, r, c, j);
      CallOrderCovers(m, r, Kids(m[c])[j], x);
    } else {
      KidsCallsCovers(m, r, c, n - 1, j, x);
    }
  }

  /** Each callback of the subtree is listed exactly once, and no callback is listed before one above it. */
  lemma CallOrderExact(m: Contexts, r: Rank, c: Ptr)
    requires Tree(m, r) && c in m
    ensures NoDup(CallOrder(m, r, c))
    ensures forall x :: x in CallOrder(m, r, c) <==> x in m && Under(m, r, x, c) && m[x].callback.Callback?
    ensures ParentsFirst(m, r, CallOrder(m, r, c))
  {
    hide CallOrder, KidsCalls;
    CallOrderOrdered(m, r, c);
    forall x ensures x in CallOrder(m, r, c) <==> x in m && Under(m, r, x, c) && m[x].callback.Callback? {
      if x in CallOrder(m, r, c) { CallOrderUnder(m, r, c, x); }
      if x in m && Under(m, r, x, c) && m[x].callback.Callback? { CallOrderCovers(m, r, c, x); }
    }
  }

  lemma {:induction false} CallOrderOrdered(m: Contexts, r: Rank, c: Ptr)
    requires Tree(m, r) && c in m
    ensures NoDup(CallOrder(m, r, c)) && ParentsFirst(m, r, CallOrder(m, r, c))
    decreases r[c], |Kids(m[c])| + 1
  {
    hide KidsCalls;
    var own, kids := OwnCall(m, c), KidsCalls(m, r, c, |Kids(m[c])|);
    KidsCallsOrdered(m, r, c, |Kids(m[c])|);
    forall x, y | x in own && y in kids ensures x in m && y in m && x != y && !Above(m, r, x, y) {
      var j := KidsCallsUnder(m, r, c, |Kids(m[c])|, y);
      KidUnder(m, r, c, j);
      UnderRank(m, r, y, Kids(m[c])[j]);
      if Above(m, r, c, y) { UnderRank(m, r, c, y); }
    }
    NoDupConcat(own, kids);
    ParentsFirstConcat(m, r, own, kids);
  }

  ghost predicate Above(m: Contexts, r: Rank, x: Ptr, a: Ptr)
    requires Tree(m, r) && x in m
  {
    a in m && x != a && Under(m, r, x, a)
  }

  /** No entry of the list is a proper descendant of a later one. */
  ghost predicate ParentsFirst(m: Contexts, r: Rank, s: seq<Ptr>)
    requires Tree(m, r)
  {
    forall i, j :: 0 <= i < j < |s| && s[j] in m && s[i] in m ==> !Above(m, r, s[i], s[j])
  }

  lemma {:induction false} KidsCallsOrdered(m: Contexts, r: Rank, c: Ptr, n: nat)
    requires Tree(m, r) && c in m && n <= |Kids(m[c])|
    ensures NoDup(KidsCalls(m, r, c, n)) && ParentsFirst(m, r, KidsCalls(m, r, c, n))
    decreases r[c], n
  {
    hide Under, CallOrder;
    if n > 0 {
      var head, k := KidsCalls(m, r, c, n - 1), Kids(m[c])[n - 1];
      KidsCallsOrdered(m, r, c, n - 1);
      if k == NULL {
        assert KidsCalls(m, r, c, n) == head;
      } else {
        KidUnder(m, r, c, n - 1);
        CallOrderOrdered(m, r, k);
        var last := CallOrder(m, r, k);
        forall x, y | x in head && y in last ensures x in m && y in m && x != y && !Above(m, r, x, y) {
          var j := KidsCallsUnder(m, r, c, n - 1, x);
          CallOrderUnder(m, r, k, y);
          CallsApart(m, r, c, j, n - 1, x, y);
        }
        NoDupConcat(head, last);
        ParentsFirstConcat(m, r, head, last);
      }
    }
  }

  lemma CallsApart(m: Contexts, r: Rank, c: Ptr, i: nat, j: nat, x: Ptr, y: Ptr)
    requires Tree(m, r) && c in m && i < j < |Kids(m[c])| && x in m && y in m
    requires KidCovers(m, r, c, i, x) && KidCovers(m, r, c, j, y)
    ensures x != y && !Above(m, r, x, y)
  {
    if x == y || Above(m, r, x, y) {
      UnderTrans(m, r, x, y, Kids(m[c])[j]);
      KidsApart(m, r, x, c, i, j);
    }
  }

  lemma ParentsFirstConcat(m: Contexts, r: Rank, s: seq<Ptr>, t: seq<Ptr>)
    requires Tree(m, r) && ParentsFirst(m, r, s) && ParentsFirst(m, r, t)
    requires forall x, y :: x in s && y in t ==> x in m && y in m && !Above(m, r, x, y)
    ensures ParentsFirst(m, r, s + t)
  {
    forall i, j | 0 <= i < j < |s + t| && (s + t)[j] in m && (s + t)[i] in m
      ensures !Above(m, r, (s + t)[i], (s + t)[j])
    {
      if i < |s| <= j { assert (s + t)[i] in s && (s + t)[j] in t; }
    }
  }
}
