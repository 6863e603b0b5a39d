/** The memory context manager: context headers, heap and context stack, changed in place by the operations of
    src/common/memContext.c. Addresses returned by malloc and realloc are parameters of the operations. */
module MemContexts {
  import opened Slots
  import opened MemTree
  import opened MemTeardown
  import opened MemHeap
  import MemStack

  class Manager {
    var ctx: Contexts
    var live: Heap
    const stack: array<MemStack.Entry>
    var currentIdx: nat
    var maxIdx: nat

    /** Witness that the contexts form a tree. */
    ghost var rank: Rank
    /** Callbacks run and blocks released so far. */
    ghost var events: seq<Event>

    /** The contexts form a tree and own every live block. */
    ghost predicate Sound()
      reads this
    {
      Tree(ctx, rank) && HeapOk(ctx, live) && NULL !in live && TOP !in live && Plain(ctx[TOP])
    }

    ghost predicate Valid()
      reads this, stack
    {
      && Sound()
      && stack.Length == MemStack.STACK_MAX && maxIdx < stack.Length
      && MemStack.Valid(State())
    }

    ghost function State(): MemStack.State
      reads this, stack
      requires maxIdx < stack.Length
    {
      MemStack.State(ctx, rank, stack[..maxIdx + 1], currentIdx)
    }

    constructor ()
      ensures Valid() && fresh(stack)
      ensures ctx[TOP].childQty.Many? && ctx[TOP].allocQty.Many? && ctx[TOP].child.slots == []
        && ctx[TOP].alloc.slots == []
      ensures ctx[TOP].active && !ctx[TOP].hasCallback && ctx[TOP].callback == NoCallback && stack.Length == 128
      ensures ctx == map[TOP := TOP_RECORD] && live == map[] && events == [] && maxIdx == 0 && currentIdx == 0
    {
      ctx := map[TOP := TOP_RECORD];
      live := map[];
      rank := map[TOP := 0];
      events := [];
      var s := new MemStack.Entry[MemStack.STACK_MAX](_ => MemStack.Entry(TOP, false, 0));
      stack := s;
      currentIdx, maxIdx := 0, 0;
      new;
      assert Owns(ctx[TOP], TOP, live);
      assert stack[..1] == [MemStack.Entry(TOP, false, 0)];
    }

    // -------------------------------------------------------------------------------------------
    // Teardown

    /** free(): the block must be live, so nothing can be released twice. */
    method Release(b: Ptr)
      requires b in live
      modifies this`live, this`events
      ensures live == old(live) - {b}
      ensures events == old(events) + [Released(b)]
    {
      live := live - {b};
      events := events + [Released(b)];
    }

    /** `done`, a prefix of the blocks `own`, has been released from `live0`. */
    ghost predicate ReleasedUpTo(own: seq<Ptr>, done: seq<Ptr>, live0: Heap, events0: seq<Event>)
      reads this
    {
      && done <= own
      && live == live0 - (set b | b in done)
      && events == events0 + Releases(done)
    }

    method ReleaseNext(b: Ptr, ghost own: seq<Ptr>, ghost done: seq<Ptr>, ghost live0: Heap, ghost events0: seq<Event>)
      requires NoDup(own) && done + [b] <= own && ReleasedUpTo(own, done, live0, events0)
      requires forall x :: x in own ==> x in live0
      modifies this`live, this`events
      ensures ReleasedUpTo(own, done + [b], live0, events0)
    {
      assert own[|done|] == b;
      assert b !in done;
      Release(b);
      assert (set x | x in done) + {b} == set x | x in done + [b];
      assert Releases(done + [b]) == Releases(done) + [Released(b)];
    }

    /** Release the allocations of one context. */
    method ReleaseAllocs(c: Ptr, ghost own: seq<Ptr>, ghost part: seq<Ptr>, ghost live0: Heap,
      ghost events0: seq<Event>)
      requires c in ctx && own == OwnBlocks(ctx[c], c)
        && part == ListPart(ctx[c].childQty, ctx[c].child, ctx[c].childList)
      requires NoDup(own) && ReleasedUpTo(own, part, live0, events0) && forall x :: x in own ==> x in live0
      modifies this`live, this`events
      ensures ReleasedUpTo(own, part + NonNull(ctx[c].alloc.slots), live0, events0)
    {
      hide OwnBlocks, ReleasedUpTo, ListPart, NonNull;
      NoSlots(live, ctx[c].alloc.slots);
      var slots := ctx[c].alloc.slots;
      assert part + NonNull(slots[..0]) == part;
      var i := 0;
      while i < |slots|
        invariant 0 <= i <= |slots|
        invariant ReleasedUpTo(own, part + NonNull(slots[..i]), live0, events0)
      {
        NextSlot(slots, i);
        if slots[i] != NULL {
          AllocNext(ctx[c], c, i);
          ReleaseNext(slots[i], own, part + NonNull(slots[..i]), live0, events0);
        } else {
          assert NonNull(slots[..i]) + [] == NonNull(slots[..i]);
        }
        i := i + 1;
      }
      assert slots[..i] == slots;
    }

    /** Release the list, the allocations and the header of one context whose children are gone. */
    method ReleaseOwn(c: Ptr)
      requires c in ctx && Owns(ctx[c], c, live) && Shaped(ctx[c])
      modifies this`live, this`events
      ensures live == old(live) - (set b | b in OwnBlocks(ctx[c], c))
      ensures events == old(events) + Releases(OwnBlocks(ctx[c], c))
    {
      hide NonNull;
      var rec := ctx[c];
      ghost var own, live0, events0 := OwnBlocks(rec, c), live, events;
      forall b | b in own ensures b in live { OwnIsLive(rec, c, live, b); }
      OwnDistinct(rec, c, live);
      ghost var done: seq<Ptr> := [];
      if rec.childQty.Many? && rec.child.slots != [] {
        ReleaseNext(rec.childList, own, done, live0, events0);
        done := done + [rec.childList];
      }
      ReleaseAllocs(c, own, done, live0, events0);
      done := done + NonNull(rec.alloc.slots);
      if rec.allocQty.Many? && rec.alloc.slots != [] {
        ReleaseNext(rec.allocList, own, done, live0, events0);
        done := done + [rec.allocList];
      }
      if c != TOP {
        ReleaseNext(c, own, done, live0, events0);
        done := done + [c];
      }
      assert done == own;
    }

    /** The first `n` children of `c` have been freed since the contexts, heap and events were as given. */
    ghost predicate KidsFreed(m0: Contexts, live0: Heap, events0: seq<Event>, c: Ptr, n: nat)
      reads this
    {
      && Tree(m0, rank) && HeapOk(m0, live0) && c in m0 && n <= |Kids(m0[c])|
      && Sound() && MidFree(m0, rank, ctx, c, n)
      && live == WithoutKids(live0, m0, rank, c, n)
      && events == events0 + Releases(KidsOrder(m0, rank, c, n))
    }

    lemma KidsFreedStart(c: Ptr)
      requires Sound() && c in ctx
      ensures KidsFreed(ctx, live, events, c, 0)
    {
      MidFreeStart(ctx, rank, c);
      assert live == WithoutKids(live, ctx, rank, c, 0);
    }

    method FreeKidAt(c: Ptr, i: nat, ghost m0: Contexts, ghost live0: Heap, ghost events0: seq<Event>)
      requires KidsFreed(m0, live0, events0, c, i) && i < |Kids(m0[c])|
      modifies this`ctx, this`live, this`events
      decreases rank[c], 0
      ensures KidsFreed(m0, live0, events0, c, i + 1)
    {
      hide Under, FreeOrder;
      if Kids(ctx[c])[i] == NULL {
        MidFreeSkip(m0, rank, ctx, c, i);
        MidHeapSkip(m0, rank, live0, c, i);
      } else {
        MidFreeChild(m0, rank, ctx, c, i);
        MidFreeStep(m0, rank, ctx, c, i);
        MidHeapStep(m0, rank, live0, ctx, live, c, i);
        ReleasesAppend(events0, KidsOrder(m0, rank, c, i), FreeOrder(m0, rank, Kids(ctx[c])[i]));
        FreeRecurse(Kids(ctx[c])[i]);
      }
    }

    /** Free the children of a context one slot after the other. Each child empties its own slot in the list
        being walked. */
    method FreeKids(c: Ptr)
      requires Sound() && c in ctx
      modifies this`ctx, this`live, this`events
      decreases rank[c], 1
      ensures KidsFreed(old(ctx), old(live), old(events), c, |Kids(old(ctx)[c])|)
    {
      hide Under, FreeOrder, KidsOrder, Linked;
      ghost var m0, live0, events0 := ctx, live, events;
      var n := |Kids(ctx[c])|;
      var i := 0;
      KidsFreedStart(c);
      while i < n
        invariant 0 <= i <= n && KidsFreed(m0, live0, events0, c, i)
      {
        FreeKidAt(c, i, m0, live0, events0);
        i := i + 1;
      }
    }

    /** memContextFreeRecurse: the blocks of the subtree are released in exactly the order FreeOrder gives, and
        the contexts and blocks outside the subtree are as before, but for the emptied slot in the parent. */
    method FreeRecurse(c: Ptr)
      requires Sound() && c in ctx
      modifies this`ctx, this`live, this`events
      decreases rank[c], 2
      ensures Sound() && ctx == Freed(old(ctx), rank, c)
      ensures live == Without(old(live), old(ctx), rank, c)
      ensures events == old(events) + Releases(FreeOrder(old(ctx), rank, c))
    {
      hide Under, KidsOrder;
      ghost var m0, live0, events0 := ctx, live, events;
      FreeKids(c);
      FreeSelf(c, m0, live0);
      ReleasesAppend(events0, KidsOrder(m0, rank, c, |Kids(m0[c])|), OwnBlocks(m0[c], c));
      FreeKeepsTree(m0, rank, c);
      FreedHeap(m0, rank, live0, c);
    }

    /** Release a context whose children are gone and take it out of its parent; the top context is reset. */
    method FreeSelf(c: Ptr, ghost m0: Contexts, ghost live0: Heap)
      requires Tree(m0, rank) && HeapOk(m0, live0) && c in m0 && Sound()
      requires MidFree(m0, rank, ctx, c, |Kids(m0[c])|) && live == WithoutKids(live0, m0, rank, c, |Kids(m0[c])|)
      modifies this`ctx, this`live, this`events
      ensures ctx == Freed(m0, rank, c) && live == Without(live0, m0, rank, c)
      ensures events == old(events) + Releases(OwnBlocks(m0[c], c))
    {
      hide Under, FreeOrder, KidsOrder, InKids, KidCovers, NonNull;
      MidFreeDone(m0, rank, ctx, live0, c);
      assert Owns(ctx[c], c, live) && Shaped(ctx[c]);
      assert |Kids(ctx[c])| == |Kids(m0[c])|;
      assert OwnBlocks(ctx[c], c) == OwnBlocks(m0[c], c);
      ReleaseOwn(c);
      if c == TOP {
        ctx := map[TOP := Emptied(ctx[TOP])];
      } else {
        var p := ctx[c].parent;
        var slot := if ctx[p].childQty.Many? then ctx[c].parentIdx else 0;
        assert ctx[p] == m0[p] && slot == Home(m0, c);
        ctx := (ctx - {c})[p := FreeKid(ctx[p], slot)];
      }
    }

    /** The callbacks of `c` and of its first `n` children have run since the contexts and events were as given. */
    ghost predicate KidsCalled(m0: Contexts, events0: seq<Event>, c: Ptr, n: nat)
      reads this
    {
      && Tree(m0, rank) && c in m0 && n <= |Kids(m0[c])|
      && Tree(ctx, rank) && MidCalls(m0, rank, ctx, c, n)
      && events == events0 + Calls(OwnCall(m0, c) + KidsCalls(m0, rank, c, n))
    }

    /** A callback threw and ended the pass over `c`. */
    ghost predicate CutOff(m0: Contexts, events0: seq<Event>, c: Ptr)
      reads this
    {
      && Tree(m0, rank) && c in m0
      && Tree(ctx, rank) && Touched(m0, rank, ctx, c)
      && (exists x :: x in CallOrder(m0, rank, c) && Throws(m0, x))
      && events == events0 + Calls(RunCalls(m0, CallOrder(m0, rank, c)))
    }

    /** Mark the context inactive and run its callback. The callback is cleared only when it returns. */
    method CallOwn(c: Ptr) returns (threw: bool)
      requires Tree(ctx, rank) && c in ctx
      modifies this`ctx, this`events
      ensures Tree(ctx, rank) && Touched(old(ctx), rank, ctx, c)
      ensures threw == Throws(old(ctx), c)
      ensures events == old(events) + Calls(OwnCall(old(ctx), c))
      ensures !threw ==> KidsCalled(old(ctx), old(events), c, 0)
    {
      hide CallOrder, Under, KidsCalls;
      ghost var m0 := ctx;
      threw := false;
      ctx := ctx[c := ctx[c].(active := false)];
      if ctx[c].callback.Callback? {
        events := events + [Called(c)];
        if ctx[c].callback.throws {
          threw := true;
        } else {
          ctx := ctx[c := ctx[c].(callback := NoCallback)];
        }
      }
      assert ctx == m0[c := ctx[c]];
      OwnCalled(m0, rank, c, ctx[c]);
    }

    /** memContextCallbackRecurse: callbacks run parents first, up to and including the first one that throws. */
    method CallbackRecurse(c: Ptr) returns (threw: bool)
      requires Tree(ctx, rank) && c in ctx
      modifies this`ctx, this`events
      decreases rank[c], 2
      ensures Tree(ctx, rank) && Touched(old(ctx), rank, ctx, c)
      ensures threw <==> exists x :: x in CallOrder(old(ctx), rank, c) && Throws(old(ctx), x)
      ensures events == old(events) + Calls(RunCalls(old(ctx), CallOrder(old(ctx), rank, c)))
      ensures !threw ==> forall x {:trigger ctx[x]} :: x in ctx && Under(old(ctx), rank, x, c) ==> Marked(ctx[x])
    {
      ghost var m0, events0 := ctx, events;
      threw := CallOwn(c);
      if threw {
        CallsCutOwn(m0, rank, c);
        return;
      }
      threw := CallKids(c, m0, events0);
    }

    method CallKids(c: Ptr, ghost m0: Contexts, ghost events0: seq<Event>) returns (threw: bool)
      requires KidsCalled(m0, events0, c, 0)
      modifies this`ctx, this`events
      decreases rank[c], 1
      ensures Tree(ctx, rank) && Touched(m0, rank, ctx, c)
      ensures threw <==> exists x :: x in CallOrder(m0, rank, c) && Throws(m0, x)
      ensures events == events0 + Calls(RunCalls(m0, CallOrder(m0, rank, c)))
      ensures !threw ==> forall x {:trigger ctx[x]} :: x in ctx && Under(m0, rank, x, c) ==> Marked(ctx[x])
    {
      hide Under, CallOrder, KidsCalls;
      assert SameBody(m0[c], ctx[c]);
      var i, n := 0, |Kids(ctx[c])|;
      threw := false;
      while i < n && !threw
        invariant 0 <= i <= n == |Kids(m0[c])|
        invariant !threw ==> KidsCalled(m0, events0, c, i)
        invariant threw ==> CutOff(m0, events0, c)
      {
        threw := CallKidAt(c, i, m0, events0);
        i := i + 1;
      }
      if !threw { CallsDone(m0, rank, ctx, c); }
    }

    method CallKidAt(c: Ptr, i: nat, ghost m0: Contexts, ghost events0: seq<Event>) returns (threw: bool)
      requires KidsCalled(m0, events0, c, i) && i < |Kids(m0[c])|
      modifies this`ctx, this`events
      decreases rank[c], 0
      ensures !threw ==> KidsCalled(m0, events0, c, i + 1)
      ensures threw ==> CutOff(m0, events0, c)
    {
      hide Under, CallOrder;
      ghost var m := ctx;
      assert SameBody(m0[c], ctx[c]);
      var k := Kids(ctx[c])[i];
      if k == NULL {
        MidCallsSkip(m0, rank, ctx, c, i);
        return false;
      }
      assert k in ctx && rank[k] < rank[c] by { KidUnder(ctx, rank, c, i); }
      ghost var calls := RunCalls(m, CallOrder(m, rank, k));
      threw := CallbackRecurse(k);
      CallsAppend(events0, OwnCall(m0, c) + KidsCalls(m0, rank, c, i), calls);
      if threw {
        KidThrew(m0, rank, m, ctx, c, i, k);
      } else {
        KidReturned(m0, rank, m, ctx, c, i, k);
      }
    }

    /** memContextFree: the callbacks of the subtree run first; then, whether or not one of them threw, every block
        of the subtree is released and the contexts outside it are as before, except for the parent's slot. The
        stack stays in order if no context on it is freed. */
    method Free(c: Ptr) returns (threw: bool)
      requires Sound() && c in ctx
      modifies this`ctx, this`live, this`events
      ensures Sound() && ctx == Freed(old(ctx), rank, c)
      ensures live == Without(old(live), old(ctx), rank, c)
      ensures threw <==> exists x :: x in CallOrder(old(ctx), rank, c) && Throws(old(ctx), x)
      ensures events == old(events) + Calls(RunCalls(old(ctx), CallOrder(old(ctx), rank, c)))
                        + Releases(FreeOrder(old(ctx), rank, c))
      ensures old(Valid()) && MemStack.FreeFits(old(State()), c) ==>
                Valid() && State() == MemStack.AfterFree(old(State()), c)
    {
      hide FreeOrder, CallOrder, Under, Freed, Throws, HeapOk, Without, Tree;
      threw := FreeContext(c);
      if old(Valid()) {
        MemStack.FreeKeepsStackIff(old(State()), c);
      }
    }

    method FreeContext(c: Ptr) returns (threw: bool)
      requires Sound() && c in ctx
      modifies this`ctx, this`live, this`events
      ensures Sound() && ctx == Freed(old(ctx), rank, c)
      ensures live == Without(old(live), old(ctx), rank, c)
      ensures threw <==> exists x :: x in CallOrder(old(ctx), rank, c) && Throws(old(ctx), x)
      ensures events == old(events) + Calls(RunCalls(old(ctx), CallOrder(old(ctx), rank, c)))
                        + Releases(FreeOrder(old(ctx), rank, c))
    {
      hide FreeOrder, CallOrder, Under;
      ghost var m0 := ctx;
      threw := CallbackRecurse(c);
      TouchedHeap(m0, live, ctx);
      TouchedCut(m0, rank, ctx, live, c);
      TouchedFreed(m0, rank, ctx, c);
      FreeRecurse(c);
    }

    // -------------------------------------------------------------------------------------------
    // Size

    /** memContextSize: what is recorded of every live block of the subtree, plus the static header of the top
        context. These are the bytes of the blocks if and only if no block is larger than its record can say. */
    method Size(c: Ptr) returns (total: nat)
      requires Sound() && c in ctx
      decreases rank[c], 1
      ensures forall b :: b in FreeOrder(ctx, rank, c) ==> b in live
      ensures total == Bytes(Recorded(live), FreeOrder(ctx, rank, c)) + if c == TOP then HeaderBytes(ctx[TOP]) else 0
      ensures total == Bytes(live, FreeOrder(ctx, rank, c)) + (if c == TOP then HeaderBytes(ctx[TOP]) else 0) <==>
              forall b :: b in FreeOrder(ctx, rank, c) ==> FitsRecord(live[b])
    {
      hide Under, KidsOrder, FreeOrder, OwnBlocks, Recorded, Bytes;
      SizeExact(ctx, rank, live, c);
      total := SubtreeSize(c);
    }

    method SubtreeSize(c: Ptr) returns (total: nat)
      requires Sound() && c in ctx
      decreases rank[c], 1
      ensures forall b :: b in FreeOrder(ctx, rank, c) ==> b in live
      ensures total == Bytes(Recorded(live), FreeOrder(ctx, rank, c)) + if c == TOP then HeaderBytes(ctx[TOP]) else 0
    {
      hide Under, KidsOrder;
      FreeGivesBack(ctx, rank, live, c);
      var kids := KidsSize(c);
      var own := OwnSize(c);
      ghost var kidsOrder := KidsOrder(ctx, rank, c, |Kids(ctx[c])|);
      BytesConcat(Recorded(live), kidsOrder, OwnBlocks(ctx[c], c));
      total := kids + own;
    }

    method KidsSize(c: Ptr) returns (total: nat)
      requires Sound() && c in ctx
      decreases rank[c], 0
      ensures forall b :: b in KidsOrder(ctx, rank, c, |Kids(ctx[c])|) ==> b in live
      ensures total == Bytes(Recorded(live), KidsOrder(ctx, rank, c, |Kids(ctx[c])|))
    {
      hide Under, FreeOrder, OwnBlocks;
      total := 0;
      var i := 0;
      while i < |Kids(ctx[c])|
        invariant 0 <= i <= |Kids(ctx[c])|
        invariant forall b :: b in KidsOrder(ctx, rank, c, i) ==> b in live
        invariant total == Bytes(Recorded(live), KidsOrder(ctx, rank, c, i))
      {
        var k := Kids(ctx[c])[i];
        if k != NULL {
          KidUnder(ctx, rank, c, i);
          var size := SubtreeSize(k);
          BytesConcat(Recorded(live), KidsOrder(ctx, rank, c, i), FreeOrder(ctx, rank, k));
          total := total + size;
        } else {
          assert KidsOrder(ctx, rank, c, i + 1) == KidsOrder(ctx, rank, c, i);
        }
        i := i + 1;
      }
    }

    method AllocSize(c: Ptr) returns (total: nat)
      requires Sound() && c in ctx
      ensures forall b :: b in NonNull(ctx[c].alloc.slots) ==> b in live
      ensures total == Bytes(Recorded(live), NonNull(ctx[c].alloc.slots))
    {
      hide Under, Tree, NonNull, Bytes, OwnBlocks, ListPart;
      var rec := ctx[c];
      assert Owns(rec, c, live);
      hide HeapOk, Owns;
      var slots := rec.alloc.slots;
      NoSlots(Recorded(live), slots);
      total := 0;
      var i := 0;
      while i < |slots|
        invariant 0 <= i <= |slots|
        invariant forall b :: b in NonNull(slots[..i]) ==> b in live
        invariant total == Bytes(Recorded(live), NonNull(slots[..i]))
      {
        SlotBytes(rec, c, live, i);
        if slots[i] != NULL {
          total := total + live[slots[i]].size;
        }
        i := i + 1;
      }
      assert slots[..i] == slots;
    }

    /** Header, lists and allocations of one context. */
    method OwnSize(c: Ptr) returns (total: nat)
      requires Sound() && c in ctx
      ensures forall b :: b in OwnBlocks(ctx[c], c) ==> b in live
      ensures total == Bytes(Recorded(live), OwnBlocks(ctx[c], c)) + if c == TOP then HeaderBytes(ctx[TOP]) else 0
    {
      hide Tree, Under, NonNull, OwnBlocks, ListPart, Bytes;
      var rec := ctx[c];
      assert Owns(rec, c, live);
      OwnBytes(rec, c, live, Recorded(live));
      total := AllocSize(c);
      if rec.childQty.Many? && rec.child.slots != [] {
        total := total + WORD * |rec.child.slots|;
      }
      if rec.allocQty.Many? && rec.alloc.slots != [] {
        total := total + WORD * |rec.alloc.slots|;
      }
      total := total + HeaderBytes(rec);
    }

    // -------------------------------------------------------------------------------------------
    // The context stack

    /** Add an entry to the stack. */
    method Push(e: MemStack.Entry)
      requires stack.Length == MemStack.STACK_MAX && maxIdx < stack.Length - 1
      modifies this`maxIdx, stack
      ensures maxIdx == old(maxIdx) + 1 && stack[..maxIdx + 1] == old(stack[..maxIdx + 1]) + [e]
    {
      ghost var t := stack[..maxIdx + 1];
      maxIdx := maxIdx + 1;
      stack[maxIdx] := e;
      assert stack[..maxIdx + 1] == t + [e];
    }

    /** memContextSwitch. */
    method Switch(c: Ptr, tryDepth: nat)
      requires Valid() && c in ctx && maxIdx < MemStack.STACK_MAX - 1
      modifies this`currentIdx, this`maxIdx, stack
      ensures Valid() && State() == MemStack.Step(old(State()), MemStack.Op.Switch(c, tryDepth))
      ensures currentIdx == maxIdx == old(maxIdx) + 1 && stack[currentIdx] == MemStack.Entry(c, false, tryDepth)
    {
      ghost var s := State();
      Push(MemStack.Entry(c, false, tryDepth));
      currentIdx := maxIdx;
      MemStack.StepKeepsValid(s, MemStack.Op.Switch(c, tryDepth));
    }

    /** Move the current index down to the next entry that was switched to. */
    method FindCurrent()
      requires stack.Length == MemStack.STACK_MAX && currentIdx <= maxIdx < stack.Length && !stack[0].isNew
      requires forall j :: currentIdx < j <= maxIdx ==> stack[j].isNew
      modifies this`currentIdx
      ensures currentIdx <= maxIdx && currentIdx == MemStack.Current(stack[..maxIdx + 1])
    {
      while stack[currentIdx].isNew
        invariant currentIdx <= maxIdx
        invariant forall j :: currentIdx < j <= maxIdx ==> stack[j].isNew
        decreases currentIdx
      {
        currentIdx := currentIdx - 1;
      }
    }

    /** memContextSwitchBack. */
    method SwitchBack()
      requires Valid() && maxIdx > 0 && !stack[maxIdx].isNew
      modifies this`currentIdx, this`maxIdx
      ensures Valid() && State() == MemStack.Step(old(State()), MemStack.SwitchBack)
    {
      ghost var s := State();
      assert MemStack.IsCurrent(s.stack, maxIdx);
      maxIdx := maxIdx - 1;
      currentIdx := currentIdx - 1;
      assert stack[..maxIdx + 1] == s.stack[..maxIdx + 1];
      FindCurrent();
      MemStack.StepKeepsValid(s, MemStack.SwitchBack);
    }

    /** memContextKeep. */
    method Keep()
      requires Valid() && stack[maxIdx].isNew
      modifies this`maxIdx
      ensures Valid() && State() == MemStack.Step(old(State()), MemStack.Keep)
    {
      ghost var s := State();
      PopNew();
      MemStack.StepKeepsValid(s, MemStack.Keep);
    }

    /** No callback throws. */
    ghost predicate Quiet()
      reads this
    {
      forall x :: x in ctx ==> !Throws(ctx, x)
    }

    /** A callback in the subtree of the context on top of the stack throws. */
    ghost predicate TopThrows()
      requires Valid()
      reads this, stack
    {
      MemStack.ThrowsAt(State(), maxIdx)
    }

    lemma TopCalls()
      requires Valid() && stack[maxIdx].isNew
      ensures TopThrows() <==> exists x :: x in CallOrder(ctx, rank, stack[maxIdx].ctx) && Throws(ctx, x)
    {
      hide Under, CallOrder, ParentsFirst;
      var c := stack[maxIdx].ctx;
      CallOrderExact(ctx, rank, c);
      if TopThrows() {
        var x :| x in ctx && Throws(ctx, x) && Under(ctx, rank, x, c);
        assert x in CallOrder(ctx, rank, c);
      }
    }

    lemma QuietNeverThrows(s: MemStack.State, depth: nat)
      requires Tree(s.m, s.r) && forall x :: x in s.m ==> !Throws(s.m, x)
      ensures forall k: nat :: k < |s.stack| ==> !MemStack.ThrowsAt(s, k)
      ensures !MemStack.UnwindThrows(s, depth)
    {
    }

    /** Free the context waiting on top of the stack and pop it. An error of one of its callbacks leaves before
        the pop: then the entry on top names a context that is gone. */
    method FreeTop() returns (threw: bool)
      requires Valid() && stack[maxIdx].isNew
      modifies this`ctx, this`live, this`events, this`maxIdx
      ensures threw == old(TopThrows())
      ensures Sound() && ctx == MemStack.FreeTop(old(State())).m
      ensures live == Owned(old(live), ctx)
      ensures !threw ==> Valid() && State() == MemStack.Pop(MemStack.FreeTop(old(State())))
      ensures threw ==> maxIdx == old(maxIdx) && State() == MemStack.FreeTop(old(State())) && stack[maxIdx].ctx !in ctx
    {
      hide Under, FreeOrder, KidsOrder, CallOrder, KidsCalls, Freed, Throws, HeapOk, Without, Owned, MemStack.ThrowsAt;
      hide MemStack.IsCurrent, MemStack.Clear, MemStack.Current;
      ghost var s := State();
      MemStack.FreeTopFacts(s);
      MemStack.FreeTopGone(s);
      TopCalls();
      WithoutIsOwned(ctx, rank, live, stack[maxIdx].ctx);
      threw := FreeContext(stack[maxIdx].ctx);
      if !threw {
        PopNew();
      }
    }

    /** Pop an entry that waits to be kept: the current entry stays. */
    method PopNew()
      requires stack.Length == MemStack.STACK_MAX && 0 < maxIdx < stack.Length && !stack[0].isNew
      requires stack[maxIdx].isNew && MemStack.IsCurrent(stack[..maxIdx + 1], currentIdx)
      modifies this`maxIdx
      ensures maxIdx == old(maxIdx) - 1 && State() == MemStack.Pop(old(State()))
    {
      ghost var t := stack[..maxIdx + 1];
      maxIdx := maxIdx - 1;
      assert stack[..maxIdx + 1] == t[..maxIdx + 1];
      assert currentIdx == MemStack.Current(stack[..maxIdx + 1]);
    }

    /** memContextDiscard: an error of a callback leaves the freed context on the stack. */
    method Discard() returns (threw: bool)
      requires Valid() && stack[maxIdx].isNew
      modifies this`ctx, this`live, this`events, this`maxIdx
      ensures threw == old(TopThrows())
      ensures Sound() && ctx == MemStack.FreeTop(old(State())).m && live == Owned(old(live), ctx)
      ensures !threw ==> Valid() && State() == MemStack.Step(old(State()), MemStack.Discard)
      ensures threw ==> maxIdx == old(maxIdx) && State() == MemStack.FreeTop(old(State())) && stack[maxIdx].ctx !in ctx
      ensures old(Quiet()) ==> !threw && Quiet()
    {
      hide Under, Freed, Throws, HeapOk, Owned, MemStack.IsCurrent, MemStack.Clear, MemStack.Current, MemStack.ThrowsAt;
      if Quiet() {
        QuietNeverThrows(State(), maxIdx);
        MemStack.FreeTopFacts(State());
        FreedQuiet(ctx, rank, stack[maxIdx].ctx);
      }
      threw := FreeTop();
    }

    /** memContextClean: unwind the stack down to the given try depth. It ends early if and only if the error is not
        fatal and some callback it is to run throws: then the context of the topmost entry with such a callback
        has been freed and is still on the stack. Either way the blocks left are those of the contexts left. */
    method Clean(tryDepth: nat, fatal: bool) returns (threw: bool)
      requires Valid() && tryDepth > 0
      modifies this`ctx, this`live, this`events, this`currentIdx, this`maxIdx
      ensures threw <==> !fatal && MemStack.UnwindThrows(old(State()), tryDepth)
      ensures Sound() && live == Owned(old(live), ctx)
      ensures !threw ==> Valid() && State() == MemStack.Clean(old(State()), tryDepth, fatal)
      ensures threw ==>
                && maxIdx < |old(State()).stack| && MemStack.StopsAt(old(State()), maxIdx, tryDepth)
                && State() == MemStack.Stopped(old(State()), maxIdx)
                && stack[maxIdx].isNew && stack[maxIdx].tryDepth >= tryDepth && stack[maxIdx].ctx !in ctx
      ensures fatal || old(Quiet()) ==> !threw
    {
      hide Under, Freed, Throws, MemStack.Unwind, MemStack.IsCurrent, MemStack.Clear, Tree, HeapOk;
      hide MemStack.UnwindTo, MemStack.ThrowsAt, MemStack.Stopped, Owned, MemStack.Unwinding;
      ghost var s0 := State();
      OwnedAll(ctx, live);
      MemStack.UnwindingStarts(s0, tryDepth, fatal);
      if Quiet() { QuietNeverThrows(s0, tryDepth); }
      threw := false;
      while stack[maxIdx].tryDepth >= tryDepth
        invariant Valid() && MemStack.Unwinding(s0, State(), tryDepth, fatal) && live == Owned(old(live), ctx)
        invariant MemStack.Clean(State(), tryDepth, fatal) == MemStack.Clean(s0, tryDepth, fatal)
        decreases maxIdx
      {
        ghost var s, m := State(), ctx;
        threw := CleanOne(fatal);
        OwnedTwice(old(live), m, ctx);
        if threw {
          MemStack.UnwindingStops(s0, s, tryDepth);
          return;
        }
        MemStack.UnwindingNext(s0, s, tryDepth, fatal);
      }
      MemStack.UnwindingDone(s0, State(), tryDepth, fatal);
    }

    /** One round of the loop. */
    method CleanOne(fatal: bool) returns (threw: bool)
      requires Valid() && maxIdx > 0
      modifies this`ctx, this`live, this`events, this`currentIdx, this`maxIdx
      ensures threw == (!fatal && MemStack.ThrowsAt(old(State()), old(maxIdx)))
      ensures Sound() && ctx.Keys <= old(ctx).Keys && live == Owned(old(live), ctx)
      ensures !threw ==> Valid() && State() == MemStack.Unwind(old(State()), fatal) && maxIdx == old(maxIdx) - 1
      ensures threw ==> maxIdx == old(maxIdx) && State() == MemStack.FreeTop(old(State())) && stack[maxIdx].ctx !in ctx
    {
      hide Under, Freed, Throws, CallOrder, Owned, HeapOk, MemStack.Clear, MemStack.IsCurrent;
      threw := false;
      if stack[maxIdx].isNew && !fatal {
        MemStack.FreeTopFacts(State());
        threw := FreeTop();
      } else {
        OwnedAll(ctx, live);
        PopOne();
      }
    }

    /** Pop one entry without freeing anything. */
    method PopOne()
      requires Valid() && maxIdx > 0
      modifies this`currentIdx, this`maxIdx
      ensures Valid() && State() == MemStack.Pop(old(State())) && maxIdx == old(maxIdx) - 1
    {
      hide Under;
      ghost var s := State();
      if !stack[maxIdx].isNew {
        assert MemStack.IsCurrent(s.stack, maxIdx);
        maxIdx := maxIdx - 1;
        currentIdx := currentIdx - 1;
        FindCurrent();
        assert stack[..maxIdx + 1] == s.stack[..maxIdx + 1];
      } else {
        PopNew();
      }
      MemStack.ClearKept(s, s.m, s.r, s.stack[..maxIdx + 1]);
    }

    // -------------------------------------------------------------------------------------------
    // Creating and moving contexts

    /** Put `k` in a free slot of `x`. `q` is where the list goes if it has to grow. */
    method PlaceKid(x: Ptr, k: Ptr, advance: bool, q: Ptr) returns (slot: nat)
      requires x in ctx && Shaped(ctx[x]) && Accepts(ctx[x]) && HeapOk(ctx, live) && NULL !in live && TOP !in live
      requires FreshList(live, ctx[x].child, ctx[x].childList, q)
      modifies this`ctx, this`live
      ensures var n := |Reserve(old(ctx)[x].child).slots|;
        && slot == KidSlot(old(ctx)[x])
        && ctx == old(ctx)[x := AddKid(old(ctx)[x], k, advance,
          ListAfter(old(ctx)[x].child, n, old(ctx)[x].childList, q))]
        && HeapOk(ctx, live) && NULL !in live && TOP !in live
        && (forall b :: b in live ==> b in old(live) || b == q)
        && (forall b :: b in old(live) && old(live)[b].owner != x ==> b in live && live[b] == old(live)[b])
        && live == if old(ctx)[x].childQty.One? then old(live) else ChildHeapAfter(old(live), x, old(ctx)[x], n, q)
    {
      var rec := ctx[x];
      assert Owns(rec, x, live);
      if rec.childQty.One? {
        slot := 0;
        RecordKept(ctx, live, x, rec.(child := SlotList([k], 0)));
        ctx := ctx[x := rec.(child := SlotList([k], 0))];
      } else {
        var f := FindSlot(rec.child);
        slot := f.freeIdx;
        var child := SlotList(f.slots[slot := k], if advance then slot + 1 else slot);
        var list := ListAfter(rec.child, |f.slots|, rec.childList, q);
        ChildListKept(ctx, live, x, child, q);
        live := ChildHeapAfter(live, x, rec, |f.slots|, q);
        ctx := ctx[x := rec.(child := child, childList := list)];
      }
    }

    /** Where the child list of `x` is after a child has been placed in it. */
    ghost function ListOf(x: Ptr, q: Ptr): Ptr
      requires x in ctx && InBounds(ctx[x].child)
      reads this
    {
      ListAfter(ctx[x].child, |Reserve(ctx[x].child).slots|, ctx[x].childList, q)
    }

    /** The heap after a child has been placed in `x`: only the child list of `x` may be made or grow. */
    ghost function HeapOf(x: Ptr, q: Ptr): Heap
      requires x in ctx && InBounds(ctx[x].child)
      reads this
    {
      if ctx[x].childQty.One? then live else ChildHeapAfter(live, x, ctx[x], |Reserve(ctx[x].child).slots|, q)
    }

    /** memContextNew: a child of the current context that waits on the stack to be kept or discarded. */
    method New(p: Ptr, q: Ptr, param: Param, tryDepth: nat)
      requires Valid() && maxIdx < MemStack.STACK_MAX - 1
      requires Accepts(ctx[stack[currentIdx].ctx]) && Fresh(live, p) && p != q
      requires FreshList(live, ctx[stack[currentIdx].ctx].child, ctx[stack[currentIdx].ctx].childList, q)
      requires param.allocExtra < UINT16
      modifies this, stack
      ensures old(p !in ctx) && Valid() && p in live && p in ctx
      ensures var c := ctx[p];
        && c.childQty == param.childQty && c.allocQty == param.allocQty && c.hasCallback == param.hasCallback
        && c.callback == NoCallback && c.active && c.parent == old(stack[currentIdx].ctx)
        && c.child.slots == [] && c.alloc.slots == [] && c.child.freeIdx == 0 && c.alloc.freeIdx == 0
        && c.allocExtra == (param.allocExtra + 7) / 8 * 8 % 0x1_0000
      ensures live[p].HeaderBlock? && live[p].owner == p && live[p].extra == (param.allocExtra + 7) / 8 * 8
      ensures live[p].bytes == 32 + live[p].extra
        + (match param.childQty case Zero => 0 case One => 8 case Many => 16)
        + (match param.allocQty case Zero => 0 case One => 8 case Many => 16)
        + (if param.hasCallback then 16 else 0)
      ensures forall b :: b in live && b != p && b != q ==> b in old(live) && live[b] == old(live)[b]
      ensures forall b :: b in old(live) && b != old(ctx[stack[currentIdx].ctx].childList) ==>
                b in live && (b != q ==> live[b] == old(live)[b])
      ensures q in live && (q !in old(live) || live[q] != old(live)[q]) ==>
                live[q].ChildListBlock? && live[q].owner == old(stack[currentIdx].ctx)
      ensures State() == MemStack.Step(old(State()),
        MemStack.New(p, NewRecord(param, old(stack[currentIdx].ctx)), old(ListOf(stack[currentIdx].ctx, q)), tryDepth))
    {
      hide Under, Insert, HeapOk, MemStack.Step, MemStack.Clear, NewRecord, ListOf, ChildHeapAfter, Padded, Reserve;
      ghost var x, m0, live0, list := stack[currentIdx].ctx, ctx, live, ListOf(stack[currentIdx].ctx, q);
      InBoundsAt(m0, rank, x);
      NewListFacts(live0, m0[x], x, q);
      Create(p, q, param, tryDepth);
      NewRecordFacts(param, m0, p, x, list);
    }

    method Create(p: Ptr, q: Ptr, param: Param, tryDepth: nat)
      requires Valid() && maxIdx < MemStack.STACK_MAX - 1
      requires Accepts(ctx[stack[currentIdx].ctx]) && Fresh(live, p) && p != q
      requires FreshList(live, ctx[stack[currentIdx].ctx].child, ctx[stack[currentIdx].ctx].childList, q)
      modifies this, stack
      ensures old(p !in ctx) && Valid() && p in live && p in ctx
      ensures State() == MemStack.Step(old(State()),
        MemStack.New(p, NewRecord(param, old(stack[currentIdx].ctx)), old(ListOf(stack[currentIdx].ctx, q)), tryDepth))
      ensures var x, rec := old(stack[currentIdx].ctx), NewRecord(param, old(stack[currentIdx].ctx));
        && ctx == Insert(old(ctx), p, rec, x, true, old(ListOf(x, q)))
        && live == old(HeapOf(x, q))[p := NewHeader(param, p, x)]
    {
      hide Under, HeapOf, HeapOk, Reserve, Padded, AddKid, FirstFree, Insert, HeaderBytes, MemStack.Clear;
      hide Linked, KidAt, Shaped, MemStack.ThrowsAt, MemStack.Clean, Throws;
      ghost var s := State();
      InBoundsAt(ctx, rank, stack[currentIdx].ctx);
      var x := stack[currentIdx].ctx;
      var rec := NewRecord(param, x);
      HeadersLive(ctx, live);
      ghost var list := ListOf(x, q);
      ghost var op := MemStack.New(p, rec, list, tryDepth);
      assert MemStack.Enabled(s, op, 1, 0);
      AddContext(p, q, x, rec, Padded(param.allocExtra));
      rank := Lift(rank[p := 0], s.m.Keys + {p}, {p}, p);
      Push(MemStack.Entry(p, true, tryDepth));
      assert State() == MemStack.Step(s, op);
      MemStack.StepKeepsValid(s, op);
    }

    method AddContext(p: Ptr, q: Ptr, x: Ptr, rec: MemContext, extra: nat)
      requires Sound() && x in ctx && p !in ctx && Accepts(ctx[x]) && Fresh(live, p) && p != q
      requires FreshList(live, ctx[x].child, ctx[x].childList, q)
      requires rec.child == Uninitialized && rec.alloc == Uninitialized && rec.parentIdx == 0 && rec.parent == x
      requires rec.allocExtra == extra % UINT16
      modifies this`ctx, this`live
      ensures ctx == Insert(old(ctx), p, rec, x, true, old(ListOf(x, q)))
      ensures HeapOk(ctx, live) && NULL !in live && TOP !in live && p in live && p in ctx && Plain(ctx[TOP])
      ensures live == old(HeapOf(x, q))[p := HeaderBlock(p, HeaderBytes(rec) - rec.allocExtra + extra, extra)]
    {
      var many := ctx[x].childQty.Many?;
      var slot := PlaceKid(x, p, true, q);
      var idx := if many then slot else 0;
      HeaderAdded(ctx, live, p, rec.(parentIdx := idx), extra);
      ctx := ctx[p := rec.(parentIdx := idx)];
      live := live[p := HeaderBlock(p, HeaderBytes(rec) - rec.allocExtra + extra, extra)];
    }

    /** memContextMove of no context, or of one that has this parent already, does nothing. */
    method MoveIfElsewhere(c: Ptr, to: Ptr, q: Ptr)
      requires Sound()
      requires c != NULL ==> c in ctx && to in ctx && c != TOP && (ctx[c].parent != to ==> CanMove(ctx, rank, c, to))
      requires to in ctx ==> FreshList(live, ctx[to].child, ctx[to].childList, q)
      modifies this`ctx, this`live, this`rank
      ensures Sound()
      ensures c == NULL || old(ctx)[c].parent == to ==> ctx == old(ctx) && live == old(live) && rank == old(rank)
      ensures c != NULL && old(ctx)[c].parent != to ==>
                && Linked(old(ctx), old(rank), c) && c != old(ctx[c].parent) && to != c
                && ctx == Moved(old(ctx), c, to, old(ListOf(to, q))) && live == old(HeapOf(to, q))
    {
      hide Under, Moved, ListOf, HeapOf, Tree, HeapOk;
      if c != NULL && ctx[c].parent != to {
        Move(c, to, q);
      }
    }

    /** memContextMove: re-parent a context, never into its own subtree. Its blocks stay where they are; only the
        list of the new parent may be made or grow. The stack stays in order if no context lower on it comes to
        sit below one that waits to be kept. */
    method Move(c: Ptr, to: Ptr, q: Ptr)
      requires Sound() && CanMove(ctx, rank, c, to) && FreshList(live, ctx[to].child, ctx[to].childList, q)
      modifies this`ctx, this`live, this`rank
      ensures Sound() && Linked(old(ctx), old(rank), c) && c != old(ctx[c].parent) && to != c
      ensures ctx == Moved(old(ctx), c, to, old(ListOf(to, q))) && live == old(HeapOf(to, q))
      ensures old(Valid()) && MemStack.MoveFits(old(State()), c, to) ==>
                Valid() && State() == MemStack.AfterMove(old(State()), c, to, old(ListOf(to, q)))
    {
      hide Under, Moved, ListOf, HeapOf;
      ghost var list := ListOf(to, q);
      Reparent(c, to, q);
      if old(Valid()) {
        MemStack.MoveKeepsStackIff(old(State()), c, to, list);
      }
    }

    method Reparent(c: Ptr, to: Ptr, q: Ptr)
      requires Sound() && CanMove(ctx, rank, c, to) && FreshList(live, ctx[to].child, ctx[to].childList, q)
      modifies this`ctx, this`live, this`rank
      ensures Sound() && Linked(old(ctx), old(rank), c) && c != old(ctx[c].parent) && to != c
      ensures ctx == Moved(old(ctx), c, to, old(ListOf(to, q))) && live == old(HeapOf(to, q))
      ensures rank == Lift(old(rank), old(ctx).Keys, Subtree(old(ctx), old(rank), c), c)
    {
      ghost var m0, r0, list := ctx, rank, ListOf(to, q);
      MoveKeepsTree(ctx, rank, c, to, list);
      MovedFacts(ctx, rank, c, to, list);
      Detach(c, to);
      Adopt(c, to, q, list);
      assert ctx == Moved(m0, c, to, list);
      rank := Lift(rank, m0.Keys, Subtree(m0, rank, c), c);
    }

    /** Empty the slot of a context in its old parent. */
    method Detach(c: Ptr, ghost to: Ptr)
      requires Sound() && CanMove(ctx, rank, c, to)
      modifies this`ctx
      ensures old(Linked(ctx, rank, c))
      ensures var p := old(ctx)[c].parent; ctx == old(ctx)[p := LoseKid(old(ctx)[p], Home(old(ctx), c))]
      ensures HeapOk(ctx, live)
    {
      assert Linked(ctx, rank, c);
      var p := ctx[c].parent;
      var home := if ctx[p].childQty.Many? then ctx[c].parentIdx else 0;
      RecordKept(ctx, live, p, LoseKid(ctx[p], home));
      ctx := ctx[p := LoseKid(ctx[p], home)];
    }

    /** Give a context that has left its old parent a slot in the new one. */
    method Adopt(c: Ptr, to: Ptr, q: Ptr, ghost list: Ptr)
      requires c in ctx && to in ctx && c != to && Shaped(ctx[to]) && Accepts(ctx[to])
      requires HeapOk(ctx, live) && NULL !in live && TOP !in live && c != TOP
      requires FreshList(live, ctx[to].child, ctx[to].childList, q) && list == ListOf(to, q)
      modifies this`ctx, this`live
      ensures ctx == Insert(old(ctx), c, old(ctx)[c], to, false, list)
      ensures HeapOk(ctx, live) && NULL !in live && TOP !in live && live == old(HeapOf(to, q))
    {
      assert Owns(ctx[to], to, live);
      var many := ctx[to].childQty.Many?;
      var slot := PlaceKid(to, c, false, q);
      var rec := ctx[c].(parent := to, parentIdx := if many then slot else ctx[c].parentIdx);
      RecordKept(ctx, live, c, rec);
      ctx := ctx[c := rec];
    }

    // -------------------------------------------------------------------------------------------
    // Callbacks

    /** memContextCallbackSet. A build with assertions refuses a second callback, another one replaces the first. */
    method CallbackSet(c: Ptr, throws: bool, checked: bool) returns (ok: bool)
      requires Valid() && c in ctx && ctx[c].hasCallback && ctx[c].active
      modifies this`ctx
      ensures ok <==> !(checked && old(ctx)[c].callback.Callback?)
      ensures Valid() && c != TOP
      ensures ctx == if ok then old(ctx)[c := old(ctx)[c].(callback := Callback(throws))] else old(ctx)
    {
      ok := !(checked && ctx[c].callback.Callback?);
      if ok {
        SetCallback(c, Callback(throws));
      }
    }

    /** memContextCallbackClear. */
    method CallbackClear(c: Ptr)
      requires Valid() && c in ctx && ctx[c].hasCallback && ctx[c].active
      modifies this`ctx
      ensures Valid() && ctx == old(ctx)[c := old(ctx)[c].(callback := NoCallback)]
    {
      SetCallback(c, NoCallback);
    }

    method SetCallback(c: Ptr, callback: Callback)
      requires Valid() && c in ctx && ctx[c].hasCallback
      modifies this`ctx
      ensures Valid() && ctx == old(ctx)[c := old(ctx)[c].(callback := callback)]
    {
      hide Under;
      ghost var s := State();
      ctx := ctx[c := ctx[c].(callback := callback)];
      TouchedTree(s.m, rank, ctx);
      TouchedHeap(s.m, live, ctx);
      MemStack.ClearKept(s, ctx, rank, s.stack);
    }

    // -------------------------------------------------------------------------------------------
    // Allocations

    /** memNew in the current context: `p` is the new block, `q` the list if it has to be made or to grow. */
    method AllocNew(p: Ptr, size: nat, q: Ptr)
      requires Valid() && Fresh(live, p) && p != q
      requires var c := ctx[stack[currentIdx].ctx];
        && !c.allocQty.Zero? && (c.allocQty.One? ==> c.alloc.slots in [[], [NULL]])
        && FreshList(live, c.alloc, c.allocList, q)
      modifies this`ctx, this`live
      ensures Valid() && p in live && live[p].bytes == 8 + size && live[p].owner == stack[currentIdx].ctx
      ensures var x, c := stack[currentIdx].ctx, old(ctx[stack[currentIdx].ctx]);
        && InBounds(c.alloc)
        && ctx == old(ctx)[x := NewAlloc(c, p, q)]
        && live == NewAllocHeap(old(live), x, c, p, ALLOC_HEADER + size, q)
      ensures var x := stack[currentIdx].ctx;
        && ctx.Keys == old(ctx).Keys
        && (forall y :: y in ctx && y != x ==> ctx[y] == old(ctx)[y])
        && ctx[x].child == old(ctx)[x].child
        && (old(ctx)[x].allocQty.Many? ==> ctx[x].alloc == Take(old(ctx)[x].alloc, p))
      ensures live[p].AllocBlock? && live[p].allocIdx < |ctx[stack[currentIdx].ctx].alloc.slots|
      ensures var c, i := ctx[stack[currentIdx].ctx], live[p].allocIdx;
        c.alloc.slots[i] == p && (c.allocQty.Many? ==> c.alloc.freeIdx == i + 1)
    {
      hide Under, Reserve, FirstFree, NonNull, NewAllocHeap, HeapOk, Linked, KidAt, MemStack.Clear;
      ghost var s := State();
      var x := stack[currentIdx].ctx;
      assert Shaped(ctx[x]);
      PlaceAlloc(x, p, ALLOC_HEADER + size, q);
      AllocsKeepValid(s, x, ctx[x]);
    }

    /** Record a new block of the given size in a free slot of `x`. */
    method PlaceAlloc(x: Ptr, p: Ptr, bytes: nat, q: Ptr)
      requires x in ctx && Shaped(ctx[x]) && HeapOk(ctx, live) && NULL !in live && TOP !in live
      requires Fresh(live, p) && p != q && FreshList(live, ctx[x].alloc, ctx[x].allocList, q)
      requires !ctx[x].allocQty.Zero? && (ctx[x].allocQty.One? ==> ctx[x].alloc.slots in [[], [NULL]])
      modifies this`ctx, this`live
      ensures ctx == old(ctx)[x := NewAlloc(old(ctx)[x], p, q)]
      ensures live == NewAllocHeap(old(live), x, old(ctx)[x], p, bytes, q)
      ensures HeapOk(ctx, live) && NULL !in live && TOP !in live
      ensures p in live && live[p].bytes == bytes && live[p].owner == x
      ensures live[p].AllocBlock? && live[p].allocIdx < |ctx[x].alloc.slots|
      ensures var c, i := ctx[x], live[p].allocIdx;
        c.alloc.slots[i] == p && (c.allocQty.Many? ==> c.alloc.freeIdx == i + 1)
    {
      hide Reserve, FirstFree, NonNull;
      var rec := ctx[x];
      assert Owns(rec, x, live);
      if rec.allocQty.One? {
        AllocOneKept(ctx, live, x, p, bytes);
        ctx := ctx[x := rec.(alloc := SlotList([p], 0))];
        live := live[p := AllocBlock(x, bytes, 0, bytes % UINT32)];
      } else {
        var f := FindSlot(rec.alloc);
        AllocKept(ctx, live, x, p, bytes, q);
        live := AllocHeapAfter(live, x, rec, |f.slots|, q)[p := AllocBlock(x, bytes, f.freeIdx, bytes % UINT32)];
        ctx := ctx[x := rec.(alloc := SlotList(f.slots[f.freeIdx := p], f.freeIdx + 1),
                             allocList := ListAfter(rec.alloc, |f.slots|, rec.allocList, q))];
      }
    }

    /** Where block `b` of the current context sits in its list: the index kept in the block's own header. */
    ghost function SlotOf(b: Ptr): nat
      requires stack.Length > currentIdx && stack[currentIdx].ctx in ctx && b in live && live[b].AllocBlock?
      reads this, stack
    {
      if ctx[stack[currentIdx].ctx].allocQty.Many? then live[b].allocIdx else 0
    }

    /** `b` is an allocation of the current context. */
    ghost predicate IsAlloc(b: Ptr)
      requires Valid()
      reads this, stack
    {
      b != NULL && b in ctx[stack[currentIdx].ctx].alloc.slots
    }

    lemma SlotFound(b: Ptr)
      requires Valid() && IsAlloc(b)
      ensures var c := ctx[stack[currentIdx].ctx];
        && b in live && live[b].AllocBlock? && live[b].owner == stack[currentIdx].ctx
        && SlotOf(b) < |c.alloc.slots| && c.alloc.slots[SlotOf(b)] == b
        && Shaped(c) && (c.allocQty.Many? || c.allocQty.One?)
    {
      var x := stack[currentIdx].ctx;
      assert Owns(ctx[x], x, live) && Shaped(ctx[x]);
      var i :| 0 <= i < |ctx[x].alloc.slots| && ctx[x].alloc.slots[i] == b;
      assert AllocAt(ctx[x], x, live, i);
    }

    /** memResize: the block may move to `q`; it keeps its slot. */
    method AllocResize(b: Ptr, size: nat, q: Ptr)
      requires Valid() && IsAlloc(b) && (Fresh(live, q) || q == b)
      modifies this`ctx, this`live
      ensures Valid() && q in live && live == (old(live) - {b})[q := live[q]] && live[q].bytes == 8 + size
      ensures var x, l := stack[currentIdx].ctx, old(ctx[stack[currentIdx].ctx].alloc);
        && old(b in live && live[b].AllocBlock?) && old(SlotOf(b)) < |l.slots|
        && ctx == old(ctx)[x := old(ctx)[x].(alloc := SlotList(l.slots[old(SlotOf(b)) := q], l.freeIdx))]
    {
      hide Under, NonNull;
      ghost var s := State();
      SlotFound(b);
      var x, bytes := stack[currentIdx].ctx, ALLOC_HEADER + size;
      var rec := ctx[x];
      var i := if rec.allocQty.Many? then live[b].allocIdx else 0;
      var alloc := SlotList(rec.alloc.slots[i := q], rec.alloc.freeIdx);
      assert Owns(rec, x, live);
      AllocChanged(ctx, live, x, i, alloc, q, bytes);
      live := AllocReplaced(live, x, b, i, q, bytes);
      ctx := ctx[x := rec.(alloc := alloc)];
      AllocsKeepValid(s, x, ctx[x]);
    }

    /** memFree: the block is released and its slot, found through its own header, is emptied. */
    method AllocFree(b: Ptr)
      requires Valid() && IsAlloc(b)
      modifies this`ctx, this`live, this`events
      ensures Valid() && live == old(live) - {b} && events == old(events) + [Released(b)]
      ensures var x, l := stack[currentIdx].ctx, old(ctx[stack[currentIdx].ctx].alloc);
        && old(b in live && live[b].AllocBlock?) && old(SlotOf(b)) < |l.slots|
        && ctx.Keys == old(ctx).Keys
        && (forall y :: y in ctx && y != x ==> ctx[y] == old(ctx)[y])
        && ctx[x].alloc.slots == l.slots[old(SlotOf(b)) := NULL]
        && (old(ctx)[x].allocQty.Many? ==> ctx[x].alloc == Give(l, old(SlotOf(b))))
    {
      ghost var s := State();
      SlotFound(b);
      var x := stack[currentIdx].ctx;
      var rec := ctx[x];
      var i := if rec.allocQty.Many? then live[b].allocIdx else 0;
      var alloc := if rec.allocQty.Many? then Give(rec.alloc, i) else SlotList([NULL], rec.alloc.freeIdx);
      AllocChanged(ctx, live, x, i, alloc, NULL, 0);
      ctx := ctx[x := rec.(alloc := alloc)];
      Release(b);
      AllocsKeepValid(s, x, ctx[x]);
    }
  }

  /** A context with a callback that throws, left on the stack when an error is caught: unwinding ends at its entry.
      The handler has not finished and runs once more, and the entry it then starts from is to be freed though its
      context is gone. */
  method ThrowWhileCleaning() returns (threw: bool, freesAgain: bool)
    ensures threw && freesAgain
  {
    hide Under, Throws, MemStack.UnwindTo, MemStack.Stopped, MemStack.UnwindThrows, MemStack.Clean, MemStack.Unwind;
    var g := new Manager();
    g.New(2, 3, Param(Many, Many, true, 0), 1);
    var ok := g.CallbackSet(2, true, true);
    LeftThrows(g.State());
    threw := g.Clean(1, false);
    var top := g.stack[g.maxIdx];
    freesAgain := top.isNew && top.tryDepth >= 1 && top.ctx !in g.ctx;
  }

  lemma LeftThrows(s: MemStack.State)
    requires Tree(s.m, s.r) && |s.stack| > 1
    requires var e := s.stack[|s.stack| - 1]; e.isNew && e.tryDepth >= 1 && e.ctx in s.m && Throws(s.m, e.ctx)
    ensures MemStack.UnwindThrows(s, 1)
  {
    var k: nat := |s.stack| - 1;
    assert Under(s.m, s.r, s.stack[k].ctx, s.stack[k].ctx);
    assert MemStack.ThrowsAt(s, k) && MemStack.Reached(s, k, 1);
  }

  const ALLOC_HEADER := 8

  /** The top context as it is before anything is done with it. */
  const TOP_RECORD: MemContext :=
    MemContext(Many, Uninitialized, NULL, Many, Uninitialized, NULL, false, NoCallback, 0, true, 0, NULL)

  /** The top context has no room for a callback and none is set. */
  predicate Plain(c: MemContext) {
    !c.hasCallback && c.callback.NoCallback?
  }

  /** The record of a context after block `p` has been put in a free slot. `q` is where its list is if it had to
      be made or to grow. */
  function NewAlloc(c: MemContext, p: Ptr, q: Ptr): MemContext
    requires InBounds(c.alloc)
  {
    if c.allocQty.One? then c.(alloc := SlotList([p], 0))
    else
      c.(alloc := Take(c.alloc, p), allocList := ListAfter(c.alloc, |Reserve(c.alloc).slots|, c.allocList, q))
  }

  /** The heap then: the new block records its slot and the list of `x`, if there is one, its length. */
  function NewAllocHeap(live: Heap, x: Ptr, c: MemContext, p: Ptr, bytes: nat, q: Ptr): Heap
    requires InBounds(c.alloc)
  {
    if c.allocQty.One? then live[p := AllocBlock(x, bytes, 0, bytes % UINT32)]
    else
      var f := Reserve(c.alloc);
      AllocHeapAfter(live, x, c, |f.slots|, q)[p := AllocBlock(x, bytes, f.freeIdx, bytes % UINT32)]
  }

  /** Changing what a context allocates leaves the tree and the stack alone. */
  lemma AllocsKeepValid(s: MemStack.State, x: Ptr, rec: MemContext)
    requires MemStack.Valid(s) && x in s.m && rec == s.m[x].(alloc := rec.alloc, allocList := rec.allocList)
      && Shaped(rec)
    ensures MemStack.Valid(s.(m := s.m[x := rec]))
  {
    var m' := s.m[x := rec];
    assert Tree(m', s.r) by {
      forall y | y in m' && y != TOP ensures Linked(m', s.r, y) { assert Linked(s.m, s.r, y); }
      forall y, i | y in m' && 0 <= i < |Kids(m'[y])| && Kids(m'[y])[i] != NULL ensures KidAt(m', y, i) {
        assert KidAt(s.m, y, i);
      }
    }
    MemStack.ClearKept(s, m', s.r, s.stack);
  }

  lemma AllocOneKept(m: Contexts, live: Heap, x: Ptr, p: Ptr, bytes: nat)
    requires HeapOk(m, live) && x in m && m[x].allocQty.One? && m[x].alloc.slots in [[], [NULL]] && Fresh(live, p)
    ensures HeapOk(m[x := m[x].(alloc := SlotList([p], 0))], live[p := AllocBlock(x, bytes, 0, bytes % UINT32)])
  {
    var c := m[x].(alloc := SlotList([p], 0));
    var live' := live[p := AllocBlock(x, bytes, 0, bytes % UINT32)];
    assert Owns(m[x], x, live);
    assert AllocAt(c, x, live', 0);
    assert NonNull(m[x].alloc.slots) == [];
    forall b | b in live' && live'[b].owner == x ensures b in OwnBlocks(c, x) {
      if b == p { assert c.alloc.slots[0] == p; } else { assert OwnedBlock(m, live, b); }
    }
    HeapUpdate(m, live, x, c, live');
  }

  datatype Param = Param(childQty: Qty, allocQty: Qty, hasCallback: bool, allocExtra: nat)

  /** The extra bytes of a context, padded so that what follows them is aligned. */
  function Padded(extra: nat): (r: nat)
    ensures r % WORD == 0 && extra <= r < extra + WORD
  {
    if extra % WORD == 0 then extra else extra + WORD - extra % WORD
  }

  /** The record of a new context. */
  function NewRecord(param: Param, parent: Ptr): MemContext {
    MemContext(param.childQty, Uninitialized, NULL, param.allocQty, Uninitialized, NULL, param.hasCallback, NoCallback,
      Padded(param.allocExtra) % UINT16, true, 0, parent)
  }

  /** The record has room for the extra bytes asked for, unless they are among the last seven sizes that 16 bits can
      say: these are padded past 16 bits, and the record then says that there are none. */
  lemma ExtraRecordedIff(param: Param, parent: Ptr)
    requires param.allocExtra < UINT16
    ensures param.allocExtra <= NewRecord(param, parent).allocExtra <==> param.allocExtra <= 0xFFF8
    ensures param.allocExtra > 0xFFF8 ==> NewRecord(param, parent).allocExtra == 0
  {
  }

  function NewHeader(param: Param, p: Ptr, parent: Ptr): Block {
    var rec, extra := NewRecord(param, parent), Padded(param.allocExtra);
    HeaderBlock(p, HeaderBytes(rec) - rec.allocExtra + extra, extra)
  }

  lemma NewRecordFacts(param: Param, m: Contexts, p: Ptr, x: Ptr, list: Ptr)
    requires x in m && p !in m && Accepts(m[x]) && ListShape(m[x].childQty, m[x].child)
    ensures var c := Insert(m, p, NewRecord(param, x), x, true, list)[p];
      && c.childQty == param.childQty && c.allocQty == param.allocQty && c.hasCallback == param.hasCallback
      && c.callback == NoCallback && c.active && c.parent == x
      && c.child == SlotList([], 0) && c.alloc == SlotList([], 0)
      && c.allocExtra == Padded(param.allocExtra) % UINT16
    ensures Padded(param.allocExtra) == (param.allocExtra + 7) / 8 * 8
    ensures var h := NewHeader(param, p, x);
      && h.HeaderBlock? && h.owner == p && h.extra == Padded(param.allocExtra)
      && h.bytes == 32 + h.extra
        + (match param.childQty case Zero => 0 case One => 8 case Many => 16)
        + (match param.allocQty case Zero => 0 case One => 8 case Many => 16)
        + (if param.hasCallback then 16 else 0)
  {
  }

  lemma NewListFacts(live: Heap, c: MemContext, x: Ptr, q: Ptr)
    requires Accepts(c) && ListShape(c.childQty, c.child)
    ensures var h := if c.childQty.One? then live else ChildHeapAfter(live, x, c, |Reserve(c.child).slots|, q);
      && (forall b :: b in h && b != q ==> b in live && h[b] == live[b])
      && (forall b :: b in live && b != c.childList ==> b in h && (b != q ==> h[b] == live[b]))
      && (q in h && (q !in live || h[q] != live[q]) ==> h[q].ChildListBlock? && h[q].owner == x)
  {
  }

  lemma InBoundsAt(m: Contexts, r: Rank, x: Ptr)
    requires Tree(m, r) && x in m
    ensures ListShape(m[x].childQty, m[x].child)
  {
    assert Shaped(m[x]);
  }

  /** The blocks of these contexts. */
  ghost function Owned(live: Heap, m: Contexts): Heap {
    map b | b in live && live[b].owner in m :: live[b]
  }

  lemma WithoutIsOwned(m: Contexts, r: Rank, live: Heap, c: Ptr)
    requires Tree(m, r) && HeapOk(m, live) && c in m && c != TOP
    ensures Without(live, m, r, c) == Owned(live, Freed(m, r, c))
  {
    hide Under;
    FreeKeepsTree(m, r, c);
    forall b | b in live ensures live[b].owner in m { assert OwnedBlock(m, live, b); }
  }

  lemma OwnedAll(m: Contexts, live: Heap)
    requires HeapOk(m, live)
    ensures Owned(live, m) == live
  {
    forall b | b in live ensures live[b].owner in m { assert OwnedBlock(m, live, b); }
  }

  lemma OwnedTwice(live: Heap, m: Contexts, m': Contexts)
    requires m'.Keys <= m.Keys
    ensures Owned(Owned(live, m), m') == Owned(live, m')
  {
  }

  lemma FreedQuiet(m: Contexts, r: Rank, c: Ptr)
    requires Tree(m, r) && c in m && forall x :: x in m ==> !Throws(m, x)
    ensures forall x :: x in Freed(m, r, c) ==> !Throws(Freed(m, r, c), x)
  {
    if c != TOP {
      assert Linked(m, r, c);
      forall x | x in Freed(m, r, c) ensures !Throws(Freed(m, r, c), x) { assert x in m && !Throws(m, x); }
    } else {
      assert !Throws(m, TOP);
    }
  }

  lemma SizeExact(m: Contexts, r: Rank, live: Heap, c: Ptr)
    requires Tree(m, r) && HeapOk(m, live) && c in m
    ensures forall b :: b in FreeOrder(m, r, c) ==> b in live
    ensures Bytes(Recorded(live), FreeOrder(m, r, c)) == Bytes(live, FreeOrder(m, r, c)) <==>
            forall b :: b in FreeOrder(m, r, c) ==> FitsRecord(live[b])
  {
    hide Under, FreeOrder;
    FreeGivesBack(m, r, live, c);
    forall b | b in live
      ensures live[b].AllocBlock? ==> live[b].size == live[b].bytes % UINT32
      ensures live[b].HeaderBlock? ==> live[b].extra <= live[b].bytes
    {
      BlockRecorded(m, live, b);
    }
    RecordedExactIff(live, FreeOrder(m, r, c));
  }

  lemma BlockRecorded(m: Contexts, live: Heap, b: Ptr)
    requires HeapOk(m, live) && b in live
    ensures live[b].AllocBlock? ==> live[b].size == live[b].bytes % UINT32
    ensures live[b].HeaderBlock? ==> live[b].extra <= live[b].bytes
  {
    assert OwnedBlock(m, live, b);
    var x := live[b].owner;
    assert Owns(m[x], x, live);
    if b in NonNull(m[x].alloc.slots) {
      var i :| 0 <= i < |m[x].alloc.slots| && m[x].alloc.slots[i] == b;
      assert AllocAt(m[x], x, live, i);
    }
  }

  lemma CallsAppend(e: seq<Event>, s: seq<Ptr>, t: seq<Ptr>)
    ensures e + Calls(s) + Calls(t) == e + Calls(s + t)
  {
  }

  /** What is left after a subtree has been freed is in order: every block still has its owner. */
  lemma FreedHeap(m: Contexts, r: Rank, live: Heap, c: Ptr)
    requires Tree(m, r) && HeapOk(m, live) && c in m && TOP !in live
    ensures HeapOk(Freed(m, r, c), Without(live, m, r, c))
  {
    var m', live' := Freed(m, r, c), Without(live, m, r, c);
    if c == TOP {
      forall b | b in live ensures live[b].owner in m && Under(m, r, live[b].owner, TOP) {
        assert OwnedBlock(m, live, b);
        UnderTop(m, r, live[b].owner);
      }
      assert Owns(m'[TOP], TOP, live');
    } else {
      assert Linked(m, r, c);
      FreeKeepsTree(m, r, c);
      forall b | b in live ensures live[b].owner in m { assert OwnedBlock(m, live, b); }
      HeapShrinks(m, live, m', live');
    }
  }

  lemma AllocNext(rec: MemContext, c: Ptr, i: nat)
    requires i < |rec.alloc.slots| && rec.alloc.slots[i] != NULL
    ensures var part, slots := ListPart(rec.childQty, rec.child, rec.childList), rec.alloc.slots;
      && part + NonNull(slots[..i]) + [slots[i]] == part + NonNull(slots[..i + 1])
      && part + NonNull(slots[..i]) + [slots[i]] <= OwnBlocks(rec, c)
  {
    var part, slots := ListPart(rec.childQty, rec.child, rec.childList), rec.alloc.slots;
    NonNullPrefix(slots, i);
    assert NonNull(slots[..i + 1]) == NonNull(slots[..i]) + [slots[i]] by {
      assert slots[..i + 1][..i] == slots[..i];
    }
    PrefixMiddle(part, NonNull(slots[..i + 1]), NonNull(slots), ListPart(rec.allocQty, rec.alloc, rec.allocList));
    assert part + NonNull(slots[..i]) + [slots[i]] == part + NonNull(slots[..i + 1]);
  }

  lemma PrefixMiddle<T>(a: seq<T>, b: seq<T>, c: seq<T>, d: seq<T>)
    requires b <= c
    ensures a + b <= a + c + d
  {
  }

  lemma {:induction false} NonNullPrefix(s: seq<Ptr>, i: nat)
    requires i < |s| && s[i] != NULL
    ensures NonNull(s[..i]) + [s[i]] <= NonNull(s)
  {
    if i == |s| - 1 {
    } else {
      NonNullPrefix(s[..|s| - 1], i);
      assert s[..|s| - 1][..i] == s[..i];
    }
  }
}
