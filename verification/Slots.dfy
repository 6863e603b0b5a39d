/** Slot lists with a "search from here" hint, the structure behind both the child list and the
    allocation list of a memory context: a list that starts with four slots, doubles when the search
    finds nothing, and remembers where the next search should start. */
module Slots {

  type Ptr = nat

  const NULL: Ptr := 0
  const INITIAL_SIZE: nat := 4

  /** `slots == []` stands for a list that has not been initialized yet. */
  datatype SlotList = SlotList(slots: seq<Ptr>, freeIdx: nat)

  const Uninitialized := SlotList([], 0)

  function Nulls(n: nat): (s: seq<Ptr>)
    ensures |s| == n && forall i :: 0 <= i < n ==> s[i] == NULL
  {
    seq(n, _ => NULL)
  }

  function NonNull(s: seq<Ptr>): (r: seq<Ptr>)
    ensures |r| <= |s|
    ensures NULL !in r
    ensures forall p :: p in r <==> p in s && p != NULL
  {
    if s == [] then []
    else
      var n := |s| - 1;
      NonNull(s[..n]) + if s[n] == NULL then [] else [s[n]]
  }

  lemma NextSlot(slots: seq<Ptr>, i: nat)
    requires i < |slots|
    ensures NonNull(slots[..i + 1]) == NonNull(slots[..i]) + if slots[i] == NULL then [] else [slots[i]]
  {
    assert slots[..i + 1][..i] == slots[..i];
  }

  /** Number of live slots. */
  function Live(s: seq<Ptr>): nat {
    |NonNull(s)|
  }

  /** Reference for the search: the lowest free slot at or after `from`, or the end of the list. */
  function FirstFree(s: seq<Ptr>, from: nat): (i: nat)
    requires from <= |s|
    ensures from <= i <= |s|
    ensures forall j :: from <= j < i ==> s[j] != NULL
    ensures i < |s| ==> s[i] == NULL
    decreases |s| - from
  {
    if from == |s| || s[from] == NULL then from else FirstFree(s, from + 1)
  }

  /** What every list keeps, whatever its users do: the hint is inside the list. */
  ghost predicate InBounds(l: SlotList) {
    l.freeIdx <= |l.slots|
  }

  /** What allocation lists keep: nothing below the hint is free. */
  ghost predicate HintExact(l: SlotList) {
    InBounds(l) && forall i :: 0 <= i < l.freeIdx ==> l.slots[i] != NULL
  }

  /** The list after a free slot has been found at `freeIdx`, growing the list when there is none. */
  function Reserve(l: SlotList): (r: SlotList)
    requires InBounds(l)
    ensures r.freeIdx < |r.slots| && r.slots[r.freeIdx] == NULL
    ensures l.slots <= r.slots
    ensures forall i :: |l.slots| <= i < |r.slots| ==> r.slots[i] == NULL
    ensures |r.slots| == |l.slots| || |r.slots| == 2 * |l.slots| || (l.slots == [] && |r.slots| == INITIAL_SIZE)
  {
    if l.slots == [] then SlotList(Nulls(INITIAL_SIZE), 0)
    else
      var i := FirstFree(l.slots, l.freeIdx);
      SlotList(if i == |l.slots| then l.slots + Nulls(|l.slots|) else l.slots, i)
  }

  /** The search loop of memContextNewIndex and memContextAllocNew. */
  method FindSlot(l: SlotList) returns (r: SlotList)
    requires InBounds(l)
    ensures r == Reserve(l)
  {
    if l.slots == [] {
      r := SlotList(Nulls(INITIAL_SIZE), 0);
    } else {
      var slots, freeIdx := l.slots, l.freeIdx;
      while freeIdx < |slots|
        invariant l.freeIdx <= freeIdx <= |slots|
        invariant FirstFree(slots, freeIdx) == FirstFree(slots, l.freeIdx)
      {
        if slots[freeIdx] == NULL { break; }
        freeIdx := freeIdx + 1;
      }
      if freeIdx == |slots| {
        slots := slots + Nulls(|slots|);
      }
      r := SlotList(slots, freeIdx);
    }
  }

  /** Occupy a free slot: the address goes where the search stopped and the hint moves past it. */
  function Take(l: SlotList, p: Ptr): (r: SlotList)
    requires InBounds(l)
    ensures InBounds(r)
  {
    var f := Reserve(l);
    SlotList(f.slots[f.freeIdx := p], f.freeIdx + 1)
  }

  /** Empty a slot: the hint moves down to it when it was above. */
  function Give(l: SlotList, i: nat): (r: SlotList)
    requires InBounds(l) && i < |l.slots|
    ensures InBounds(r)
  {
    SlotList(l.slots[i := NULL], if i < l.freeIdx then i else l.freeIdx)
  }

  // ---------------------------------------------------------------------------------------------
  // Runs of memNew, memResize and memFree against one allocation list

  datatype AllocOp = New(p: Ptr) | Resize(i: nat, q: Ptr) | Free(j: nat)

  ghost predicate Enabled(l: SlotList, op: AllocOp) {
    match op
    case New(p) => p != NULL
    case Resize(i, q) => i < |l.slots| && l.slots[i] != NULL && q != NULL
    case Free(j) => j < |l.slots| && l.slots[j] != NULL
  }

  ghost function Step(l: SlotList, op: AllocOp): (r: SlotList)
    requires InBounds(l) && Enabled(l, op)
    ensures InBounds(r)
  {
    match op
    case New(p) => Take(l, p)
    case Resize(i, q) => SlotList(l.slots[i := q], l.freeIdx)
    case Free(j) => Give(l, j)
  }

  /** A run is the list after each operation, the first being the uninitialized one. */
  ghost predicate Run(ls: seq<SlotList>, ops: seq<AllocOp>) {
    && |ls| == |ops| + 1
    && ls[0] == Uninitialized
    && forall k :: 0 <= k < |ops| ==> InBounds(ls[k]) && Enabled(ls[k], ops[k]) && ls[k + 1] == Step(ls[k], ops[k])
  }

  ghost function Peak(ls: seq<SlotList>): (n: nat)
    ensures forall k :: 0 <= k < |ls| ==> Live(ls[k].slots) <= n
    ensures n == 0 || exists k :: 0 <= k < |ls| && Live(ls[k].slots) == n
  {
    if ls == [] then 0
    else
      var n := Peak(ls[..|ls| - 1]);
      var last := Live(ls[|ls| - 1].slots);
      assert forall k :: 0 <= k < |ls| - 1 ==> ls[k] == ls[..|ls| - 1][k];
      if last > n then last else n
  }

  lemma {:induction false} LiveAll(s: seq<Ptr>)
    requires forall i :: 0 <= i < |s| ==> s[i] != NULL
    ensures Live(s) == |s|
  {
    if s != [] {
      LiveAll(s[..|s| - 1]);
    }
  }

  lemma HintExactStep(l: SlotList, op: AllocOp)
    requires HintExact(l) && Enabled(l, op)
    ensures HintExact(Step(l, op))
  {
    if op.New? && l.slots != [] {
      var i := FirstFree(l.slots, l.freeIdx);
      assert forall j :: 0 <= j < i ==> l.slots[j] != NULL;
    }
  }

  lemma {:induction false} RunKeepsHint(ls: seq<SlotList>, ops: seq<AllocOp>, k: nat)
    requires Run(ls, ops) && k < |ls|
    ensures HintExact(ls[k])
  {
    if k > 0 {
      RunKeepsHint(ls, ops, k - 1);
      HintExactStep(ls[k - 1], ops[k - 1]);
    }
  }

  /** Every memNew of every run takes the slot that a scan from slot 0 would find first, and the list
      grows only when every one of its slots is live. */
  lemma NewTakesLowest(ls: seq<SlotList>, ops: seq<AllocOp>, k: nat)
    requires Run(ls, ops) && k < |ops| && ops[k].New?
    ensures ls[k].slots != [] ==> Reserve(ls[k]).freeIdx == FirstFree(ls[k].slots, 0)
    ensures ls[k + 1].slots[FirstFree(ls[k].slots, 0)] == ops[k].p
    ensures |ls[k + 1].slots| != |ls[k].slots| ==> Live(ls[k].slots) == |ls[k].slots|
  {
    RunKeepsHint(ls, ops, k);
    var l := ls[k];
    assert forall j :: 0 <= j < l.freeIdx ==> l.slots[j] != NULL;
    if l.slots != [] {
      var i := FirstFree(l.slots, l.freeIdx);
      if i == |l.slots| {
        LiveAll(l.slots);
      }
    }
  }

  /** A list starts with four slots and doubles exactly when no slot from the hint on is free. */
  lemma GrowthExact(l: SlotList)
    requires InBounds(l)
    ensures |Reserve(l).slots| ==
      if l.slots == [] then 4
      else if exists i :: l.freeIdx <= i < |l.slots| && l.slots[i] == NULL then |l.slots|
      else 2 * |l.slots|
  {
    if l.slots != [] {
      var i := FirstFree(l.slots, l.freeIdx);
      assert i < |l.slots| ==> l.slots[i] == NULL;
    }
  }

  lemma StepSize(l: SlotList, op: AllocOp)
    requires InBounds(l) && Enabled(l, op)
    ensures |Step(l, op).slots| == |l.slots| || (op.New? && |Step(l, op).slots| <= 2 * |l.slots|)
      || |Step(l, op).slots| == INITIAL_SIZE
  {
  }

  /** The capacity of an allocation list is bounded by the most allocations that were ever live. */
  lemma {:induction false} CapacityBound(ls: seq<SlotList>, ops: seq<AllocOp>, k: nat)
    requires Run(ls, ops) && k < |ls|
    ensures |ls[k].slots| <= INITIAL_SIZE || |ls[k].slots| <= 2 * Peak(ls)
  {
    if k > 0 {
      CapacityBound(ls, ops, k - 1);
      var peak := Peak(ls);
      assert Live(ls[k - 1].slots) <= peak;
      StepSize(ls[k - 1], ops[k - 1]);
      if ops[k - 1].New? {
        NewTakesLowest(ls, ops, k - 1);
      }
    }
  }
}
