/** The context stack and its unwinding after an error.

    A stack entry is either a context that was switched to or a new context that is still waiting to be kept
    or discarded. `cur` is the highest switched-to entry; everything above it is new. */
module MemStack {
  import opened Slots
  import opened MemTree
  import opened MemTeardown

  const STACK_MAX: nat := 128

  datatype Entry = Entry(ctx: Ptr, isNew: bool, tryDepth: nat)

  datatype State = State(m: Contexts, r: Rank, stack: seq<Entry>, cur: nat)

  datatype Op =
    | New(p: Ptr, rec: MemContext, list: Ptr, depth: nat)
    | Switch(c: Ptr, depth: nat)
    | SwitchBack
    | Keep
    | Discard
    | Move(c: Ptr, to: Ptr, list: Ptr)
    | Free(c: Ptr)
    /** A TRY block of this depth inside the block at hand catches an error, and the stack is unwound to it. */
    | Catch(depth: nat, fatal: bool)

  // ---------------------------------------------------------------------------------------------
  // Invariant

  /** Entry `i` is the current one: the highest switched-to entry of the stack. */
  ghost predicate IsCurrent(s: seq<Entry>, i: nat) {
    i < |s| && !s[i].isNew && forall j :: i < j < |s| ==> s[j].isNew
  }

  function Current(s: seq<Entry>): (i: nat)
    requires |s| > 0 && !s[0].isNew
    ensures IsCurrent(s, i)
  {
    if s[|s| - 1].isNew then Current(s[..|s| - 1]) else |s| - 1
  }

  /** No context lower on the stack belongs to the subtree of a context waiting to be kept. */
  ghost predicate Clear(m: Contexts, r: Rank, s: seq<Entry>, j: nat, k: nat)
    requires Tree(m, r) && j < k < |s|
  {
    s[j].ctx in m && s[k].ctx in m && !Under(m, r, s[j].ctx, s[k].ctx)
  }

  ghost predicate Valid(s: State) {
    && Tree(s.m, s.r)
    && |s.stack| > 0 && s.stack[0] == Entry(TOP, false, 0)
    && IsCurrent(s.stack, s.cur)
    && (forall i :: 0 <= i < |s.stack| ==> s.stack[i].ctx in s.m)
    && (forall j, k {:trigger Clear(s.m, s.r, s.stack, j, k)} :: 0 <= j < k < |s.stack| && s.stack[k].isNew ==>
      Clear(s.m, s.r, s.stack, j, k))
  }

  ghost function CurrentCtx(s: State): (c: Ptr)
    requires Valid(s)
    ensures c in s.m
  {
    s.stack[s.cur].ctx
  }

  // ---------------------------------------------------------------------------------------------
  // Operations

  /** What the callers of each operation must respect. Pops stay above `base`. */
  ghost predicate Enabled(s: State, op: Op, base: nat, depth: nat)
    requires Valid(s)
  {
    match op
    case New(p, rec, list, d) =>
      && d >= depth && p !in s.m && p != NULL && Accepts(s.m[CurrentCtx(s)])
      && rec.child == Uninitialized && rec.alloc == Uninitialized && rec.parentIdx == 0
    case Switch(c, d) => d >= depth && c in s.m
    case SwitchBack => |s.stack| > base && |s.stack| > 1 && !s.stack[|s.stack| - 1].isNew
    case Keep => |s.stack| > base && s.stack[|s.stack| - 1].isNew
    case Discard => |s.stack| > base && s.stack[|s.stack| - 1].isNew && !ThrowsAt(s, |s.stack| - 1)
    case Move(c, to, list) => CanMove(s.m, s.r, c, to) && MoveFits(s, c, to)
    case Free(c) => c in s.m && FreeFits(s, c)
    case Catch(d, fatal) =>
      && d > depth && 0 < base <= |s.stack| && s.stack[base - 1].tryDepth < d
      && (fatal || !UnwindThrows(s, d))
  }

  /** Some callback runs and throws when the new context of entry `k` is freed. */
  ghost predicate ThrowsAt(s: State, k: nat)
    requires Tree(s.m, s.r) && k < |s.stack|
  {
    && s.stack[k].isNew && s.stack[k].ctx in s.m
    && exists x {:trigger Throws(s.m, x)} :: x in s.m && Throws(s.m, x) && Under(s.m, s.r, x, s.stack[k].ctx)
  }

  /** Unwinding to the try depth gets down to entry `k`. */
  ghost predicate Reached(s: State, k: nat, depth: nat) {
    k < |s.stack| && forall j :: k <= j < |s.stack| ==> s.stack[j].tryDepth >= depth
  }

  /** Some callback that unwinding to the try depth is to run throws. */
  ghost predicate UnwindThrows(s: State, depth: nat)
    requires Tree(s.m, s.r)
  {
    exists k: nat :: Reached(s, k, depth) && ThrowsAt(s, k)
  }

  /** Moving `c` does not bring the context of entry `j` below the new context of entry `k`. */
  ghost predicate StaysClear(s: State, c: Ptr, to: Ptr, j: nat, k: nat)
    requires Valid(s) && c in s.m && to in s.m && j < k < |s.stack|
  {
    Under(s.m, s.r, s.stack[j].ctx, c) ==> !Under(s.m, s.r, to, s.stack[k].ctx)
  }

  /** Moving `c` brings no context lower on the stack below a context waiting to be kept. */
  ghost predicate MoveFits(s: State, c: Ptr, to: Ptr)
    requires Valid(s) && c in s.m && to in s.m
  {
    forall j, k {:trigger StaysClear(s, c, to, j, k)} :: 0 <= j < k < |s.stack| && s.stack[k].isNew ==>
      StaysClear(s, c, to, j, k)
  }

  /** Freeing `c` frees no context on the stack. */
  ghost predicate FreeFits(s: State, c: Ptr)
    requires Valid(s) && c in s.m
  {
    forall i {:trigger s.stack[i]} :: 0 <= i < |s.stack| ==> s.stack[i].ctx in Freed(s.m, s.r, c)
  }

  ghost function AfterMove(s: State, c: Ptr, to: Ptr, list: Ptr): State
    requires CanMove(s.m, s.r, c, to)
  {
    MovedFacts(s.m, s.r, c, to, list);
    s.(m := Moved(s.m, c, to, list), r := Lift(s.r, s.m.Keys, Subtree(s.m, s.r, c), c))
  }

  ghost function AfterFree(s: State, c: Ptr): State
    requires Tree(s.m, s.r) && c in s.m
  {
    s.(m := Freed(s.m, s.r, c))
  }

  ghost function Pop(s: State): State
    requires |s.stack| > 1 && !s.stack[0].isNew
  {
    var t := s.stack[..|s.stack| - 1];
    s.(stack := t, cur := Current(t))
  }

  /** Free the context waiting on top of the stack. */
  ghost function FreeTop(s: State): State
    requires Valid(s) && s.stack[|s.stack| - 1].isNew
  {
    s.(m := Freed(s.m, s.r, s.stack[|s.stack| - 1].ctx))
  }

  ghost function Step(s: State, op: Op): State
    requires Valid(s) && Enabled(s, op, 1, 0)
  {
    match op
    case New(p, rec, list, d) =>
      s.(m := Insert(s.m, p, rec, CurrentCtx(s), true, list),
         r := Lift(s.r[p := 0], s.m.Keys + {p}, {p}, p),
         stack := s.stack + [Entry(p, true, d)])
    case Switch(c, d) => s.(stack := s.stack + [Entry(c, false, d)], cur := |s.stack|)
    case SwitchBack => Pop(s)
    case Keep => Pop(s)
    case Discard => Pop(FreeTop(s))
    case Move(c, to, list) => AfterMove(s, c, to, list)
    case Free(c) => AfterFree(s, c)
    case Catch(d, fatal) => Clean(s, d, fatal)
  }

  /** Where a context sits does not depend on the rank, nor on contexts that come or go elsewhere. */
  lemma {:induction false} UnderKept(m: Contexts, r: Rank, m': Contexts, r': Rank, x: Ptr, c: Ptr)
    requires Tree(m, r) && Tree(m', r') && x in m && x in m' && c in m && c in m'
    requires forall y :: y in m && y in m' ==> m'[y].parent == m[y].parent
    requires Under(m, r, x, c)
    ensures Under(m', r', x, c)
    decreases Gap(r, x, c)
  {
    if x != c {
      assert Linked(m, r, x);
      assert Linked(m', r', x);
      UnderKept(m, r, m', r', m[x].parent, c);
      UnderStep(m', r', x, c);
    }
  }

  lemma ClearKept(s: State, m': Contexts, r': Rank, t: seq<Entry>)
    requires Valid(s) && Tree(m', r') && t <= s.stack
    requires forall i :: 0 <= i < |t| ==> t[i].ctx in m'
    requires forall y :: y in s.m && y in m' ==> m'[y].parent == s.m[y].parent
    ensures forall j, k {:trigger Clear(m', r', t, j, k)} :: 0 <= j < k < |t| && t[k].isNew ==> Clear(m', r', t, j, k)
  {
    forall j, k | 0 <= j < k < |t| && t[k].isNew ensures Clear(m', r', t, j, k) {
      assert Clear(s.m, s.r, s.stack, j, k);
      if Under(m', r', t[j].ctx, t[k].ctx) {
        UnderKept(m', r', s.m, s.r, t[j].ctx, t[k].ctx);
      }
    }
  }

  /** Freeing the context on top of the stack never frees the current context, nor any other context on the
      stack. */
  lemma FreeTopFacts(s: State)
    requires Valid(s) && |s.stack| > 1 && s.stack[|s.stack| - 1].isNew
    ensures var n, f := s.stack[|s.stack| - 1].ctx, FreeTop(s);
      && n != TOP && Tree(f.m, s.r) && !Under(s.m, s.r, CurrentCtx(s), n)
      && (forall y :: y in f.m <==> y in s.m && !Under(s.m, s.r, y, n))
      && (forall y :: y in f.m ==> f.m[y].parent == s.m[y].parent)
      && Valid(Pop(f))
  {
    var top := |s.stack| - 1;
    var n, f := s.stack[top].ctx, FreeTop(s);
    assert Clear(s.m, s.r, s.stack, 0, top) && Clear(s.m, s.r, s.stack, s.cur, top);
    assert n != TOP by { UnderTop(s.m, s.r, TOP); }
    FreeKeepsTree(s.m, s.r, n);
    assert Linked(s.m, s.r, n);
    var t := s.stack[..top];
    forall i | 0 <= i < |t| ensures t[i].ctx in f.m { assert Clear(s.m, s.r, s.stack, i, top); }
    ClearKept(s, f.m, s.r, t);
  }

  lemma {:induction false} NoKidsUnder(m: Contexts, r: Rank, x: Ptr, c: Ptr)
    requires Tree(m, r) && x in m && c in m && Kids(m[c]) == [] && Under(m, r, x, c)
    ensures x == c
  {
    if x != c {
      var i := UnderSomeKid(m, r, x, c);
    }
  }

  // Where contexts sit after a move.

  lemma UnderParent(m: Contexts, r: Rank, x: Ptr, c: Ptr)
    requires Tree(m, r) && x in m && c in m
    ensures x != TOP ==> m[x].parent in m
    ensures Under(m, r, x, c) <==> x == c || (x != TOP && Under(m, r, m[x].parent, c))
  {
    if x != TOP {
      assert Linked(m, r, x);
      if Under(m, r, m[x].parent, c) { UnderStep(m, r, x, c); }
    }
  }

  /** A context outside the moved subtree stays where it is. */
  lemma {:induction false} MovedOutside(m: Contexts, r: Rank, m': Contexts, r': Rank, c: Ptr, x: Ptr, y: Ptr)
    requires Tree(m, r) && Tree(m', r') && m'.Keys == m.Keys && c in m && x in m && y in m && !Under(m, r, x, c)
    requires forall z :: z in m && z != c ==> m'[z].parent == m[z].parent
    ensures Under(m', r', x, y) <==> Under(m, r, x, y)
    decreases Gap(r, x, TOP)
  {
    hide Under;
    UnderParent(m, r, x, y);
    UnderParent(m', r', x, y);
    UnderParent(m, r, x, c);
    if x != TOP {
      assert Linked(m, r, x);
      RankTop(m, r, m[x].parent);
      MovedOutside(m, r, m', r', c, m[x].parent, y);
    }
  }

  /** A context of the moved subtree sits below what it sat below inside it, and below what the new parent sits
      below. */
  lemma {:induction false} MovedInside(m: Contexts, r: Rank, m': Contexts, r': Rank, c: Ptr, to: Ptr, x: Ptr, y: Ptr)
    requires Tree(m, r) && Tree(m', r') && m'.Keys == m.Keys && c in m && c != TOP && x in m && y in m
      && Under(m, r, x, c)
    requires to in m && !Under(m, r, to, c) && m'[c].parent == to
    requires forall z :: z in m && z != c ==> m'[z].parent == m[z].parent
    ensures Under(m', r', x, y) <==> (Under(m, r, x, y) && Under(m, r, y, c)) || Under(m, r, to, y)
    decreases Gap(r, x, TOP)
  {
    UnderParent(m, r, x, y);
    UnderParent(m', r', x, y);
    UnderParent(m, r, x, c);
    if x == c {
      MovedOutside(m, r, m', r', c, to, y);
    } else {
      assert Linked(m, r, x);
      RankTop(m, r, m[x].parent);
      MovedInside(m, r, m', r', c, to, m[x].parent, y);
    }
  }

  /** A move keeps the stack in order if and only if it fits. */
  lemma MoveKeepsStackIff(s: State, c: Ptr, to: Ptr, list: Ptr)
    requires Valid(s) && CanMove(s.m, s.r, c, to)
    ensures Valid(AfterMove(s, c, to, list)) <==> MoveFits(s, c, to)
  {
    hide Under, Moved;
    var t := AfterMove(s, c, to, list);
    MovedFacts(s.m, s.r, c, to, list);
    MoveKeepsTree(s.m, s.r, c, to, list);
    forall j, k | 0 <= j < k < |s.stack| && s.stack[k].isNew
      ensures Clear(t.m, t.r, t.stack, j, k) <==> StaysClear(s, c, to, j, k)
    {
      assert Clear(s.m, s.r, s.stack, j, k);
      if Under(s.m, s.r, s.stack[j].ctx, c) {
        MovedInside(s.m, s.r, t.m, t.r, c, to, s.stack[j].ctx, s.stack[k].ctx);
      } else {
        MovedOutside(s.m, s.r, t.m, t.r, c, s.stack[j].ctx, s.stack[k].ctx);
      }
    }
  }

  /** Freeing a context keeps the stack in order if and only if none on the stack is freed. */
  lemma FreeKeepsStackIff(s: State, c: Ptr)
    requires Valid(s) && c in s.m
    ensures Valid(AfterFree(s, c)) <==> FreeFits(s, c)
  {
    hide Under;
    var t := AfterFree(s, c);
    FreeKeepsTree(s.m, s.r, c);
    if FreeFits(s, c) {
      FreedParents(s.m, s.r, c);
      ClearKept(s, t.m, s.r, s.stack);
    }
  }

  lemma FreedParents(m: Contexts, r: Rank, c: Ptr)
    requires Tree(m, r) && c in m
    ensures forall y :: y in m && y in Freed(m, r, c) ==> Freed(m, r, c)[y].parent == m[y].parent
  {
  }

  lemma NewKeepsValid(s: State, op: Op)
    requires Valid(s) && op.New? && Enabled(s, op, 1, 0)
    ensures Valid(Step(s, op))
  {
    hide Under;
    var s', p, c := Step(s, op), op.p, CurrentCtx(s);
    NewKeepsTree(s.m, s.r, p, op.rec, c, op.list);
    assert s'.stack[..|s.stack|] == s.stack;
    ClearKept(s, s'.m, s'.r, s.stack);
    forall j, k | 0 <= j < k < |s'.stack| && s'.stack[k].isNew ensures Clear(s'.m, s'.r, s'.stack, j, k) {
      if k < |s.stack| {
        assert Clear(s'.m, s'.r, s.stack, j, k);
      } else if Under(s'.m, s'.r, s.stack[j].ctx, p) {
        NoKidsUnder(s'.m, s'.r, s.stack[j].ctx, p);
      }
    }
  }

  lemma SwitchKeepsValid(s: State, op: Op)
    requires Valid(s) && op.Switch? && Enabled(s, op, 1, 0)
    ensures Valid(Step(s, op))
  {
    hide Under;
    var s' := Step(s, op);
    forall j, k | 0 <= j < k < |s'.stack| && s'.stack[k].isNew ensures Clear(s'.m, s'.r, s'.stack, j, k) {
      assert Clear(s.m, s.r, s.stack, j, k);
    }
  }

  /** Every operation keeps the invariant. */
  lemma StepKeepsValid(s: State, op: Op)
    requires Valid(s) && Enabled(s, op, 1, 0)
    ensures Valid(Step(s, op))
  {
    hide Under, Moved, Freed, Insert, ThrowsAt, Clean;
    match op
    case New(_, _, _, _) => NewKeepsValid(s, op);
    case Switch(_, _) => SwitchKeepsValid(s, op);
    case SwitchBack => ClearKept(s, s.m, s.r, Step(s, op).stack);
    case Keep => ClearKept(s, s.m, s.r, Step(s, op).stack);
    case Discard => FreeTopFacts(s);
    case Move(c, to, list) => MoveKeepsStackIff(s, c, to, list);
    case Free(c) => FreeKeepsStackIff(s, c);
    case Catch(_, _) =>
  }

  // ---------------------------------------------------------------------------------------------
  // Unwinding

  /** Pop one entry, freeing a new context unless the error is fatal. */
  ghost function Unwind(s: State, fatal: bool): (f: State)
    requires Valid(s) && |s.stack| > 1
    ensures Valid(f) && f.stack <= s.stack && |f.stack| == |s.stack| - 1
  {
    if s.stack[|s.stack| - 1].isNew && !fatal then
      FreeTopFacts(s);
      Pop(FreeTop(s))
    else
      ClearKept(s, s.m, s.r, s.stack[..|s.stack| - 1]);
      Pop(s)
  }

  /** memContextClean: unwind everything pushed at or above the try depth. */
  ghost function Clean(s: State, depth: nat, fatal: bool): (f: State)
    requires Valid(s) && depth > 0
    ensures Valid(f)
    decreases |s.stack|
  {
    if s.stack[|s.stack| - 1].tryDepth < depth then s else Clean(Unwind(s, fatal), depth, fatal)
  }

  /** `x` belongs to the subtree of a new entry at or above `base`. */
  ghost predicate UnderNew(m: Contexts, r: Rank, t: seq<Entry>, base: nat, x: Ptr)
    requires Tree(m, r) && x in m
  {
    exists k :: base <= k < |t| && t[k].isNew && t[k].ctx in m && Under(m, r, x, t[k].ctx)
  }

  /** The contexts that unwinding down to `base` leaves. */
  ghost function Survivors(m: Contexts, r: Rank, t: seq<Entry>, fatal: bool, base: nat): set<Ptr>
    requires Tree(m, r)
  {
    set x | x in m && (fatal || !UnderNew(m, r, t, base, x))
  }

  lemma SurvivorsPopped(m: Contexts, r: Rank, t: seq<Entry>, t': seq<Entry>, fatal: bool, base: nat)
    requires Tree(m, r) && t' <= t && |t'| == |t| - 1 && (fatal || !t[|t| - 1].isNew)
    ensures Survivors(m, r, t', fatal, base) == Survivors(m, r, t, fatal, base)
  {
  }

  lemma SurvivorsFreed(m: Contexts, m': Contexts, r: Rank, t: seq<Entry>, t': seq<Entry>, base: nat)
    requires Tree(m, r) && Tree(m', r) && t' <= t && |t'| == |t| - 1 && base < |t|
    requires t[|t| - 1].isNew && t[|t| - 1].ctx in m
    requires forall y :: y in m' <==> y in m && !Under(m, r, y, t[|t| - 1].ctx)
    requires forall y :: y in m' ==> m'[y].parent == m[y].parent
    requires forall i :: 0 <= i < |t'| ==> t'[i].ctx in m'
    ensures Survivors(m', r, t', false, base) == Survivors(m, r, t, false, base)
  {
    hide Under;
    forall x | x in m ensures UnderNew(m, r, t, base, x) <==> x !in m' || UnderNew(m', r, t', base, x) {
      if x in m' {
        forall k | base <= k < |t'| && t'[k].isNew ensures Under(m', r, x, t'[k].ctx) == Under(m, r, x, t'[k].ctx) {
          UnderFrame(m, m', r, x, t'[k].ctx);
        }
      }
    }
  }

  /** The entries from `base` on, and only those among the topmost ones, were pushed at or above the try depth. */
  ghost predicate PushedSince(t: seq<Entry>, base: nat, depth: nat) {
    && 0 < base <= |t| && t[base - 1].tryDepth < depth
    && forall i :: base <= i < |t| ==> t[i].tryDepth >= depth
  }

  lemma FreeTopSurvivors(s: State, base: nat)
    requires Valid(s) && 0 < base < |s.stack| && s.stack[|s.stack| - 1].isNew
    ensures Valid(Pop(FreeTop(s)))
    ensures var f := Pop(FreeTop(s));
      Survivors(f.m, s.r, f.stack, false, base) == Survivors(s.m, s.r, s.stack, false, base)
  {
    hide Under, Survivors, IsCurrent, Freed;
    FreeTopFacts(s);
    SurvivorsFreed(s.m, FreeTop(s).m, s.r, s.stack, s.stack[..|s.stack| - 1], base);
  }

  /** One round of the unwinding loop. */
  lemma CleanRound(s: State, depth: nat, fatal: bool, base: nat) returns (f: State)
    requires Valid(s) && depth > 0 && PushedSince(s.stack, base, depth) && base < |s.stack|
    ensures Valid(f) && f.stack <= s.stack && |f.stack| == |s.stack| - 1
    ensures PushedSince(f.stack, base, depth)
    ensures Clean(s, depth, fatal) == Clean(f, depth, fatal)
    ensures Survivors(f.m, f.r, f.stack, fatal, base) == Survivors(s.m, s.r, s.stack, fatal, base)
  {
    hide Under, Freed, Tree, Survivors, IsCurrent;
    f := Unwind(s, fatal);
    if s.stack[|s.stack| - 1].isNew && !fatal {
      FreeTopSurvivors(s, base);
    } else {
      SurvivorsPopped(s.m, s.r, s.stack, f.stack, fatal, base);
    }
  }

  /** Unwinding pops exactly the entries above `base` and frees exactly the subtrees of the new ones; a fatal
      error frees nothing. */
  lemma {:induction false} CleanFrees(s: State, depth: nat, fatal: bool, base: nat)
    requires Valid(s) && depth > 0 && PushedSince(s.stack, base, depth)
    ensures Clean(s, depth, fatal).stack <= s.stack && |Clean(s, depth, fatal).stack| == base
    ensures Clean(s, depth, fatal).m.Keys == Survivors(s.m, s.r, s.stack, fatal, base)
    decreases |s.stack|
  {
    if base == |s.stack| {
      assert Survivors(s.m, s.r, s.stack, fatal, base) == s.m.Keys;
    } else {
      var f := CleanRound(s, depth, fatal, base);
      CleanFrees(f, depth, fatal, base);
    }
  }

  // ---------------------------------------------------------------------------------------------
  // Callbacks that throw while the stack is unwound

  /** Unwind until `n` entries are left. */
  ghost function UnwindTo(s: State, n: nat, fatal: bool): (f: State)
    requires Valid(s) && 0 < n <= |s.stack|
    ensures Valid(f) && f.stack == s.stack[..n] && f.r == s.r
    decreases |s.stack|
  {
    if |s.stack| == n then s else UnwindTo(Unwind(s, fatal), n, fatal)
  }

  lemma {:induction false} UnwindToNext(s: State, n: nat, fatal: bool)
    requires Valid(s) && 0 < n < |s.stack|
    ensures UnwindTo(s, n, fatal) == Unwind(UnwindTo(s, n + 1, fatal), fatal)
    decreases |s.stack|
  {
    hide Valid, Unwind;
    if n + 1 < |s.stack| {
      UnwindToNext(Unwind(s, fatal), n, fatal);
    }
  }

  lemma {:induction false} UnwindToFrees(s: State, n: nat, fatal: bool)
    requires Valid(s) && 0 < n <= |s.stack|
    ensures UnwindTo(s, n, fatal).m.Keys == Survivors(s.m, s.r, s.stack, fatal, n)
    decreases |s.stack|
  {
    hide Under, Freed, Tree, IsCurrent;
    if n < |s.stack| {
      var f := Unwind(s, fatal);
      if s.stack[|s.stack| - 1].isNew && !fatal {
        FreeTopSurvivors(s, n);
      } else {
        SurvivorsPopped(s.m, s.r, s.stack, f.stack, fatal, n);
      }
      UnwindToFrees(f, n, fatal);
    }
  }

  /** Freeing one context runs no callback of another one that is still to be freed, nor does it set any. */
  lemma UnwindKeepsThrows(s: State, j: nat)
    requires Valid(s) && j < |s.stack| - 1 && !ThrowsAt(s, |s.stack| - 1)
    ensures ThrowsAt(Unwind(s, false), j) <==> ThrowsAt(s, j)
  {
    hide Under, Freed, IsCurrent, Clear;
    var f := Unwind(s, false);
    var c := s.stack[j].ctx;
    if s.stack[|s.stack| - 1].isNew {
      FreeTopFacts(s);
      FreedCallbacks(s.m, s.r, s.stack[|s.stack| - 1].ctx);
      forall x | x in f.m ensures Under(f.m, s.r, x, c) <==> Under(s.m, s.r, x, c) { UnderFrame(s.m, f.m, s.r, x, c); }
    }
  }

  lemma FreedCallbacks(m: Contexts, r: Rank, c: Ptr)
    requires Tree(m, r) && c in m && c != TOP
    ensures forall y :: y in Freed(m, r, c) ==> y in m && (Throws(Freed(m, r, c), y) <==> Throws(m, y))
  {
    hide Under;
    FreeKeepsTree(m, r, c);
    assert Linked(m, r, c);
  }

  /** Entry `k` is the first from the top at which a callback throws. */
  ghost predicate StopsAt(s: State, k: nat, depth: nat)
    requires Tree(s.m, s.r)
  {
    Reached(s, k, depth) && ThrowsAt(s, k) && forall j: nat :: k < j < |s.stack| ==> !ThrowsAt(s, j)
  }

  /** What a callback of entry `k` leaves that throws: the entries above are gone, the context of the entry has been
      freed, and the entry is still on the stack. */
  ghost function Stopped(s: State, k: nat): State
    requires Valid(s) && k < |s.stack| && s.stack[k].isNew
  {
    FreeTop(UnwindTo(s, k + 1, false))
  }

  /** Unwinding has got from `s0` to `s`: none of the callbacks on the way threw, and those further down throw as
      before. */
  ghost predicate Unwinding(s0: State, s: State, depth: nat, fatal: bool) {
    && Valid(s0) && 0 < |s.stack| <= |s0.stack| && s == UnwindTo(s0, |s.stack|, fatal)
    && (forall j :: |s.stack| <= j < |s0.stack| ==> s0.stack[j].tryDepth >= depth)
    && (!fatal ==> forall j: nat :: |s.stack| <= j < |s0.stack| ==> !ThrowsAt(s0, j))
    && (!fatal ==> forall j: nat :: j < |s.stack| ==> (ThrowsAt(s, j) <==> ThrowsAt(s0, j)))
  }

  lemma UnwindingStarts(s: State, depth: nat, fatal: bool)
    requires Valid(s)
    ensures Unwinding(s, s, depth, fatal)
  {
    hide ThrowsAt, Tree, IsCurrent, Clear;
  }

  lemma UnwindingNext(s0: State, s: State, depth: nat, fatal: bool)
    requires Unwinding(s0, s, depth, fatal) && |s.stack| > 1 && s.stack[|s.stack| - 1].tryDepth >= depth
    requires fatal || !ThrowsAt(s, |s.stack| - 1)
    ensures Unwinding(s0, Unwind(s, fatal), depth, fatal)
  {
    hide ThrowsAt, Tree, IsCurrent, Clear, UnwindTo, Unwind;
    UnwindToNext(s0, |s.stack| - 1, fatal);
    if !fatal {
      forall j: nat | j < |s.stack| - 1 ensures ThrowsAt(Unwind(s, fatal), j) <==> ThrowsAt(s0, j) {
        UnwindKeepsThrows(s, j);
      }
    }
  }

  lemma UnwindingDone(s0: State, s: State, depth: nat, fatal: bool)
    requires Unwinding(s0, s, depth, fatal) && s.stack[|s.stack| - 1].tryDepth < depth
    ensures fatal || !UnwindThrows(s0, depth)
  {
    hide ThrowsAt, Tree, IsCurrent, Clear, UnwindTo, Unwind;
    assert s0.stack[|s.stack| - 1].tryDepth < depth;
  }

  lemma UnwindingStops(s0: State, s: State, depth: nat)
    requires Unwinding(s0, s, depth, false) && s.stack[|s.stack| - 1].tryDepth >= depth
    requires ThrowsAt(s, |s.stack| - 1)
    ensures UnwindThrows(s0, depth) && StopsAt(s0, |s.stack| - 1, depth)
    ensures s0.stack[|s.stack| - 1].isNew && FreeTop(s) == Stopped(s0, |s.stack| - 1)
  {
    hide Tree, IsCurrent, Clear, UnwindTo, Unwind, Under, Throws;
    assert ThrowsAt(s0, |s.stack| - 1);
    assert Reached(s0, |s.stack| - 1, depth);
  }

  lemma StopsOnce(s: State, depth: nat)
    requires Valid(s)
    ensures UnwindThrows(s, depth) <==> exists k: nat :: StopsAt(s, k, depth)
    ensures forall j: nat, k: nat :: StopsAt(s, j, depth) && StopsAt(s, k, depth) ==> j == k
  {
    hide ThrowsAt, Tree, Clear, IsCurrent;
    if UnwindThrows(s, depth) {
      var k: nat :| Reached(s, k, depth) && ThrowsAt(s, k);
      k := LastThrow(s, k);
      assert StopsAt(s, k, depth);
    }
  }

  lemma LastThrow(s: State, i: nat) returns (k: nat)
    requires Tree(s.m, s.r) && i < |s.stack| && ThrowsAt(s, i)
    ensures i <= k < |s.stack| && ThrowsAt(s, k) && forall j: nat :: k < j < |s.stack| ==> !ThrowsAt(s, j)
  {
    hide ThrowsAt, Tree;
    k := |s.stack| - 1;
    while !ThrowsAt(s, k)
      invariant i <= k < |s.stack| && forall j: nat :: k < j < |s.stack| ==> !ThrowsAt(s, j)
      decreases k
    {
      k := k - 1;
    }
  }

  /** A callback that throws leaves exactly the contexts below no new entry from its own on, and a stack whose top
      entry names a context that is gone: unwinding once more would free it a second time. */
  lemma StoppedFrees(s: State, k: nat)
    requires Valid(s) && k < |s.stack| && s.stack[k].isNew
    ensures var f := Stopped(s, k);
      && f.m.Keys == Survivors(s.m, s.r, s.stack, false, k)
      && f.stack == s.stack[..k + 1] && f.stack[k].ctx !in f.m && !Valid(f)
  {
    hide Under, Freed, Tree, IsCurrent, Clear;
    var t := UnwindTo(s, k + 1, false);
    FreeTopGone(t);
    UnwindToNext(s, k, false);
    UnwindToFrees(s, k, false);
  }

  /** A discard that throws leaves what unwinding that ends at the same entry leaves. */
  lemma DiscardStops(s: State, depth: nat)
    requires Valid(s) && |s.stack| > 1 && s.stack[|s.stack| - 1].tryDepth >= depth
    requires ThrowsAt(s, |s.stack| - 1)
    ensures StopsAt(s, |s.stack| - 1, depth) && Stopped(s, |s.stack| - 1) == FreeTop(s)
  {
    hide Tree, IsCurrent, Clear, Under, Throws;
    assert Reached(s, |s.stack| - 1, depth);
  }

  lemma FreeTopGone(s: State)
    requires Valid(s) && |s.stack| > 1 && s.stack[|s.stack| - 1].isNew
    ensures s.stack[|s.stack| - 1].ctx !in FreeTop(s).m
  {
    FreeTopFacts(s);
    var n := s.stack[|s.stack| - 1].ctx;
    assert Under(s.m, s.r, n, n);
  }

  // ---------------------------------------------------------------------------------------------
  // Runs inside a TRY block

  ghost predicate Run(ss: seq<State>, ops: seq<Op>, depth: nat) {
    && |ss| == |ops| + 1
    && (forall k :: 0 <= k < |ss| ==> Valid(ss[k]))
    && (forall k :: 0 <= k < |ops| ==> Enabled(ss[k], ops[k], |ss[0].stack|, depth) && ss[k + 1] == Step(ss[k], ops[k]))
  }

  /** How many of the entries with these try depths unwinding to the given one leaves. */
  function Left(o: seq<nat>, depth: nat): (n: nat)
    ensures n <= |o| && (n > 0 ==> o[n - 1] < depth) && forall i :: n <= i < |o| ==> o[i] >= depth
  {
    if o == [] || o[|o| - 1] < depth then |o| else Left(o[..|o| - 1], depth)
  }

  function Depths(t: seq<Entry>): (o: seq<nat>)
    ensures |o| == |t| && forall i :: 0 <= i < |t| ==> o[i] == t[i].tryDepth
  {
    seq(|t|, i requires 0 <= i < |t| => t[i].tryDepth)
  }

  lemma LeftIs(o: seq<nat>, depth: nat, n: nat)
    requires n <= |o| && (n > 0 ==> o[n - 1] < depth) && forall i :: n <= i < |o| ==> o[i] >= depth
    ensures Left(o, depth) == n
  {
  }

  /** What an operation does to the stack alone. */
  ghost predicate StackStep(t: seq<Entry>, op: Op, t': seq<Entry>, base: nat, depth: nat) {
    match op
    case New(p, _, _, d) => d >= depth && t' == t + [Entry(p, true, d)]
    case Switch(c, d) => d >= depth && t' == t + [Entry(c, false, d)]
    case Move(_, _, _) => t' == t
    case Free(_) => t' == t
    case Catch(d, _) => base <= |t| && t' == t[..base + Left(Depths(t[base..]), d)]
    case _ => |t| > base && t' == t[..|t| - 1]
  }

  ghost predicate StackRun(ts: seq<seq<Entry>>, ops: seq<Op>, depth: nat) {
    && |ts| == |ops| + 1
    && forall k :: 0 <= k < |ops| ==> StackStep(ts[k], ops[k], ts[k + 1], |ts[0]|, depth)
  }

  ghost function Stacks(ss: seq<State>): (ts: seq<seq<Entry>>)
    ensures |ts| == |ss| && forall k :: 0 <= k < |ss| ==> ts[k] == ss[k].stack
  {
    seq(|ss|, k requires 0 <= k < |ss| => ss[k].stack)
  }

  /** Unwinding leaves the entries up to the topmost one below the try depth. */
  lemma {:induction false} CleanLeaves(s: State, depth: nat, fatal: bool)
    requires Valid(s) && depth > 0
    ensures var n := |Clean(s, depth, fatal).stack|;
      && 0 < n <= |s.stack| && Clean(s, depth, fatal).stack == s.stack[..n] && s.stack[n - 1].tryDepth < depth
      && forall i :: n <= i < |s.stack| ==> s.stack[i].tryDepth >= depth
    decreases |s.stack|
  {
    hide Under, Freed, Tree, Unwind, IsCurrent, Clear;
    if s.stack[|s.stack| - 1].tryDepth >= depth {
      CleanLeaves(Unwind(s, fatal), depth, fatal);
    }
  }

  lemma CatchStack(s: State, op: Op, base: nat, depth: nat)
    requires Valid(s) && op.Catch? && Enabled(s, op, base, depth)
    ensures StackStep(s.stack, op, Step(s, op).stack, base, depth)
  {
    hide Tree, Clean, IsCurrent, Clear;
    CleanLeaves(s, op.depth, op.fatal);
    var n, t := |Step(s, op).stack|, s.stack[base..];
    assert n >= base;
    assert n > base ==> t[n - base - 1] == s.stack[n - 1];
    LeftIs(Depths(t), op.depth, n - base);
  }

  lemma RunStacks(ss: seq<State>, ops: seq<Op>, depth: nat)
    requires Run(ss, ops, depth)
    ensures StackRun(Stacks(ss), ops, depth)
  {
    forall k | 0 <= k < |ops| ensures StackStep(ss[k].stack, ops[k], ss[k + 1].stack, |ss[0].stack|, depth) {
      assert ss[k + 1] == Step(ss[k], ops[k]);
      if ops[k].Catch? { CatchStack(ss[k], ops[k], |ss[0].stack|, depth); }
    }
  }

  /** The try depths of the brackets that are open, read off the operations alone: a creation or switch opens one,
      a keep, discard or switch back closes the last, and an error caught closes those of its try depth. */
  function Open(ops: seq<Op>): seq<nat> {
    if ops == [] then [] else OpenStep(Open(ops[..|ops| - 1]), ops[|ops| - 1])
  }

  function OpenStep(o: seq<nat>, op: Op): seq<nat> {
    match op
    case New(_, _, _, d) => o + [d]
    case Switch(_, d) => o + [d]
    case Move(_, _, _) => o
    case Free(_) => o
    case Catch(d, _) => o[..Left(o, d)]
    case _ => if o == [] then [] else o[..|o| - 1]
  }

  lemma OpenNext(t: seq<Entry>, op: Op, t': seq<Entry>, base: nat, depth: nat)
    requires base <= |t| && StackStep(t, op, t', base, depth)
    ensures base <= |t'| && t'[..base] == t[..base]
    ensures Depths(t'[base..]) == OpenStep(Depths(t[base..]), op)
  {
    match op
    case New(_, _, _, _) => assert t'[base..] == t[base..] + [t'[|t|]];
    case Switch(_, _) => assert t'[base..] == t[base..] + [t'[|t|]];
    case Catch(d, _) =>
      var n := Left(Depths(t[base..]), d);
      assert t'[base..] == t[base..][..n];
    case Move(_, _, _) =>
    case Free(_) =>
    case _ => assert t'[base..] == t[base..][..|t| - base - 1];
  }

  function Net(ops: seq<Op>): nat {
    |Open(ops)|
  }

  /** Opening operations minus closing operations. */
  function Balance(ops: seq<Op>): int {
    if ops == [] then 0
    else
      var op := ops[|ops| - 1];
      Balance(ops[..|ops| - 1])
      + (if op.New? || op.Switch? then 1 else if op.Move? || op.Free? || op.Catch? then 0 else -1)
  }

  /** The context created by operation `i` has been neither kept nor discarded nor unwound after `n` operations: the
      brackets opened at `i` have not been closed. */
  ghost predicate Pending(ops: seq<Op>, n: nat, i: int) {
    && 0 <= i < n <= |ops| && ops[i].New?
    && forall k :: i < k <= n ==> Net(ops[..k]) > Net(ops[..i])
  }

  /** The stack is the one the block was entered with and on it the open brackets; where no error has been caught
      these are as many as there are openings less closings. */
  lemma {:induction false} NetIsHeight(ts: seq<seq<Entry>>, ops: seq<Op>, depth: nat, n: nat)
    requires StackRun(ts, ops, depth) && n <= |ops|
    ensures |ts[n]| == |ts[0]| + Net(ops[..n])
    ensures ts[0] <= ts[n]
    ensures Depths(ts[n][|ts[0]|..]) == Open(ops[..n])
    ensures forall j :: |ts[0]| <= j < |ts[n]| ==> ts[n][j].tryDepth >= depth
    ensures (forall k :: 0 <= k < n ==> !ops[k].Catch?) ==> Net(ops[..n]) == Balance(ops[..n])
  {
    if n > 0 {
      NetIsHeight(ts, ops, depth, n - 1);
      assert ops[..n][..n - 1] == ops[..n - 1];
      assert StackStep(ts[n - 1], ops[n - 1], ts[n], |ts[0]|, depth);
      OpenNext(ts[n - 1], ops[n - 1], ts[n], |ts[0]|, depth);
    }
  }

  lemma StackStepSame(t: seq<Entry>, op: Op, t': seq<Entry>, base: nat, depth: nat)
    requires StackStep(t, op, t', base, depth)
    ensures |t'| <= |t| + 1 && forall j :: 0 <= j < |t'| && j < |t| ==> t'[j] == t[j]
    ensures |t'| > |t| && t'[|t|].isNew ==> op.New? && t'[|t|] == Entry(op.p, true, op.depth)
    ensures op.New? ==> |t'| == |t| + 1 && t'[|t|].isNew
  {
  }

  /** The pending creation that a new entry came from, at the height where the entry sits. */
  lemma {:induction false} PendingAt(ts: seq<seq<Entry>>, ops: seq<Op>, depth: nat, n: nat, j: nat) returns (i: nat)
    requires StackRun(ts, ops, depth) && n <= |ops|
    requires |ts[0]| <= j < |ts[n]| && ts[n][j].isNew
    ensures Pending(ops, n, i) && ops[i].p == ts[n][j].ctx && |ts[i]| == j
  {
    hide StackStep, Net, Depths, Open, Balance;
    i := 0;
    NetIsHeight(ts, ops, depth, n);
    if n > 0 {
      StackStepSame(ts[n - 1], ops[n - 1], ts[n], |ts[0]|, depth);
      NetIsHeight(ts, ops, depth, n - 1);
      if j == |ts[n - 1]| {
        i := n - 1;
      } else {
        i := PendingAt(ts, ops, depth, n - 1, j);
        NetIsHeight(ts, ops, depth, i);
      }
    }
  }

  /** A pending creation is still on the stack. */
  lemma {:induction false} PendingOnStack(ts: seq<seq<Entry>>, ops: seq<Op>, depth: nat, n: nat, i: nat)
    requires StackRun(ts, ops, depth) && Pending(ops, n, i)
    ensures |ts[0]| <= |ts[i]| < |ts[n]|
    ensures ts[n][|ts[i]|] == Entry(ops[i].p, true, ops[i].depth)
    decreases n
  {
    hide StackStep, Net, Depths, Open, Balance;
    NetIsHeight(ts, ops, depth, n);
    NetIsHeight(ts, ops, depth, i);
    assert Net(ops[..n]) > Net(ops[..i]);
    StackStepSame(ts[n - 1], ops[n - 1], ts[n], |ts[0]|, depth);
    if i < n - 1 {
      PendingOnStack(ts, ops, depth, n - 1, i);
    }
  }

  /** `x` belongs to the subtree of a context created at height `h` of the block or above and left pending. */
  ghost predicate LeftBehindFrom(s: State, ops: seq<Op>, h: nat, x: Ptr)
    requires Valid(s) && x in s.m
  {
    exists i :: Pending(ops, |ops|, i) && Net(ops[..i]) >= h && ops[i].p in s.r && Under(s.m, s.r, x, ops[i].p)
  }

  ghost predicate LeftBehind(s: State, ops: seq<Op>, x: Ptr)
    requires Valid(s) && x in s.m
  {
    LeftBehindFrom(s, ops, 0, x)
  }

  /** Whatever a TRY block did to the stack and wherever an error cut it off, unwinding restores the stack
      and the current context to what they were when the block was entered, and frees exactly the subtrees
      of the contexts that were created in the block and neither kept nor discarded, if no callback of them
      throws. */
  lemma CleanAfterError(ss: seq<State>, ops: seq<Op>, depth: nat)
    requires depth > 0 && Run(ss, ops, depth)
    requires ss[0].stack[|ss[0].stack| - 1].tryDepth < depth
    ensures var s, f := ss[|ops|], Clean(ss[|ops|], depth, false);
      && f.stack == ss[0].stack && f.cur == ss[0].cur
      && Tree(f.m, f.r)
      && forall x :: x in f.m <==> x in s.m && !LeftBehind(s, ops, x)
    ensures var s := ss[|ops|];
      UnwindThrows(s, depth) <==> exists x :: x in s.m && LeftBehind(s, ops, x) && Throws(s.m, x)
  {
    hide Net, Clean, Step, Enabled, LeftBehindFrom, UnderNew, UnwindThrows, Under, Clear, Throws;
    var base, s := |ss[0].stack|, ss[|ops|];
    RunPushes(ss, ops, depth);
    CleanFrees(s, depth, false, base);
    ThrowsBelowNew(s, depth, base);
    forall x | x in s.m ensures UnderNew(s.m, s.r, s.stack, base, x) <==> LeftBehind(s, ops, x) {
      LeftBehindIsUnderNew(ss, ops, depth, 0, x);
    }
  }

  lemma RunPushes(ss: seq<State>, ops: seq<Op>, depth: nat)
    requires Run(ss, ops, depth) && ss[0].stack[|ss[0].stack| - 1].tryDepth < depth
    ensures ss[0].stack <= ss[|ops|].stack && PushedSince(ss[|ops|].stack, |ss[0].stack|, depth)
  {
    hide StackStep, Net, Open, Step, Enabled, Tree;
    RunStacks(ss, ops, depth);
    NetIsHeight(Stacks(ss), ops, depth, |ops|);
  }

  lemma ThrowsBelowNew(s: State, depth: nat, base: nat)
    requires Valid(s) && PushedSince(s.stack, base, depth)
    ensures UnwindThrows(s, depth) <==> exists x :: x in s.m && UnderNew(s.m, s.r, s.stack, base, x) && Throws(s.m, x)
    ensures forall k: nat :: Reached(s, k, depth) <==> base <= k < |s.stack|
  {
    hide Under, IsCurrent, Clear, Throws;
    if exists x :: x in s.m && UnderNew(s.m, s.r, s.stack, base, x) && Throws(s.m, x) {
      var x :| x in s.m && UnderNew(s.m, s.r, s.stack, base, x) && Throws(s.m, x);
      var k: nat :| base <= k < |s.stack| && s.stack[k].isNew && Under(s.m, s.r, x, s.stack[k].ctx);
      assert Reached(s, k, depth) && ThrowsAt(s, k);
    }
  }

  /** Where a callback throws, the contexts left behind from its height on are gone, those left behind below it
      still there, and the stack ends with the entry of a context that is gone. */
  lemma CutOffByThrow(ss: seq<State>, ops: seq<Op>, depth: nat, k: nat)
    requires depth > 0 && Run(ss, ops, depth)
    requires ss[0].stack[|ss[0].stack| - 1].tryDepth < depth && StopsAt(ss[|ops|], k, depth)
    ensures var base, s, f := |ss[0].stack|, ss[|ops|], Stopped(ss[|ops|], k);
      && base <= k < |s.stack| && f.stack == s.stack[..k + 1] && f.stack[k].ctx !in f.m && !Valid(f)
      && forall x :: x in f.m <==> x in s.m && !LeftBehindFrom(s, ops, k - base, x)
  {
    hide Net, Step, Enabled, LeftBehindFrom, UnderNew, Stopped, Under, Clear, Throws, IsCurrent, Tree;
    var base, s := |ss[0].stack|, ss[|ops|];
    RunPushes(ss, ops, depth);
    ThrowsBelowNew(s, depth, base);
    StoppedFrees(s, k);
    forall x | x in s.m ensures UnderNew(s.m, s.r, s.stack, k, x) <==> LeftBehindFrom(s, ops, k - base, x) {
      LeftBehindIsUnderNew(ss, ops, depth, k - base, x);
    }
  }

  lemma LeftBehindIsUnderNew(ss: seq<State>, ops: seq<Op>, depth: nat, h: nat, x: Ptr)
    requires Run(ss, ops, depth) && x in ss[|ops|].m
    ensures UnderNew(ss[|ops|].m, ss[|ops|].r, ss[|ops|].stack, |ss[0].stack| + h, x) <==>
            LeftBehindFrom(ss[|ops|], ops, h, x)
  {
    hide StackStep, Net, Open, Step, Under;
    var n, base, ts := |ops|, |ss[0].stack|, Stacks(ss);
    var s := ss[n];
    RunStacks(ss, ops, depth);
    if UnderNew(s.m, s.r, s.stack, base + h, x) {
      var k :| base + h <= k < |s.stack| && s.stack[k].isNew && Under(s.m, s.r, x, s.stack[k].ctx);
      var i := PendingAt(ts, ops, depth, n, k);
      NetIsHeight(ts, ops, depth, i);
    }
    if LeftBehindFrom(s, ops, h, x) {
      var i :| Pending(ops, |ops|, i) && Net(ops[..i]) >= h && ops[i].p in s.r && Under(s.m, s.r, x, ops[i].p);
      PendingOnStack(ts, ops, depth, n, i);
      NetIsHeight(ts, ops, depth, i);
      assert s.stack[|ts[i]|].ctx == ops[i].p;
    }
  }
}
