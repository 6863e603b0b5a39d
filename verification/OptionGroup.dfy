/** Groups of indexed options: the map from positions to key indexes, and its compaction once the positions
    that hold nothing but defaults are known. */
module OptionGroup {
  import opened Wrappers
  import opened OptionMerge

  // ---------------------------------------------------------------------------------------------
  // Keys in use

  /** Some option of the group has a value under this key index that was not reset. */
  ghost predicate InUse(list: Lists, ids: seq<nat>, k: nat) {
    exists i :: 0 <= i < |ids| && SlotAt(list, ids[i], k).found && !SlotAt(list, ids[i], k).reset
  }

  predicate Live(list: Lists, id: nat, k: nat) {
    SlotAt(list, id, k).found && !SlotAt(list, id, k).reset
  }

  function CountTrue(s: seq<bool>): (n: nat)
    ensures n <= |s|
  {
    if s == [] then 0 else CountTrue(s[..|s| - 1]) + (if s[|s| - 1] then 1 else 0)
  }

  lemma {:induction false} CountSet(s: seq<bool>, k: nat)
    requires k < |s| && !s[k]
    ensures CountTrue(s[k := true]) == CountTrue(s) + 1
  {
    var n := |s| - 1;
    if k < n {
      CountSet(s[..n], k);
      assert s[k := true][..n] == s[..n][k := true];
    } else {
      assert s[k := true][..n] == s[..n];
    }
  }

  lemma {:induction false} CountPrefix(s: seq<bool>, n: nat)
    requires n <= |s|
    ensures CountTrue(s[..n]) <= CountTrue(s)
    decreases |s|
  {
    if n == |s| {
      assert s[..n] == s;
    } else {
      CountPrefix(s[..|s| - 1], n);
      assert s[..|s| - 1][..n] == s[..n];
    }
  }

  /** Which key indexes the options of a group use, and how many. */
  method Scan(list: Lists, ids: seq<nat>) returns (used: seq<bool>, total: nat)
    requires forall i :: 0 <= i < |ids| ==> Total(list, ids[i]) <= CFG_OPTION_KEY_MAX
    ensures |used| == CFG_OPTION_KEY_MAX == 256 && total == CountTrue(used)
    ensures forall k: nat :: k < CFG_OPTION_KEY_MAX ==> (used[k] <==> InUse(list, ids, k))
  {
    used := seq(CFG_OPTION_KEY_MAX, _ => false);
    total := 0;
    NoneTrue(used);
    var i := 0;
    while i < |ids|
      invariant i <= |ids| && |used| == CFG_OPTION_KEY_MAX && total == CountTrue(used)
      invariant forall k: nat :: k < CFG_OPTION_KEY_MAX ==> (used[k] <==> InUse(list, ids[..i], k))
    {
      var id := ids[i];
      var before := used;
      var k := 0;
      while k < Total(list, id)
        invariant k <= Total(list, id) && |used| == CFG_OPTION_KEY_MAX && total == CountTrue(used)
        invariant forall j: nat :: j < CFG_OPTION_KEY_MAX ==> (used[j] <==> before[j] || (j < k && Live(list, id, j)))
      {
        if Live(list, id, k) && !used[k] {
          CountSet(used, k);
          total := total + 1;
          used := used[k := true];
        }
        k := k + 1;
      }
      assert forall j: nat :: j >= k ==> !Live(list, id, j);
      forall j: nat | j < CFG_OPTION_KEY_MAX ensures used[j] <==> InUse(list, ids[..i + 1], j) {
        InUseNext(list, ids, i, j);
      }
      i := i + 1;
    }
    assert ids[..i] == ids;
  }

  lemma InUseNext(list: Lists, ids: seq<nat>, i: nat, k: nat)
    requires i < |ids|
    ensures InUse(list, ids[..i + 1], k) <==> InUse(list, ids[..i], k) || Live(list, ids[i], k)
  {
    if InUse(list, ids[..i + 1], k) {
      var j :| 0 <= j < i + 1 && Live(list, ids[..i + 1][j], k);
      assert j < i ==> ids[..i][j] == ids[j];
    }
    if InUse(list, ids[..i], k) {
      var j :| 0 <= j < i && Live(list, ids[..i][j], k);
      assert ids[..i + 1][j] == ids[j];
    }
    if Live(list, ids[i], k) {
      assert ids[..i + 1][i] == ids[i];
    }
  }

  lemma {:induction false} NoneTrue(s: seq<bool>)
    requires forall i :: 0 <= i < |s| ==> !s[i]
    ensures CountTrue(s) == 0
  {
    if s != [] {
      NoneTrue(s[..|s| - 1]);
    }
  }

  // ---------------------------------------------------------------------------------------------
  // The index map

  ghost predicate Ascending(m: seq<nat>) {
    forall i, j :: 0 <= i < j < |m| ==> m[i] < m[j]
  }

  /** The map lists exactly the keys in use, in ascending order; with none in use it is key index 0. */
  ghost predicate MapOk(m: seq<nat>, used: seq<bool>) {
    && Ascending(m) && |m| > 0
    && (CountTrue(used) == 0 ==> m == [0])
    && (CountTrue(used) > 0 ==> |m| == CountTrue(used) && Covers(m, used))
  }

  ghost predicate Covers(m: seq<nat>, used: seq<bool>) {
    && (forall i :: 0 <= i < |m| ==> m[i] < |used| && used[m[i]])
    && (forall k: nat {:trigger k in m} :: k < |used| && used[k] ==> k in m)
  }

  /** The map after the key indexes below `k`. The pg group has key index 0 in any case. */
  ghost predicate Partial(m: seq<nat>, used: seq<bool>, k: nat, pg: bool) {
    && k <= |used| && Ascending(m) && (pg ==> k >= 1)
    && |m| == CountTrue(used[..k]) + (if pg && !used[0] then 1 else 0)
    && (forall i :: 0 <= i < |m| ==> m[i] < k && (used[m[i]] || (pg && m[i] == 0)))
    && (forall j: nat {:trigger j in m} :: j < k && used[j] ==> j in m)
  }

  lemma StartPartial(used: seq<bool>, pg: bool)
    requires |used| > 0
    ensures if pg then Partial([0], used, 1, pg) else Partial([], used, 0, pg)
  {
    assert used[..1] == [used[0]];
    assert CountTrue(used[..0]) == 0;
    assert CountTrue([used[0]]) == (if used[0] then 1 else 0);
  }

  lemma CountNext(used: seq<bool>, k: nat)
    requires k < |used|
    ensures CountTrue(used[..k + 1]) == CountTrue(used[..k]) + (if used[k] then 1 else 0) <= CountTrue(used)
  {
    assert used[..k + 1][..k] == used[..k];
    CountPrefix(used, k + 1);
  }

  lemma PartialNext(m: seq<nat>, used: seq<bool>, k: nat, pg: bool)
    requires Partial(m, used, k, pg) && k < |used|
    ensures Partial(if used[k] then m + [k] else m, used, k + 1, pg)
    ensures used[k] && |m| >= CountTrue(used) ==> pg && !used[0]
  {
    hide CountTrue;
    CountNext(used, k);
    if used[k] {
      var t := m + [k];
      forall i | 0 <= i < |t| ensures t[i] < k + 1 && (used[t[i]] || (pg && t[i] == 0)) {
        assert i < |m| ==> t[i] == m[i];
      }
      forall j: nat | j < k + 1 && used[j] ensures j in t {
        if j < k { assert j in m; }
      }
    }
  }

  lemma PartialDone(m: seq<nat>, used: seq<bool>, pg: bool)
    requires Partial(m, used, |used|, pg) && |m| <= CountTrue(used) && CountTrue(used) > 0
    ensures MapOk(m, used) && (pg ==> used[0]) && |m| == CountTrue(used)
  {
    assert used[..|used|] == used;
  }

  // ---------------------------------------------------------------------------------------------
  // What compaction keeps

  /** The positions from `i` on that hold a non-default value. */
  function KeptFrom(keep: seq<bool>, i: nat): (r: seq<nat>)
    requires i <= |keep|
    ensures forall j :: 0 <= j < |r| ==> i <= r[j] < |keep| && keep[r[j]]
    ensures Ascending(r)
    decreases |keep| - i
  {
    if i == |keep| then [] else (if keep[i] then [i] else []) + KeptFrom(keep, i + 1)
  }

  /** The positions left: those kept, or the first when none is. */
  function Survivors(keep: seq<bool>): seq<nat> {
    if KeptFrom(keep, 0) == [] then [0] else KeptFrom(keep, 0)
  }

  lemma {:induction false} KeptAll(keep: seq<bool>, i: nat, k: nat)
    requires i <= k < |keep| && keep[k]
    ensures k in KeptFrom(keep, i)
    decreases |keep| - i
  {
    if i < k {
      KeptAll(keep, i + 1, k);
    }
  }

  /** Nothing but the kept positions survives, in ascending order, and all of them do; with none kept it is
      the first position. */
  lemma SurvivorsExact(keep: seq<bool>)
    requires |keep| > 0
    ensures Ascending(Survivors(keep)) && Survivors(keep) != []
    ensures var r := Survivors(keep);
      if exists k :: 0 <= k < |keep| && keep[k]
      then forall k: nat {:trigger k in r} :: k in r <==> k < |keep| && keep[k]
      else r == [0]
  {
    forall k: nat | k < |keep| && keep[k] ensures k in KeptFrom(keep, 0) {
      KeptAll(keep, 0, k);
    }
  }

  /** The positions below `j`. */
  function Upto(j: nat): (r: seq<nat>)
    ensures |r| == j && forall i :: 0 <= i < j ==> r[i] == i
  {
    if j == 0 then [] else Upto(j - 1) + [j - 1]
  }

  /** All positions up to `j` and the kept ones behind. */
  function Remaining(keep: seq<bool>, j: nat): seq<nat>
    requires j <= |keep|
  {
    Upto(j) + KeptFrom(keep, j)
  }

  /** Looking at position `j`: a kept one stays, another is taken out. */
  lemma RemainingNext(keep: seq<bool>, j: nat)
    requires j < |keep|
    ensures |Remaining(keep, j + 1)| > j && Remaining(keep, j + 1)[j] == j
    ensures var r := Remaining(keep, j + 1);
      Remaining(keep, j) == if keep[j] then r else r[..j] + r[j + 1..]
  {
    var u, f := Upto(j), KeptFrom(keep, j + 1);
    var r := Remaining(keep, j + 1);
    assert r == u + [j] + f;
    if keep[j] {
      assert u + [j] + f == u + ([j] + f);
    } else {
      assert r[..j] == u && r[j + 1..] == f;
    }
  }

  lemma RemainingDone(keep: seq<bool>)
    ensures Remaining(keep, 0) == KeptFrom(keep, 0)
  {
    assert [] + KeptFrom(keep, 0) == KeptFrom(keep, 0);
  }

  function Pick<T>(s: seq<T>, at: seq<nat>): seq<T>
    requires forall i :: 0 <= i < |at| ==> at[i] < |s|
  {
    seq(|at|, i requires 0 <= i < |at| => s[at[i]])
  }

  /** The map after compaction: a single position left over gets key index 0 when position 0 was not kept. */
  function CompactMap(map0: seq<nat>, keep: seq<bool>): seq<nat>
    requires |map0| == |keep| > 0
  {
    if |Survivors(keep)| == 1 && !keep[0] then [0] else Pick(map0, Survivors(keep))
  }

  /** memmove by one place towards the front. */
  method MoveDown<T>(a: array<T>, at: nat, n: nat)
    requires at + 1 + n <= a.Length
    modifies a
    ensures forall i :: 0 <= i < a.Length ==> a[i] == if at <= i < at + n then old(a[i + 1]) else old(a[i])
  {
    var k := 0;
    while k < n
      invariant k <= n
      invariant forall i :: 0 <= i < a.Length ==> a[i] == if at <= i < at + k then old(a[i + 1]) else old(a[i])
    {
      a[at + k] := a[at + k + 1];
      k := k + 1;
    }
  }

  datatype ConfigValue = ConfigValue(isSet: bool, text: string)

  class Group {
    var indexTotal: nat
    var indexMap: array<nat>
    var options: seq<array<ConfigValue>>

    ghost predicate Valid()
      reads this
    {
      && 0 < indexTotal <= indexMap.Length
      && (forall o :: 0 <= o < |options| ==> indexTotal <= options[o].Length)
      && (forall o, p :: 0 <= o < p < |options| ==> options[o] != options[p])
    }

    ghost function Map(): seq<nat>
      reads this, indexMap
      requires indexTotal <= indexMap.Length
    {
      indexMap[..indexTotal]
    }

    constructor ()
      ensures fresh(indexMap)
    {
      indexTotal := 0;
      indexMap := new nat[0];
      options := [];
    }

    /** Writes the key indexes in use into the map. The pg group always starts with key index 0, so it runs
        past the space allocated exactly when that one is not in use; this is reported as `ok == false`. */
    method Resolve(used: seq<bool>, total: nat, pg: bool) returns (ok: bool)
      requires |used| == CFG_OPTION_KEY_MAX && total == CountTrue(used)
      modifies this`indexTotal, this`indexMap
      ensures fresh(indexMap)
      ensures ok <==> (pg && total > 0 ==> used[0])
      ensures ok ==> 0 < indexTotal <= indexMap.Length && MapOk(Map(), used)
    {
      hide Partial, Covers;
      indexMap := new nat[if total == 0 then 1 else total];
      if total == 0 {
        indexTotal := 1;
        indexMap[0] := 0;
        assert Map() == [0];
        return true;
      }
      indexTotal := total;
      var k, n := 0, 0;
      ghost var m: seq<nat> := [];
      if pg {
        indexMap[0] := 0;
        k, n, m := 1, 1, [0];
      }
      StartPartial(used, pg);
      while k < CFG_OPTION_KEY_MAX
        invariant k <= CFG_OPTION_KEY_MAX && n == |m| <= total == indexMap.Length == indexTotal && fresh(indexMap)
        invariant m == indexMap[..n] && Partial(m, used, k, pg)
      {
        PartialNext(m, used, k, pg);
        if used[k] {
          if n == indexMap.Length {
            return false;
          }
          indexMap[n] := k;
          m := m + [k];
          n := n + 1;
        }
        k := k + 1;
      }
      PartialDone(m, used, pg);
      ok := true;
    }

    /** The key of a position. */
    method IdxToKey(idx: nat) returns (key: nat)
      requires idx < indexTotal <= indexMap.Length
      ensures key == Map()[idx] + 1
    {
      key := indexMap[idx] + 1;
    }

    /** The position of a key, or nothing when the group does not have it. */
    method KeyToIdx(key: nat) returns (idx: Option<nat>)
      requires indexTotal <= indexMap.Length
      ensures idx.None? <==> forall i :: 0 <= i < indexTotal ==> Map()[i] + 1 != key
      ensures idx.Some? ==> idx.value < indexTotal && Map()[idx.value] + 1 == key
      ensures idx.Some? ==> forall i :: 0 <= i < idx.value ==> Map()[i] + 1 != key
    {
      var result := 0;
      while result < indexTotal
        invariant result <= indexTotal
        invariant forall i :: 0 <= i < result ==> indexMap[i] + 1 != key
      {
        assert Map()[result] == indexMap[result];
        if indexMap[result] + 1 == key {
          return Some(result);
        }
        result := result + 1;
      }
      idx := None;
    }

    /** Position to key and back again, and key to position and back. */
    method RoundTrips(idx: nat, key: nat) returns (a: Option<nat>, b: Option<nat>)
      requires idx < indexTotal <= indexMap.Length && Ascending(Map())
      ensures a == Some(idx)
      ensures b.Some? <==> exists i :: 0 <= i < indexTotal && Map()[i] + 1 == key
      ensures b.Some? ==> b == Some(key)
    {
      var k := IdxToKey(idx);
      a := KeyToIdx(k);
      var i := KeyToIdx(key);
      if i.None? {
        b := None;
      } else {
        var back := IdxToKey(i.value);
        b := Some(back);
      }
    }

    ghost function Values(o: nat): seq<ConfigValue>
      reads this, options
      requires o < |options| && indexTotal <= options[o].Length
    {
      options[o][..indexTotal]
    }

    ghost function AllValues(): (r: seq<seq<ConfigValue>>)
      reads this, indexMap, options
      requires Valid()
      ensures |r| == |options| && forall o: nat {:trigger Values(o)} {:trigger r[o]} :: o < |options| ==>
        r[o] == Values(o)
    {
      seq(|options|, o requires 0 <= o < |options| && indexTotal <= options[o].Length reads this, options =>
        options[o][..indexTotal])
    }

    /** Moves the values behind a position one place forward in every option of the group. */
    method ShiftOptions(at: nat)
      requires Valid() && at + 1 < indexTotal
      modifies set o | o in options
      ensures forall o: nat {:trigger Values(o)} :: o < |options| ==>
                Values(o)[..indexTotal - 1] == old(Values(o))[..at] + old(Values(o))[at + 1..]
    {
      var o := 0;
      while o < |options|
        invariant o <= |options|
        invariant forall p :: o <= p < |options| ==> options[p][..] == old(options[p][..])
        invariant forall p: nat :: p < o ==>
          options[p][..indexTotal - 1] == old(Values(p))[..at] + old(Values(p))[at + 1..]
      {
        assert options[o][..] == old(options[o][..]);
        MoveDown(options[o], at, indexTotal - at - 1);
        assert options[o][..indexTotal - 1] == old(Values(o))[..at] + old(Values(o))[at + 1..];
        o := o + 1;
      }
      forall p: nat | p < |options| ensures Values(p)[..indexTotal - 1] == options[p][..indexTotal - 1] {
      }
    }

    /** Takes one position out of the map and of every option of the group. */
    method Remove(at: nat)
      requires Valid() && at < indexTotal && indexTotal > 1
      modifies this`indexTotal, indexMap, set o | o in options
      ensures Valid() && indexTotal == old(indexTotal) - 1
      ensures Map() == old(Map())[..at] + old(Map())[at + 1..]
      ensures forall o: nat {:trigger Values(o)} :: o < |options| ==>
                Values(o) == old(Values(o))[..at] + old(Values(o))[at + 1..]
    {
      if at < indexTotal - 1 {
        MoveDown(indexMap, at, indexTotal - at - 1);
        assert indexMap[..indexTotal - 1] == old(Map())[..at] + old(Map())[at + 1..];
        ShiftOptions(at);
      }
      ghost var values := AllValues();
      indexTotal := indexTotal - 1;
      forall o: nat | o < |options| ensures Values(o) == old(Values(o))[..at] + old(Values(o))[at + 1..] {
        assert Values(o) == values[o][..indexTotal];
      }
    }

    /** The map and every option hold what they held at the positions `at`. */
    ghost predicate Holds(at: seq<nat>, map0: seq<nat>, values0: seq<seq<ConfigValue>>)
      reads this, indexMap, options
    {
      && Valid() && indexTotal == |at| && |options| == |values0|
      && (forall i :: 0 <= i < |at| ==> at[i] < |map0| && forall o :: 0 <= o < |values0| ==> at[i] < |values0[o]|)
      && Map() == Pick(map0, at)
      && forall o: nat {:trigger Values(o)} :: o < |options| ==> Values(o) == Pick(values0[o], at)
    }

    method Drop(k: nat, ghost at: seq<nat>, ghost map0: seq<nat>, ghost values0: seq<seq<ConfigValue>>)
      returns (ghost rest: seq<nat>)
      requires Holds(at, map0, values0) && k < indexTotal && indexTotal > 1
      modifies this`indexTotal, indexMap, set o | o in options
      ensures rest == at[..k] + at[k + 1..] && Holds(rest, map0, values0)
    {
      Remove(k);
      PickWithout(map0, at, k);
      rest := at[..k] + at[k + 1..];
      forall o: nat | o < |options| ensures Values(o) == Pick(values0[o], rest) {
        PickWithout(values0[o], at, k);
      }
    }

    /** Gives a single position key index 0 when the first one was not kept. */
    method Renumber(keepFirst: bool)
      requires Valid()
      modifies indexMap
      ensures Valid() && Map() == if indexTotal == 1 && !keepFirst then [0] else old(Map())
      ensures forall o: nat {:trigger Values(o)} :: o < |options| ==> Values(o) == old(Values(o))
    {
      if indexTotal == 1 && !keepFirst && indexMap[0] != 0 {
        indexMap[0] := 0;
      }
      assert indexTotal == 1 ==> Map() == [indexMap[0]];
    }

    /** Removes every position that holds nothing but defaults, from the last to the first, and leaves at
        least one. A single position left over gets key index 0 when position 0 was not kept. */
    method Compact(keep: seq<bool>)
      requires Valid() && |keep| == indexTotal
      modifies this`indexTotal, indexMap, set o | o in options
      ensures Valid()
      ensures indexTotal == |Survivors(keep)|
      ensures Map() == CompactMap(old(Map()), keep)
      ensures forall o: nat :: o < |options| ==> Values(o) == Pick(old(Values(o)), Survivors(keep))
    {
      hide Remaining, KeptFrom, Pick;
      ghost var map0 := Map();
      ghost var values0 := AllValues();
      ghost var at := Upto(indexTotal);
      RemainingAll(keep);
      PickAll(map0);
      forall o: nat | o < |options| ensures Values(o) == Pick(values0[o], at) { PickAll(values0[o]); }
      var keyIdx: nat := indexTotal;
      while keyIdx > 0
        invariant keyIdx <= |keep|
        invariant at == Remaining(keep, keyIdx) && Holds(at, map0, values0)
      {
        if indexTotal == 1 {
          break;
        }
        RemainingNext(keep, keyIdx - 1);
        if !keep[keyIdx - 1] {
          at := Drop(keyIdx - 1, at, map0, values0);
        }
        keyIdx := keyIdx - 1;
      }
      RemainingLast(keep, keyIdx);
      Renumber(keep[0]);
    }
  }

  lemma RemainingAll(keep: seq<bool>)
    ensures Remaining(keep, |keep|) == Upto(|keep|)
  {
  }

  lemma RemainingLast(keep: seq<bool>, j: nat)
    requires 0 < |keep| && j <= |keep| && (j == 0 || |Remaining(keep, j)| == 1)
    requires Remaining(keep, j) != []
    ensures Remaining(keep, j) == Survivors(keep)
  {
    RemainingDone(keep);
    if j > 0 {
      assert |Upto(j)| == 1 && KeptFrom(keep, 1) == [];
      assert KeptFrom(keep, 0) == if keep[0] then [0] else [];
      assert Upto(1)[0] == 0;
    }
  }

  lemma PickAll<T>(s: seq<T>)
    ensures Pick(s, Upto(|s|)) == s
  {
  }

  lemma PickWithout<T>(s: seq<T>, at: seq<nat>, k: nat)
    requires k < |at| && forall i :: 0 <= i < |at| ==> at[i] < |s|
    ensures Pick(s, at[..k] + at[k + 1..]) == Pick(s, at)[..k] + Pick(s, at)[k + 1..]
  {
  }

  /** Keys survive compaction unless a single position is left that was not a kept first one and has another
      key than 1; then it is given key 1. This is meant for a group of defaults only, and it also hits a
      single kept position behind the first. */
  lemma KeysKeptIff(map0: seq<nat>, keep: seq<bool>)
    requires |map0| == |keep| > 0 && Ascending(map0)
    ensures CompactMap(map0, keep) == Pick(map0, Survivors(keep)) <==>
            |KeptFrom(keep, 0)| >= 2 || keep[0] || (KeptFrom(keep, 0) == [] && map0[0] == 0)
  {
    var f, r := KeptFrom(keep, 0), Survivors(keep);
    if !keep[0] && |r| == 1 {
      var p := Pick(map0, r);
      assert p[0] == map0[r[0]];
      if f != [] {
        assert keep[f[0]] && f[0] > 0;
        assert map0[f[0]] > map0[0];
        assert p != [0];
      } else {
        assert p == [map0[0]];
      }
    }
  }

  /** Keys 1 and 2 of which only the second has a value that is no default: its value is left under key 1. */
  lemma SecondKeyRenamed()
    ensures Survivors([false, true]) == [1]
    ensures Pick([0, 1], [1]) == [1] && CompactMap([0, 1], [false, true]) == [0]
  {
    var keep := [false, true];
    assert KeptFrom(keep, 2) == [] && KeptFrom(keep, 1) == [1] && KeptFrom(keep, 0) == [1];
  }

  /** A pg option under key 2 and nothing under key 1: the map needs two places and is given one. */
  method SecondKeyOnly(id: nat) returns (total: nat, ok: bool)
    ensures total == 1 && !ok
  {
    var list: Lists := map[id := [EMPTY, Slot(true, false, false, true, ["/path"])]];
    var used;
    used, total := Scan(list, [id]);
    forall k: nat | k < CFG_OPTION_KEY_MAX ensures used[k] <==> k == 1 {
      assert InUse(list, [id], k) <==> Live(list, [id][0], k);
    }
    OneTrue(used, 1);
    var g := new Group();
    ok := g.Resolve(used, total, true);
  }

  lemma OneTrue(s: seq<bool>, k: nat)
    requires k < |s| && forall i :: 0 <= i < |s| ==> (s[i] <==> i == k)
    ensures CountTrue(s) == 1
  {
    NoneTrue(s[k := false]);
    CountSet(s[k := false], k);
    assert s[k := false][k := true] == s;
  }

  /** With two or more positions left the map stays ascending, so keys and positions still translate. */
  lemma KeptMapAscends(map0: seq<nat>, keep: seq<bool>)
    requires |map0| == |keep| > 0 && Ascending(map0)
    ensures Ascending(Pick(map0, Survivors(keep)))
  {
    hide KeptFrom;
    var r := Survivors(keep);
    var p := Pick(map0, r);
    forall i, j | 0 <= i < j < |p| ensures p[i] < p[j] {
      assert r[i] < r[j];
      assert p[i] == map0[r[i]] && p[j] == map0[r[j]];
    }
  }
}
