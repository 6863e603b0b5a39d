/** The lock list of one process: acquiring, writing and releasing, with every other process taking its own
    steps between any two system calls. */
module LockProcess {
  import opened Lock

  /** The descriptor of a lock made by a matching exec id. */
  const LOCK_ON_EXEC_ID: int := -2

  datatype LockFile = LockFile(name: Name, fd: int, written: bool)

  datatype Outcome = Done(result: bool) | AssertError | LockAcquireError | FileWriteError

  // ---------------------------------------------------------------------------------------------
  // The steps of one process in a run

  predicate StepOf(e: Step, p: Proc) {
    match e
    case LookOpen(_, _) => false
    case LookFlock(_) => false
    case LookClose(_) => false
    case _ => e.p == p
  }

  function Mine(es: seq<Step>, p: Proc): seq<Step> {
    if es == [] then []
    else Mine(es[..|es| - 1], p) + (if StepOf(es[|es| - 1], p) then [es[|es| - 1]] else [])
  }

  /** A process stands the same with a name in both states. */
  ghost predicate Same(s: State, t: State, p: Proc, n: Name) {
    At(t, p, n) == At(s, p, n) && (At(s, p, n) ==> t.phase[(p, n)] == s.phase[(p, n)])
  }

  /** The same for every name but one. */
  ghost predicate SameBut(s: State, t: State, p: Proc, n: Name) {
    forall m {:trigger Same(s, t, p, m)} :: m != n ==> Same(s, t, p, m)
  }

  lemma Chain(s: State, t: State, u: State, p: Proc, n: Name)
    requires SameBut(s, t, p, n) && SameBut(t, u, p, n)
    ensures SameBut(s, u, p, n)
  {
    forall m | m != n ensures Same(s, u, p, m) {
      assert Same(s, t, p, m) && Same(t, u, p, m);
    }
  }

  lemma OwnStepKeeps(s: State, e: Step, p: Proc, n: Name)
    requires Enabled(s, e) && StepOf(e, p) && !e.End? && e.n != n
    ensures Same(s, Next(s, e), p, n)
    ensures (p in Next(s, e).ended) == (p in s.ended)
  {
  }

  lemma OtherStepKeeps(s: State, e: Step, p: Proc, n: Name)
    requires Enabled(s, e) && !StepOf(e, p)
    ensures Same(s, Next(s, e), p, n)
    ensures (p in Next(s, e).ended) == (p in s.ended)
  {
  }

  lemma {:induction false} MineGrows(es: seq<Step>, fs: seq<Step>, p: Proc)
    requires es <= fs
    ensures |Mine(es, p)| <= |Mine(fs, p)|
  {
    if |es| < |fs| {
      MineGrows(es, fs[..|fs| - 1], p);
    } else {
      assert es == fs;
    }
  }

  /** However many steps the others take, a process stands where it stood. */
  lemma {:induction false} OthersKeep(es: seq<Step>, fs: seq<Step>, p: Proc, n: Name)
    requires es <= fs && IsRun(es) && IsRun(fs) && Mine(fs, p) == Mine(es, p)
    ensures Same(After(es), After(fs), p, n)
    ensures (p in After(fs).ended) == (p in After(es).ended)
  {
    if |es| < |fs| {
      var front := fs[..|fs| - 1];
      MineGrows(es, front, p);
      OthersKeep(es, front, p, n);
      OtherStepKeeps(After(front), fs[|fs| - 1], p, n);
    } else {
      assert es == fs;
    }
  }

  // ---------------------------------------------------------------------------------------------
  // The lock list

  /** Where a process stands with a name, as its lock list has it. */
  predicate Stands(s: State, p: Proc, f: LockFile) {
    && At(s, p, f.name)
    && (f.fd == LOCK_ON_EXEC_ID ==> s.phase[(p, f.name)].Sibling?)
    && (f.fd != LOCK_ON_EXEC_ID ==> s.phase[(p, f.name)].Holding?)
  }

  predicate Listed(held: seq<LockFile>, n: Name) {
    exists i :: 0 <= i < |held| && held[i].name == n
  }

  function ReleaseOne(f: LockFile, p: Proc): seq<Step> {
    if f.fd == LOCK_ON_EXEC_ID then [Forget(p, f.name)] else [Unlink(p, f.name), Close(p, f.name)]
  }

  /** The steps of a release: each own file is unlinked before its flock goes, in list order. */
  function ReleaseSteps(held: seq<LockFile>, p: Proc): seq<Step> {
    if held == [] then [] else ReleaseOne(held[0], p) + ReleaseSteps(held[1..], p)
  }

  lemma NoSteps(p: Proc)
    ensures ReleaseSteps([], p) == []
  {
  }

  lemma ReleaseNext(done: seq<Step>, held: seq<LockFile>, p: Proc)
    requires held != []
    ensures done + ReleaseSteps(held, p) == done + ReleaseOne(held[0], p) + ReleaseSteps(held[1..], p)
  {
    assert ReleaseSteps(held, p) == ReleaseOne(held[0], p) + ReleaseSteps(held[1..], p);
  }

  /** A list without doubles whose names stand as listed, and nothing else does. */
  ghost predicate Agrees(s: State, p: Proc, held: seq<LockFile>) {
    && (forall i, j :: 0 <= i < j < |held| ==> held[i].name != held[j].name)
    && (forall i {:trigger held[i]} :: 0 <= i < |held| ==> Stands(s, p, held[i]))
    && (forall n {:trigger At(s, p, n)} :: At(s, p, n) ==> Listed(held, n))
  }

  lemma FirstGone(s: State, t: State, p: Proc, held: seq<LockFile>)
    requires Agrees(s, p, held) && held != [] && !At(t, p, held[0].name)
    requires SameBut(s, t, p, held[0].name)
    ensures Agrees(t, p, held[1..])
  {
    var rest := held[1..];
    forall i | 0 <= i < |rest| ensures Stands(t, p, rest[i]) {
      assert Stands(s, p, held[i + 1]) && Same(s, t, p, rest[i].name);
    }
    forall n | At(t, p, n) ensures Listed(rest, n) {
      assert n != held[0].name && Same(s, t, p, n);
      var i :| 0 <= i < |held| && held[i].name == n;
      assert rest[i - 1].name == n;
    }
  }

  /** Writing one lock changes neither what it stands for nor any other. */
  lemma StillAgrees(s: State, t: State, p: Proc, held: seq<LockFile>, i: nat)
    requires Agrees(s, p, held) && i < |held|
    requires Stands(t, p, held[i])
    requires SameBut(s, t, p, held[i].name)
    ensures Agrees(t, p, held[i := held[i].(written := true)])
  {
    var list := held[i := held[i].(written := true)];
    forall j | 0 <= j < |list| ensures Stands(t, p, list[j]) {
      assert Stands(s, p, held[j]);
      if j != i { assert Same(s, t, p, held[j].name); }
    }
    forall n | At(t, p, n) ensures Listed(list, n) {
      if n == held[i].name {
        assert list[i].name == n;
      } else {
        assert Same(s, t, p, n);
        var j :| 0 <= j < |held| && held[j].name == n;
        assert list[j].name == n;
      }
    }
  }

  /** A name taken and given up again leaves the list as it was. */
  lemma Unlisted(s: State, t: State, p: Proc, held: seq<LockFile>, n: Name)
    requires Agrees(s, p, held) && !Listed(held, n) && !At(t, p, n)
    requires SameBut(s, t, p, n)
    ensures Agrees(t, p, held)
  {
    forall j | 0 <= j < |held| ensures Stands(t, p, held[j]) {
      assert Stands(s, p, held[j]) && Same(s, t, p, held[j].name);
    }
    forall m | At(t, p, m) ensures Listed(held, m) {
      assert Same(s, t, p, m);
    }
  }

  lemma OneMore(s: State, t: State, p: Proc, held: seq<LockFile>, f: LockFile)
    requires Agrees(s, p, held) && !Listed(held, f.name) && Stands(t, p, f)
    requires SameBut(s, t, p, f.name)
    ensures Agrees(t, p, held + [f])
  {
    var list := held + [f];
    forall j | 0 <= j < |list| ensures Stands(t, p, list[j]) {
      if j < |held| { assert Stands(s, p, held[j]) && Same(s, t, p, held[j].name); }
    }
    forall n | At(t, p, n) ensures Listed(list, n) {
      if n == f.name {
        assert list[|held|].name == n;
      } else {
        assert Same(s, t, p, n);
        var j :| 0 <= j < |held| && held[j].name == n;
        assert list[j].name == n;
      }
    }
  }

  lemma OpenPhase(s: State, p: Proc, n: Name)
    requires p !in s.ended && !At(s, p, n)
    ensures var t := Next(s, Open(p, n)); At(t, p, n) && t.phase[(p, n)].Opened?
  {
  }

  lemma FlockPhase(s: State, p: Proc, n: Name)
    requires At(s, p, n) && s.phase[(p, n)].Opened?
    ensures var t, i := Next(s, Flock(p, n)), s.phase[(p, n)].ino;
      At(t, p, n) && t.phase[(p, n)] == if i in s.flocked then Refused(i) else Holding(i, false)
  {
  }

  lemma WritePhases(s: State, p: Proc, n: Name)
    requires At(s, p, n) && s.phase[(p, n)].Holding?
    ensures var t := Next(s, WriteBegin(p, n)); At(t, p, n) && t.phase[(p, n)] == Holding(s.phase[(p, n)].ino, true)
    ensures s.phase[(p, n)].writing ==> var t, i := Next(s, WriteEnd(p, n)), s.phase[(p, n)].ino;
      At(t, p, n) && t.phase[(p, n)] == Holding(i, false) && SameExecId(t, i, p)
  {
  }

  lemma ReleasePhases(s: State, p: Proc, n: Name)
    requires At(s, p, n) && s.phase[(p, n)].Holding?
    ensures var t := Next(s, Unlink(p, n)); At(t, p, n) && t.phase[(p, n)].Unlinked?
  {
  }

  lemma ClosePhase(s: State, p: Proc, n: Name)
    requires At(s, p, n) && s.phase[(p, n)].Unlinked?
    ensures !At(Next(s, Close(p, n)), p, n)
  {
  }

  lemma Two(es: seq<Step>, a: Step, b: Step)
    ensures es + [a] + [b] == es + [a, b]
  {
  }

  /** The last step of the run is that of a refused process reading the file; `own` tells whether the text it read is
      its own exec id. */
  ghost predicate ReadAtEnd(es: seq<Step>, p: Proc, n: Name, own: bool) {
    && es != [] && es[|es| - 1] == ReadClose(p, n) && IsRun(es[..|es| - 1])
    && var s := After(es[..|es| - 1]);
      && At(s, p, n) && s.phase[(p, n)].Refused?
      && var i := s.phase[(p, n)].ino;
        own <==> i in s.content && s.content[i] == Text(p.execId)
  }

  class Locks {
    const me: Proc
    var held: seq<LockFile>
    var sys: State
    ghost var es: seq<Step>

    /** The list and the system agree: listed names are held, all others are idle. */
    ghost predicate Valid()
      reads this
    {
      IsRun(es) && After(es) == sys && me !in sys.ended && Agrees(sys, me, held)
    }

    /** A system call of this process. */
    method Do(e: Step)
      requires IsRun(es) && After(es) == sys && Enabled(sys, e) && StepOf(e, me) && !e.End?
      modifies this`sys, this`es
      ensures IsRun(es) && After(es) == sys && sys == Next(old(sys), e)
      ensures es == old(es) + [e] && Mine(es, me) == Mine(old(es), me) + [e]
      ensures SameBut(old(sys), sys, me, e.n)
      ensures me in sys.ended <==> me in old(sys).ended
    {
      forall n | n != e.n ensures Same(sys, Next(sys, e), me, n) {
        OwnStepKeeps(sys, e, me, n);
      }
      assert me in Next(sys, e).ended <==> me in sys.ended;
      sys := Next(sys, e);
      es := es + [e];
      assert es[..|es| - 1] == old(es);
    }

    /** Any steps of the others: the contract leaves open how many there are and which. */
    method Others()
      requires IsRun(es) && After(es) == sys
      modifies this`sys, this`es
      ensures IsRun(es) && After(es) == sys
      ensures old(es) <= es && Mine(es, me) == Mine(old(es), me)
    {
    }

    /** The same, with what it leaves unchanged for this process. */
    method Elsewhere()
      requires IsRun(es) && After(es) == sys
      modifies this`sys, this`es
      ensures IsRun(es) && After(es) == sys
      ensures old(es) <= es && Mine(es, me) == Mine(old(es), me)
      ensures forall n {:trigger Same(old(sys), sys, me, n)} :: Same(old(sys), sys, me, n)
      ensures me in sys.ended <==> me in old(sys).ended
    {
      Others();
      forall n ensures Same(old(sys), sys, me, n) {
        OthersKeep(old(es), es, me, n);
      }
      OthersKeep(old(es), es, me, "");
    }

    constructor (p: Proc)
      ensures Valid() && me == p && held == [] && es == []
    {
      me := p;
      held := [];
      sys := START;
      es := [];
    }

    /** Looks a lock file up by name. */
    method Find(n: Name) returns (i: nat)
      ensures i <= |held| && (i < |held| ==> held[i].name == n)
      ensures i == |held| <==> !Listed(held, n)
    {
      i := 0;
      while i < |held|
        invariant i <= |held| && forall j :: 0 <= j < i ==> held[j].name != n
      {
        if held[i].name == n {
          return;
        }
        i := i + 1;
      }
    }

    /** Open, then flock without waiting. A refused flock counts as a lock when the file names this exec id. */
    method TryLock(n: Name) returns (fd: int)
      requires IsRun(es) && After(es) == sys && me !in sys.ended && !At(sys, me, n)
      modifies this`sys, this`es
      ensures IsRun(es) && After(es) == sys && me !in sys.ended
      ensures SameBut(old(sys), sys, me, n)
      ensures fd == -1 || fd == LOCK_ON_EXEC_ID || fd >= 0
      ensures fd == -1 <==> !At(sys, me, n)
      ensures fd == LOCK_ON_EXEC_ID ==> sys.phase[(me, n)].Sibling?
      ensures fd >= 0 ==> sys.phase[(me, n)] == Holding(fd, false)
      ensures old(es) <= es
      ensures Mine(es, me)
        == Mine(old(es), me) + [Open(me, n), Flock(me, n)] + (if fd >= 0 then [] else [ReadClose(me, n)])
      ensures fd < 0 ==> ReadAtEnd(es, me, n, fd == LOCK_ON_EXEC_ID)
    {
      hide Mine, IsRun, After, Next;
      var i, busy := OpenAndFlock(n);
      fd := i;
      if busy {
        ghost var s0, s1 := old(sys), sys;
        fd := ReadExecId(n);
        Chain(s0, s1, sys, me, n);
      }
    }

    /** The file is opened, and its flock is either taken or refused. */
    method OpenAndFlock(n: Name) returns (i: Inode, busy: bool)
      requires IsRun(es) && After(es) == sys && me !in sys.ended && !At(sys, me, n)
      modifies this`sys, this`es
      ensures IsRun(es) && After(es) == sys && me !in sys.ended
      ensures SameBut(old(sys), sys, me, n)
      ensures At(sys, me, n) && sys.phase[(me, n)] == if busy then Refused(i) else Holding(i, false)
      ensures old(es) <= es && Mine(es, me) == Mine(old(es), me) + [Open(me, n), Flock(me, n)]
    {
      hide Mine, IsRun, After, Next;
      ghost var s0 := sys;
      Elsewhere();
      assert Same(s0, sys, me, n);
      ghost var s1 := sys;
      OpenPhase(sys, me, n);
      Do(Open(me, n));
      ghost var s2 := sys;
      Elsewhere();
      assert Same(s2, sys, me, n);
      ghost var s3 := sys;
      i := sys.phase[(me, n)].ino;
      busy := i in sys.flocked;
      FlockPhase(sys, me, n);
      Do(Flock(me, n));
      Chain(s0, s1, s2, me, n);
      Chain(s0, s2, s3, me, n);
      Chain(s0, s3, sys, me, n);
      Two(Mine(old(es), me), Open(me, n), Flock(me, n));
    }

    method ReadExecId(n: Name) returns (fd: int)
      requires IsRun(es) && After(es) == sys && me !in sys.ended && At(sys, me, n) && sys.phase[(me, n)].Refused?
      modifies this`sys, this`es
      ensures IsRun(es) && After(es) == sys && me !in sys.ended
      ensures SameBut(old(sys), sys, me, n)
      ensures fd == -1 || fd == LOCK_ON_EXEC_ID
      ensures fd == -1 <==> !At(sys, me, n)
      ensures fd == LOCK_ON_EXEC_ID ==> sys.phase[(me, n)].Sibling?
      ensures old(es) <= es && Mine(es, me) == Mine(old(es), me) + [ReadClose(me, n)]
      ensures ReadAtEnd(es, me, n, fd == LOCK_ON_EXEC_ID)
    {
      ghost var s0 := sys;
      Elsewhere();
      assert Same(s0, sys, me, n);
      ghost var s1 := sys;
      var same := SameExecId(sys, sys.phase[(me, n)].ino, me);
      ghost var es1 := es;
      ReadDecides(sys, me, n);
      Do(ReadClose(me, n));
      assert es[..|es| - 1] == es1;
      Chain(s0, s1, sys, me, n);
      fd := if same then LOCK_ON_EXEC_ID else -1;
    }

    /** Write: the file reads as this process's text at the end, and only a lock of its own can be written. */
    method Write(n: Name) returns (out: Outcome)
      requires Valid()
      modifies this
      ensures Valid() && |held| == |old(held)| && old(es) <= es
      ensures out == Done(true) || out == AssertError || out == FileWriteError
      ensures out == AssertError <==> !Listed(old(held), n)
      ensures !out.Done? ==> held == old(held) && es == old(es)
      ensures forall i :: 0 <= i < |old(held)| && old(held)[i].name == n ==>
                (out == FileWriteError <==> old(held)[i].fd == LOCK_ON_EXEC_ID)
      ensures out.Done? ==> Mine(es, me) == Mine(old(es), me) + [WriteBegin(me, n), WriteEnd(me, n)]
      ensures out.Done? ==> At(sys, me, n) && sys.phase[(me, n)].Holding? && SameExecId(sys, sys.phase[(me, n)].ino, me)
      ensures out.Done? ==> old(At(sys, me, n)) && !old(sys.phase[(me, n)]).Sibling?
      ensures out.Done? ==> var i := old(sys.phase[(me, n)]).ino;
        sys.phase[(me, n)] == Holding(i, false) && i in sys.content && sys.content[i] == Text(me.execId)
      ensures forall i :: 0 <= i < |held| ==>
                held[i] == if old(held)[i].name == n && out.Done? then old(held)[i].(written := true) else old(held)[i]
    {
      var i := Find(n);
      if i == |held| {
        return AssertError;
      }
      assert Stands(sys, me, held[i]);
      if held[i].fd == LOCK_ON_EXEC_ID {
        return FileWriteError;
      }
      WriteOwn(n);
      held := held[i := held[i].(written := true)];
      StillAgrees(old(sys), sys, me, old(held), i);
      out := Done(true);
    }

    method WriteOwn(n: Name)
      requires IsRun(es) && After(es) == sys && me !in sys.ended && At(sys, me, n) && sys.phase[(me, n)].Holding?
      modifies this`sys, this`es
      ensures IsRun(es) && After(es) == sys && me !in sys.ended
      ensures At(sys, me, n) && sys.phase[(me, n)] == Holding(old(sys).phase[(me, n)].ino, false)
      ensures SameExecId(sys, sys.phase[(me, n)].ino, me)
      ensures SameBut(old(sys), sys, me, n)
      ensures old(es) <= es && Mine(es, me) == Mine(old(es), me) + [WriteBegin(me, n), WriteEnd(me, n)]
    {
      hide Mine, IsRun, After, Next;
      ghost var s0 := sys;
      Elsewhere();
      assert Same(s0, sys, me, n);
      ghost var s1 := sys;
      WritePhases(sys, me, n);
      Do(WriteBegin(me, n));
      ghost var s2 := sys;
      Elsewhere();
      assert Same(s2, sys, me, n);
      ghost var s3 := sys;
      WritePhases(sys, me, n);
      Do(WriteEnd(me, n));
      Chain(s0, s1, s2, me, n);
      Chain(s0, s2, s3, me, n);
      Chain(s0, s3, sys, me, n);
      Two(Mine(old(es), me), WriteBegin(me, n), WriteEnd(me, n));
    }

    /** Acquire. A lock of its own is written and, as long as no flock went stale, nobody else holds it. */
    method Acquire(n: Name, openFails: bool, returnOnNoLock: bool) returns (out: Outcome)
      requires Valid()
      modifies this
      ensures Valid() && old(es) <= es
      ensures out == AssertError <==> Listed(old(held), n)
      ensures out == LockAcquireError ==> openFails || !returnOnNoLock
      ensures out == Done(false) ==> !openFails && returnOnNoLock
      ensures out != FileWriteError
      ensures openFails && !Listed(old(held), n) ==> out == LockAcquireError
      ensures out != Done(true) ==> held == old(held)
      ensures out == AssertError || openFails ==> es == old(es)
      ensures out != AssertError && out != Done(true) && !openFails ==>
                && Mine(es, me) == Mine(old(es), me) + [Open(me, n), Flock(me, n), ReadClose(me, n)]
                && ReadAtEnd(es, me, n, false)
      ensures out == Done(true) ==>
        |held| == |old(held)| + 1 && held[..|held| - 1] == old(held) && held[|held| - 1].name == n
      ensures out == Done(true) && held[|held| - 1].fd != LOCK_ON_EXEC_ID ==>
                held[|held| - 1].written
                && Mine(es, me) == Mine(old(es), me) + [Open(me, n), Flock(me, n), WriteBegin(me, n), WriteEnd(me, n)]
                && held[|held| - 1].fd in sys.flocked && sys.flocked[held[|held| - 1].fd] == Holder(me, n)
                && held[|held| - 1].fd in sys.content && sys.content[held[|held| - 1].fd] == Text(me.execId)
                && (AlwaysFresh(es) ==> forall q :: Enabled(sys, Unlink(q, n)) ==> q == me)
      ensures out == Done(true) && held[|held| - 1].fd == LOCK_ON_EXEC_ID ==>
                At(sys, me, n) && sys.phase[(me, n)].Sibling?
                && Mine(es, me) == Mine(old(es), me) + [Open(me, n), Flock(me, n), ReadClose(me, n)]
                && ReadAtEnd(es, me, n, true)
    {
      hide Mine, IsRun, After, Next;
      var i := Find(n);
      if i < |held| {
        return AssertError;
      }
      if openFails {
        return LockAcquireError;
      }
      var fd := TryLock(n);
      if fd == -1 {
        Unlisted(old(sys), sys, me, held, n);
        return if returnOnNoLock then Done(false) else LockAcquireError;
      }
      held := held + [LockFile(n, fd, false)];
      OneMore(old(sys), sys, me, old(held), held[|held| - 1]);
      if fd != LOCK_ON_EXEC_ID {
        assert Listed(held, n) by { assert held[|held| - 1].name == n; }
        assert Stands(sys, me, held[|held| - 1]);
        out := Write(n);
        assert out.Done?;
        RunKeepsInv(es);
        assert PhaseOk(sys, (me, n));
        forall q | AlwaysFresh(es) && Enabled(sys, Unlink(q, n)) ensures q == me {
          OneHolderPerName(es, q, me, n);
        }
      }
      out := Done(true);
    }

    /** Unlink, then close: the flock goes only after the name. */
    method ReleaseOwn(n: Name)
      requires IsRun(es) && After(es) == sys && At(sys, me, n) && sys.phase[(me, n)].Holding?
      modifies this`sys, this`es
      ensures IsRun(es) && After(es) == sys && (me in sys.ended <==> me in old(sys).ended)
      ensures !At(sys, me, n) && SameBut(old(sys), sys, me, n)
      ensures old(es) <= es && Mine(es, me) == Mine(old(es), me) + [Unlink(me, n), Close(me, n)]
    {
      hide Mine, IsRun, After, Next;
      ghost var s0 := sys;
      ReleasePhases(sys, me, n);
      Do(Unlink(me, n));
      ghost var s1 := sys;
      Elsewhere();
      ghost var s2 := sys;
      assert Same(s1, s2, me, n);
      ClosePhase(sys, me, n);
      Do(Close(me, n));
      Two(Mine(old(es), me), Unlink(me, n), Close(me, n));
      Chain(s0, s1, s2, me, n);
      Chain(s0, s2, sys, me, n);
    }

    /** Gives up the first lock of the list. */
    method ReleaseFirst()
      requires Valid() && held != []
      modifies this
      ensures Valid() && held == old(held)[1..]
      ensures old(es) <= es && Mine(es, me) == Mine(old(es), me) + ReleaseOne(old(held)[0], me)
    {
      var lockFile := held[0];
      assert Stands(sys, me, held[0]);
      Elsewhere();
      ghost var s := sys;
      assert Same(old(sys), s, me, lockFile.name);
      if lockFile.fd != LOCK_ON_EXEC_ID {
        ReleaseOwn(lockFile.name);
      } else {
        Do(Forget(me, lockFile.name));
      }
      Chain(old(sys), s, sys, me, lockFile.name);
      FirstGone(old(sys), sys, me, held);
      held := held[1..];
    }

    /** Release: the list ends empty, nothing is held, and the calls made are unlink then close for every own
        lock in list order. */
    method Release(returnOnNoLock: bool) returns (out: Outcome)
      requires Valid()
      modifies this
      ensures Valid() && held == []
      ensures out == if old(held) != [] then Done(true) else if returnOnNoLock then Done(false) else AssertError
      ensures forall n :: !At(sys, me, n)
      ensures old(es) <= es && Mine(es, me) == Mine(old(es), me) + ReleaseSteps(old(held), me)
    {
      hide Mine, IsRun, After, Next, StepOf, Enabled, Same, Stands, ReleaseOne, ReleaseSteps;
      NoSteps(me);
      if held == [] {
        return if returnOnNoLock then Done(false) else AssertError;
      }
      ghost var done: seq<Step> := [];
      while held != []
        invariant Valid() && old(es) <= es
        invariant Mine(es, me) == Mine(old(es), me) + done
        invariant done + ReleaseSteps(held, me) == ReleaseSteps(old(held), me)
        decreases |held|
      {
        ReleaseNext(done, held, me);
        done := done + ReleaseOne(held[0], me);
        ReleaseFirst();
      }
      out := Done(true);
    }
  }
}
