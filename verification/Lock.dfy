/** Lock files shared by many processes: a state machine over single system calls.

    A directory maps names to inodes, an flock belongs to one open file description, and every process or
    reader is at some point between its calls. Any interleaving of the calls is a run. */
module Lock {
  import opened Wrappers

  type Name = string
  type Inode = nat
  datatype Proc = Proc(pid: nat, execId: string)

  /** The open file description that owns an flock. */
  datatype Owner = Holder(p: Proc, n: Name) | Probe(r: nat)

  /** Where a process stands with one lock name. A name it has nothing to do with has no phase. */
  datatype Phase =
    | Opened(ino: Inode)
    | Refused(ino: Inode)
    | Holding(ino: Inode, writing: bool)
    | Unlinked(ino: Inode)
    | Sibling

  /** Where a reader stands: before the flock, after a successful one, after a refused one. */
  datatype Look = Looking(n: Name, ino: Inode) | Took(n: Name, ino: Inode) | Busy(n: Name, ino: Inode)

  datatype Content = Partial | Text(execId: string)

  /** A new file gets the next inode number, and `home` keeps the name each one was made for. The last
      process that wrote to a file and the completed releases are kept as history. */
  datatype State = State(
    dir: map<Name, Inode>,
    flocked: map<Inode, Owner>,
    content: map<Inode, Content>,
    phase: map<(Proc, Name), Phase>,
    looks: map<nat, Look>,
    ended: set<Proc>,
    home: seq<Name>,
    writer: map<Inode, Proc>,
    released: set<(Proc, Inode)>)

  const START := State(map[], map[], map[], map[], map[], {}, [], map[], {})

  datatype Step =
    | Open(p: Proc, n: Name)
    | Flock(p: Proc, n: Name)
    | ReadClose(p: Proc, n: Name)
    | WriteBegin(p: Proc, n: Name)
    | WriteEnd(p: Proc, n: Name)
    | Unlink(p: Proc, n: Name)
    | Close(p: Proc, n: Name)
    | Forget(p: Proc, n: Name)
    | End(p: Proc)
    | LookOpen(r: nat, n: Name)
    | LookFlock(r: nat)
    | LookClose(r: nat)

  predicate At(s: State, p: Proc, n: Name) {
    (p, n) in s.phase
  }

  /** The inode is still the file its name leads to. */
  predicate Linked(s: State, i: Inode) {
    i < |s.home| && s.home[i] in s.dir && s.dir[s.home[i]] == i
  }

  // ---------------------------------------------------------------------------------------------
  // Steps

  predicate Enabled(s: State, e: Step) {
    match e
    case Open(p, n) => p !in s.ended && !At(s, p, n)
    case Flock(p, n) => At(s, p, n) && s.phase[(p, n)].Opened?
    case ReadClose(p, n) => At(s, p, n) && s.phase[(p, n)].Refused?
    case WriteBegin(p, n) => At(s, p, n) && s.phase[(p, n)].Holding?
    case WriteEnd(p, n) => At(s, p, n) && s.phase[(p, n)].Holding? && s.phase[(p, n)].writing
    case Unlink(p, n) => At(s, p, n) && s.phase[(p, n)].Holding?
    case Close(p, n) => At(s, p, n) && s.phase[(p, n)].Unlinked?
    case Forget(p, n) => At(s, p, n) && s.phase[(p, n)].Sibling?
    case End(p) => p !in s.ended
    case LookOpen(r, n) => r !in s.looks && n in s.dir
    case LookFlock(r) => r in s.looks && s.looks[r].Looking?
    case LookClose(r) => r in s.looks && !s.looks[r].Looking?
  }

  /** The exec id a process finds in the file; a missing or half-written text gives none. */
  predicate SameExecId(s: State, i: Inode, p: Proc) {
    i in s.content && s.content[i] == Text(p.execId)
  }

  /** The file a process step is about: the one its name leads to, a new one, or the one it has open. */
  function FileOf(s: State, p: Proc, n: Name): Inode
    requires At(s, p, n) && !s.phase[(p, n)].Sibling?
  {
    s.phase[(p, n)].ino
  }

  /** Open makes the file when its name leads nowhere. */
  predicate Creates(s: State, e: Step) {
    e.Open? && e.n !in s.dir
  }

  function NextDir(s: State, e: Step): map<Name, Inode> {
    if Creates(s, e) then s.dir[e.n := |s.home|] else if e.Unlink? then s.dir - {e.n} else s.dir
  }

  function NextHome(s: State, e: Step): seq<Name> {
    if Creates(s, e) then s.home + [e.n] else s.home
  }

  /** What flock, close and the end of a process do to the locks. */
  function NextFlocked(s: State, e: Step): map<Inode, Owner>
    requires Enabled(s, e)
  {
    match e
    case Flock(p, n) => Granted(s.flocked, FileOf(s, p, n), Holder(p, n))
    case Close(p, n) => s.flocked - {FileOf(s, p, n)}
    case End(p) => map i | i in s.flocked && !(s.flocked[i].Holder? && s.flocked[i].p == p) :: s.flocked[i]
    case LookFlock(r) => Granted(s.flocked, s.looks[r].ino, Probe(r))
    case LookClose(r) => if s.looks[r].Took? then s.flocked - {s.looks[r].ino} else s.flocked
    case _ => s.flocked
  }

  function Granted(flocked: map<Inode, Owner>, i: Inode, o: Owner): map<Inode, Owner> {
    if i in flocked then flocked else flocked[i := o]
  }

  /** Where a process stands with a name after its own step; with nothing left to do it has no phase. */
  function NewPhase(s: State, e: Step): Option<Phase>
    requires Enabled(s, e) && ProcStep(e)
  {
    match e
    case Open(p, n) => Some(Opened(if n in s.dir then s.dir[n] else |s.home|))
    case Flock(p, n) => var i := FileOf(s, p, n); Some(if i in s.flocked then Refused(i) else Holding(i, false))
    case ReadClose(p, n) => if SameExecId(s, FileOf(s, p, n), p) then Some(Sibling) else None
    case WriteBegin(p, n) => Some(Holding(FileOf(s, p, n), true))
    case WriteEnd(p, n) => Some(Holding(FileOf(s, p, n), false))
    case Unlink(p, n) => Some(Unlinked(FileOf(s, p, n)))
    case Close(p, n) => None
    case Forget(p, n) => None
  }

  /** A step of a process with one of its names. */
  predicate ProcStep(e: Step) {
    !e.End? && !e.LookOpen? && !e.LookFlock? && !e.LookClose?
  }

  function NextPhase(s: State, e: Step): map<(Proc, Name), Phase>
    requires Enabled(s, e)
  {
    if e.End? then map k | k in s.phase && k.0 != e.p :: s.phase[k]
    else if !ProcStep(e) then s.phase
    else
      match NewPhase(s, e)
      case None => s.phase - {(e.p, e.n)}
      case Some(f) => s.phase[(e.p, e.n) := f]
  }

  function NextLooks(s: State, e: Step): map<nat, Look>
    requires Enabled(s, e)
  {
    match e
    case LookOpen(r, n) => s.looks[r := Looking(n, s.dir[n])]
    case LookFlock(r) =>
      var l := s.looks[r];
      s.looks[r := if l.ino in s.flocked then Busy(l.n, l.ino) else Took(l.n, l.ino)]
    case LookClose(r) => s.looks - {r}
    case _ => s.looks
  }

  function NextContent(s: State, e: Step): map<Inode, Content>
    requires Enabled(s, e)
  {
    if e.WriteBegin? then s.content[FileOf(s, e.p, e.n) := Partial]
    else if e.WriteEnd? then s.content[FileOf(s, e.p, e.n) := Text(e.p.execId)]
    else s.content
  }

  function Next(s: State, e: Step): (t: State)
    requires Enabled(s, e)
  {
    State(
      NextDir(s, e),
      NextFlocked(s, e),
      NextContent(s, e),
      NextPhase(s, e),
      NextLooks(s, e),
      if e.End? then s.ended + {e.p} else s.ended,
      NextHome(s, e),
      if e.WriteBegin? then s.writer[FileOf(s, e.p, e.n) := e.p] else s.writer,
      if e.Close? then s.released + {(e.p, FileOf(s, e.p, e.n))} else s.released)
  }

  /** An flock that succeeds on an inode its name no longer leads to. */
  predicate StaleFlock(s: State, e: Step) {
    && e.Flock? && At(s, e.p, e.n) && s.phase[(e.p, e.n)].Opened?
    && s.phase[(e.p, e.n)].ino !in s.flocked
    && !(e.n in s.dir && s.dir[e.n] == s.phase[(e.p, e.n)].ino)
  }

  // ---------------------------------------------------------------------------------------------
  // What every run keeps

  ghost predicate DirHome(s: State) {
    forall n :: n in s.dir ==> s.dir[n] < |s.home| && s.home[s.dir[n]] == n
  }

  ghost predicate Named(s: State, k: (Proc, Name))
    requires k in s.phase
  {
    k.0 !in s.ended && (!s.phase[k].Sibling? ==> s.phase[k].ino < |s.home| && s.home[s.phase[k].ino] == k.1)
  }

  ghost predicate OwnsFlock(s: State, k: (Proc, Name))
    requires k in s.phase
  {
    var f := s.phase[k];
    f.Holding? || f.Unlinked? ==> f.ino in s.flocked && s.flocked[f.ino] == Holder(k.0, k.1)
  }

  /** Who is writing is the last writer. */
  ghost predicate Writes(s: State, k: (Proc, Name))
    requires k in s.phase
  {
    var f := s.phase[k];
    f.Holding? && f.writing ==> f.ino in s.writer && s.writer[f.ino] == k.0
  }

  ghost predicate PhaseOk(s: State, k: (Proc, Name))
    requires k in s.phase
  {
    Named(s, k) && OwnsFlock(s, k) && Writes(s, k) && (s.phase[k].Unlinked? ==> !Linked(s, s.phase[k].ino))
  }

  /** `p` still has the file open and flocked. */
  ghost predicate Has(s: State, p: Proc, n: Name, i: Inode) {
    At(s, p, n) && (s.phase[(p, n)].Holding? || s.phase[(p, n)].Unlinked?) && s.phase[(p, n)].ino == i
  }

  ghost predicate OwnerOk(s: State, i: Inode)
    requires i in s.flocked
  {
    match s.flocked[i]
    case Holder(p, n) => Has(s, p, n, i)
    case Probe(r) => r in s.looks && s.looks[r].Took? && s.looks[r].ino == i
  }

  ghost predicate LookOk(s: State, r: nat)
    requires r in s.looks
  {
    var l := s.looks[r];
    l.ino < |s.home| && s.home[l.ino] == l.n && (l.Took? ==> l.ino in s.flocked && s.flocked[l.ino] == Probe(r))
  }

  ghost predicate WriterOk(s: State, i: Inode)
    requires i in s.writer
  {
    i < |s.home| && (s.writer[i] in s.ended || (s.writer[i], i) in s.released || Has(s, s.writer[i], s.home[i], i))
  }

  /** A complete text is the last writer's. */
  ghost predicate ContentOk(s: State, i: Inode)
    requires i in s.content
  {
    s.content[i].Text? ==> i in s.writer && s.writer[i].execId == s.content[i].execId
  }

  /** `p` has opened the file and not yet flocked it. */
  ghost predicate Opening(s: State, p: Proc, n: Name, i: Inode) {
    At(s, p, n) && s.phase[(p, n)] == Opened(i)
  }

  /** A released file has lost its name, and the process that released it is done with it. */
  ghost predicate ReleasedOk(s: State, x: (Proc, Inode)) {
    && x.1 < |s.home| && !Linked(s, x.1)
    && !Has(s, x.0, s.home[x.1], x.1) && !Opening(s, x.0, s.home[x.1], x.1)
  }

  ghost predicate Inv(s: State) {
    && DirHome(s)
    && (forall k {:trigger PhaseOk(s, k)} :: k in s.phase ==> PhaseOk(s, k))
    && (forall i {:trigger OwnerOk(s, i)} :: i in s.flocked ==> OwnerOk(s, i))
    && (forall r {:trigger LookOk(s, r)} :: r in s.looks ==> LookOk(s, r))
    && (forall i {:trigger WriterOk(s, i)} :: i in s.writer ==> WriterOk(s, i))
    && (forall i {:trigger ContentOk(s, i)} :: i in s.content ==> ContentOk(s, i))
    && (forall x {:trigger ReleasedOk(s, x)} :: x in s.released ==> ReleasedOk(s, x))
  }

  /** Once an inode is no longer linked it never is again. */
  lemma NeverRelinked(s: State, e: Step, i: Inode)
    requires DirHome(s) && Enabled(s, e) && i < |s.home| && !Linked(s, i)
    ensures i < |Next(s, e).home| && !Linked(Next(s, e), i)
  {
  }

  lemma KeepsNames(s: State, e: Step)
    requires DirHome(s) && Enabled(s, e)
    ensures DirHome(Next(s, e))
  {
  }

  lemma KeepsOwnsFlock(s: State, e: Step, k: (Proc, Name))
    requires Inv(s) && Enabled(s, e) && k in Next(s, e).phase
    ensures OwnsFlock(Next(s, e), k)
  {
    assert k in s.phase ==> PhaseOk(s, k);
    if e.Close? {
      assert PhaseOk(s, (e.p, e.n));
    }
    if e.LookClose? {
      assert LookOk(s, e.r);
    }
  }

  lemma KeepsWrites(s: State, e: Step, k: (Proc, Name))
    requires Inv(s) && Enabled(s, e) && k in Next(s, e).phase
    ensures Writes(Next(s, e), k)
  {
    assert k in s.phase ==> PhaseOk(s, k);
    if e.WriteBegin? {
      assert PhaseOk(s, (e.p, e.n));
    }
  }

  lemma KeepsPhases(s: State, e: Step, k: (Proc, Name))
    requires Inv(s) && Enabled(s, e) && k in Next(s, e).phase
    ensures PhaseOk(Next(s, e), k)
  {
    hide OwnsFlock, Writes;
    assert k in s.phase ==> PhaseOk(s, k);
    if e.Unlink? {
      assert PhaseOk(s, (e.p, e.n));
    }
    KeepsOwnsFlock(s, e, k);
    KeepsWrites(s, e, k);
  }

  /** Only its own close or its end takes a file away from a process. */
  lemma KeepsHas(s: State, e: Step, p: Proc, n: Name, i: Inode)
    requires Enabled(s, e) && Has(s, p, n, i)
    requires !(e.Close? && e.p == p && e.n == n) && !(e.End? && e.p == p)
    ensures Has(Next(s, e), p, n, i)
  {
  }

  lemma KeepsOwners(s: State, e: Step, i: Inode)
    requires Inv(s) && Enabled(s, e) && i in Next(s, e).flocked
    ensures OwnerOk(Next(s, e), i)
  {
    if i in s.flocked {
      assert OwnerOk(s, i);
      if s.flocked[i].Holder? {
        KeepsHas(s, e, s.flocked[i].p, s.flocked[i].n, i);
      }
    }
    if e.LookClose? {
      assert LookOk(s, e.r);
    }
  }

  lemma KeepsLooks(s: State, e: Step, r: nat)
    requires Inv(s) && Enabled(s, e) && r in Next(s, e).looks
    ensures LookOk(Next(s, e), r)
  {
    if r in s.looks {
      assert LookOk(s, r);
    }
    if e.Close? {
      assert PhaseOk(s, (e.p, e.n));
    }
    if e.LookClose? {
      assert LookOk(s, e.r);
    }
  }

  lemma KeepsWriters(s: State, e: Step, i: Inode)
    requires Inv(s) && Enabled(s, e) && i in Next(s, e).writer
    ensures WriterOk(Next(s, e), i)
  {
    if i in s.writer {
      assert WriterOk(s, i);
      var p, n := s.writer[i], s.home[i];
      if Has(s, p, n, i) && !(e.Close? && e.p == p && e.n == n) && !(e.End? && e.p == p) {
        KeepsHas(s, e, p, n, i);
      }
    }
    if e.WriteBegin? {
      assert PhaseOk(s, (e.p, e.n));
    }
  }

  lemma KeepsContents(s: State, e: Step, i: Inode)
    requires Inv(s) && Enabled(s, e) && i in Next(s, e).content
    ensures ContentOk(Next(s, e), i)
  {
    assert i in s.content ==> ContentOk(s, i);
    if e.WriteEnd? {
      assert PhaseOk(s, (e.p, e.n));
    }
  }

  /** A process that is done with an unlinked file never gets at it again. */
  lemma StaysDone(s: State, e: Step, p: Proc, n: Name, i: Inode)
    requires DirHome(s) && Enabled(s, e) && i < |s.home| && s.home[i] == n && !Linked(s, i)
    requires !Has(s, p, n, i) && !Opening(s, p, n, i)
    ensures !Has(Next(s, e), p, n, i) && !Opening(Next(s, e), p, n, i)
  {
  }

  lemma KeepsReleased(s: State, e: Step, x: (Proc, Inode))
    requires Inv(s) && Enabled(s, e) && x in Next(s, e).released
    ensures ReleasedOk(Next(s, e), x)
  {
    if x in s.released {
      assert ReleasedOk(s, x);
      NeverRelinked(s, e, x.1);
      StaysDone(s, e, x.0, s.home[x.1], x.1);
    } else {
      assert PhaseOk(s, (e.p, e.n));
    }
  }

  /** Every step of every process, in any order, keeps the invariant. */
  lemma StepKeepsInv(s: State, e: Step)
    requires Inv(s) && Enabled(s, e)
    ensures Inv(Next(s, e))
  {
    hide Next;
    var t := Next(s, e);
    assert DirHome(t) by { KeepsNames(s, e); }
    forall k | k in t.phase ensures PhaseOk(t, k) { KeepsPhases(s, e, k); }
    forall i | i in t.flocked ensures OwnerOk(t, i) { KeepsOwners(s, e, i); }
    forall r | r in t.looks ensures LookOk(t, r) { KeepsLooks(s, e, r); }
    forall i | i in t.writer ensures WriterOk(t, i) { KeepsWriters(s, e, i); }
    forall i | i in t.content ensures ContentOk(t, i) { KeepsContents(s, e, i); }
    forall x | x in t.released ensures ReleasedOk(t, x) { KeepsReleased(s, e, x); }
  }

  // ---------------------------------------------------------------------------------------------
  // Runs

  predicate IsRun(es: seq<Step>)
    decreases |es|, 0
  {
    es == [] || (IsRun(es[..|es| - 1]) && Enabled(After(es[..|es| - 1]), es[|es| - 1]))
  }

  function After(es: seq<Step>): State
    requires IsRun(es)
    decreases |es|, 1
  {
    if es == [] then START else Next(After(es[..|es| - 1]), es[|es| - 1])
  }

  lemma {:induction false} RunKeepsInv(es: seq<Step>)
    requires IsRun(es)
    ensures Inv(After(es))
  {
    if es != [] {
      RunKeepsInv(es[..|es| - 1]);
      StepKeepsInv(After(es[..|es| - 1]), es[|es| - 1]);
    }
  }

  lemma {:induction false} PrefixIsRun(es: seq<Step>, k: nat)
    requires IsRun(es) && k <= |es|
    ensures IsRun(es[..k])
    ensures k < |es| ==> Enabled(After(es[..k]), es[k])
  {
    if k == |es| {
      assert es[..k] == es;
    } else if k < |es| - 1 {
      PrefixIsRun(es[..|es| - 1], k);
      assert es[..|es| - 1][..k] == es[..k];
    }
  }

  // ---------------------------------------------------------------------------------------------
  // Safety of the holders

  /** A holder that has not begun its release has its own file at the lock name. */
  ghost predicate HolderLinked(s: State, k: (Proc, Name))
    requires k in s.phase
  {
    s.phase[k].Holding? ==> k.1 in s.dir && s.dir[k.1] == s.phase[k].ino
  }

  ghost predicate Safe(s: State) {
    forall k {:trigger HolderLinked(s, k)} :: k in s.phase ==> HolderLinked(s, k)
  }

  lemma SafeHoldersUnique(s: State, p: Proc, q: Proc, n: Name)
    requires Inv(s) && Safe(s)
    requires At(s, p, n) && s.phase[(p, n)].Holding? && At(s, q, n) && s.phase[(q, n)].Holding?
    ensures p == q
  {
    assert HolderLinked(s, (p, n)) && HolderLinked(s, (q, n));
    assert PhaseOk(s, (p, n)) && PhaseOk(s, (q, n));
  }

  lemma FreshStepSafe(s: State, e: Step)
    requires Inv(s) && Safe(s) && Enabled(s, e) && !StaleFlock(s, e)
    ensures Safe(Next(s, e))
  {
    var t := Next(s, e);
    forall k | k in t.phase && t.phase[k].Holding? ensures HolderLinked(t, k) {
      if k in s.phase {
        assert HolderLinked(s, k);
        if e.Unlink? && k.1 == e.n && s.phase[k].Holding? {
          SafeHoldersUnique(s, k.0, e.p, e.n);
        }
      }
    }
  }

  lemma StaleStepUnsafe(s: State, e: Step)
    requires Enabled(s, e) && StaleFlock(s, e)
    ensures !Safe(Next(s, e))
  {
    assert !HolderLinked(Next(s, e), (e.p, e.n));
  }

  ghost predicate AlwaysSafe(es: seq<Step>)
  {
    forall k {:trigger es[..k]} :: 0 <= k <= |es| && IsRun(es[..k]) ==> Safe(After(es[..k]))
  }

  /** Every flock that succeeded did so while the name still led to the flocked file. */
  ghost predicate AlwaysFresh(es: seq<Step>)
  {
    forall k {:trigger es[k]} :: 0 <= k < |es| && IsRun(es[..k]) ==> !StaleFlock(After(es[..k]), es[k])
  }

  lemma FreshPrefix(es: seq<Step>, k: nat)
    requires AlwaysFresh(es) && k <= |es|
    ensures AlwaysFresh(es[..k])
  {
    forall j | 0 <= j < k && IsRun(es[..k][..j]) ensures !StaleFlock(After(es[..k][..j]), es[..k][j]) {
      assert es[..k][..j] == es[..j] && es[..k][j] == es[j];
    }
  }

  lemma {:induction false} FreshRunIsSafe(es: seq<Step>)
    requires IsRun(es) && AlwaysFresh(es)
    ensures Safe(After(es))
  {
    if es != [] {
      var front := es[..|es| - 1];
      FreshPrefix(es, |es| - 1);
      FreshRunIsSafe(front);
      RunKeepsInv(front);
      FreshStepSafe(After(front), es[|es| - 1]);
    }
  }

  lemma SafeStepIsFresh(es: seq<Step>, k: nat)
    requires IsRun(es) && AlwaysSafe(es) && k < |es| && IsRun(es[..k])
    ensures !StaleFlock(After(es[..k]), es[k])
  {
    PrefixIsRun(es, k);
    PrefixIsRun(es, k + 1);
    assert es[..k + 1][..k] == es[..k];
    if StaleFlock(After(es[..k]), es[k]) {
      StaleStepUnsafe(After(es[..k]), es[k]);
    }
  }

  /** In any run, every holder's file stays at its name throughout if and only if no flock succeeded on a
      file its name had stopped leading to. */
  lemma SafeIffFresh(es: seq<Step>)
    requires IsRun(es)
    ensures AlwaysSafe(es) <==> AlwaysFresh(es)
  {
    if AlwaysFresh(es) {
      forall k | 0 <= k <= |es| && IsRun(es[..k]) ensures Safe(After(es[..k])) {
        FreshPrefix(es, k);
        FreshRunIsSafe(es[..k]);
      }
    }
    if AlwaysSafe(es) {
      forall k | 0 <= k < |es| && IsRun(es[..k]) ensures !StaleFlock(After(es[..k]), es[k]) {
        SafeStepIsFresh(es, k);
      }
    }
  }

  /** What a release does in such a run: the file it unlinks is the releaser's own, held by nobody else. */
  lemma UnlinkRemovesOwnFile(es: seq<Step>, p: Proc, n: Name)
    requires IsRun(es) && AlwaysFresh(es) && Enabled(After(es), Unlink(p, n))
    ensures var s := After(es);
      && n in s.dir && s.dir[n] == s.phase[(p, n)].ino && s.dir[n] in s.flocked && s.flocked[s.dir[n]] == Holder(p, n)
      && Safe(Next(s, Unlink(p, n)))
  {
    var s := After(es);
    FreshRunIsSafe(es);
    RunKeepsInv(es);
    assert HolderLinked(s, (p, n)) && PhaseOk(s, (p, n));
    FreshStepSafe(s, Unlink(p, n));
  }

  /** At most one process holds a name and has not begun to release it. */
  lemma OneHolderPerName(es: seq<Step>, p: Proc, q: Proc, n: Name)
    requires IsRun(es) && AlwaysFresh(es)
    requires Enabled(After(es), Unlink(p, n)) && Enabled(After(es), Unlink(q, n))
    ensures p == q
  {
    FreshRunIsSafe(es);
    RunKeepsInv(es);
    SafeHoldersUnique(After(es), p, q, n);
  }

  // ---------------------------------------------------------------------------------------------
  // When no unlink falls between an open and its flock

  predicate OpensName(e: Step, p: Proc, n: Name) {
    e.Open? && e.p == p && e.n == n
  }

  predicate UnlinksName(e: Step, n: Name) {
    e.Unlink? && e.n == n
  }

  /** Step `i` is the open that the flock at step `k` belongs to. */
  predicate OpenOf(es: seq<Step>, i: nat, k: nat)
  {
    && i < k < |es| && es[k].Flock? && OpensName(es[i], es[k].p, es[k].n)
    && forall j :: i < j < k ==> !OpensName(es[j], es[k].p, es[k].n)
  }

  ghost predicate Undisturbed(es: seq<Step>) {
    forall i: nat, k: nat, j {:trigger OpenOf(es, i, k), es[j]} :: OpenOf(es, i, k) && i < j < k ==>
      !UnlinksName(es[j], es[k].n)
  }

  lemma OpenedStep(s: State, e: Step, p: Proc, n: Name)
    requires Enabled(s, e) && Enabled(Next(s, e), Flock(p, n)) && !OpensName(e, p, n)
    ensures Enabled(s, Flock(p, n)) && Next(s, e).phase[(p, n)] == s.phase[(p, n)]
    ensures n in s.dir && !UnlinksName(e, n) ==> n in Next(s, e).dir && Next(s, e).dir[n] == s.dir[n]
  {
  }

  /** A file opened and not yet flocked is still linked unless its name was unlinked since the open. */
  lemma {:induction false} OpenedSince(es: seq<Step>, p: Proc, n: Name) returns (i: nat)
    requires IsRun(es) && Enabled(After(es), Flock(p, n))
    ensures i < |es| && OpensName(es[i], p, n) && (forall j :: i < j < |es| ==> !OpensName(es[j], p, n))
    ensures (forall j :: i < j < |es| ==> !UnlinksName(es[j], n))
      ==> n in After(es).dir && After(es).dir[n] == After(es).phase[(p, n)].ino
  {
    var last := |es| - 1;
    if OpensName(es[last], p, n) {
      i := last;
    } else {
      OpenedStep(After(es[..last]), es[last], p, n);
      i := OpenedSince(es[..last], p, n);
      if forall j :: i < j < |es| ==> !UnlinksName(es[j], n) {
        forall j | i < j < last ensures !UnlinksName(es[..last][j], n) { assert es[..last][j] == es[j]; }
        assert !UnlinksName(es[last], n);
      }
    }
  }

  /** Runs in which no unlink falls between another process's open and flock of the name are safe. */
  lemma UndisturbedIsFresh(es: seq<Step>)
    requires IsRun(es) && Undisturbed(es)
    ensures AlwaysFresh(es)
  {
    forall k | 0 <= k < |es| && IsRun(es[..k]) && es[k].Flock? ensures !StaleFlock(After(es[..k]), es[k]) {
      PrefixIsRun(es, k);
      var i := OpenedSince(es[..k], es[k].p, es[k].n);
      assert OpensName(es[i], es[k].p, es[k].n);
      forall j | i < j < k ensures !OpensName(es[j], es[k].p, es[k].n) {
        assert es[..k][j] == es[j];
      }
      assert OpenOf(es, i, k);
      forall j | i < j < k ensures !UnlinksName(es[..k][j], es[k].n) {
        assert es[..k][j] == es[j];
      }
    }
  }

  // ---------------------------------------------------------------------------------------------
  // What a reader may conclude

  /** The reader's own flock succeeds, which it reports as unlocked. */
  predicate ReportsUnlocked(s: State, r: nat) {
    Enabled(s, LookFlock(r)) && s.looks[r].ino !in s.flocked
  }

  lemma HasFlock(s: State, p: Proc, n: Name, i: Inode)
    requires Inv(s)
    ensures Has(s, p, n, i) ==> i in s.flocked
  {
    if Has(s, p, n, i) {
      assert PhaseOk(s, (p, n));
    }
  }

  /** An unlocked file that was written lost its last writer: it ended, or it released the file. */
  lemma UnlockedWriterGone(es: seq<Step>, r: nat)
    requires IsRun(es) && ReportsUnlocked(After(es), r) && After(es).looks[r].ino in After(es).writer
    ensures var s := After(es); var i := s.looks[r].ino;
      && (s.writer[i] in s.ended || (s.writer[i], i) in s.released)
      && (Linked(s, i) ==> s.writer[i] in s.ended && (s.writer[i], i) !in s.released)
      && (s.writer[i] !in s.ended ==> (s.writer[i], i) in s.released && !Linked(s, i))
  {
    RunKeepsInv(es);
    var s := After(es);
    var i := s.looks[r].ino;
    assert WriterOk(s, i);
    HasFlock(s, s.writer[i], s.home[i], i);
    if (s.writer[i], i) in s.released {
      assert ReleasedOk(s, (s.writer[i], i));
    }
  }

  predicate LooksAt(e: Step, r: nat) {
    e.LookOpen? && e.r == r
  }

  lemma LookOpenLinked(s: State, e: Step, r: nat)
    requires Inv(s) && Enabled(s, e) && LooksAt(e, r)
    ensures r in Next(s, e).looks && Next(s, e).looks[r].n == e.n && Linked(Next(s, e), Next(s, e).looks[r].ino)
  {
  }

  lemma LookingStep(s: State, e: Step, r: nat)
    requires Inv(s) && Enabled(s, e) && Enabled(Next(s, e), LookFlock(r)) && !LooksAt(e, r)
    ensures Enabled(s, LookFlock(r)) && Next(s, e).looks[r] == s.looks[r]
    ensures Linked(s, s.looks[r].ino) && !UnlinksName(e, s.looks[r].n) ==> Linked(Next(s, e), s.looks[r].ino)
  {
    assert r in s.looks && LookOk(s, r);
  }

  /** Step `k` is the open of the reader's file. */
  predicate LastLook(es: seq<Step>, k: nat, r: nat) {
    k < |es| && LooksAt(es[k], r) && forall j :: k < j < |es| ==> !LooksAt(es[j], r)
  }

  lemma {:induction false} LookingSince(es: seq<Step>, r: nat) returns (i: nat)
    requires IsRun(es) && Enabled(After(es), LookFlock(r))
    ensures i < |es| && LooksAt(es[i], r) && es[i].n == After(es).looks[r].n
    ensures forall j :: i < j < |es| ==> !LooksAt(es[j], r)
    ensures (forall j :: i < j < |es| ==> !UnlinksName(es[j], es[i].n)) ==> Linked(After(es), After(es).looks[r].ino)
  {
    hide Inv, Linked;
    var last := |es| - 1;
    RunKeepsInv(es[..last]);
    if LooksAt(es[last], r) {
      i := last;
      LookOpenLinked(After(es[..last]), es[last], r);
    } else {
      LookingStep(After(es[..last]), es[last], r);
      i := LookingSince(es[..last], r);
      if forall j :: i < j < |es| ==> !UnlinksName(es[j], es[i].n) {
        forall j | i < j < last ensures !UnlinksName(es[..last][j], es[i].n) { assert es[..last][j] == es[j]; }
        assert !UnlinksName(es[last], es[i].n);
      }
    }
  }

  /** The file a reader has open was linked when it opened it. */
  lemma {:induction false} LinkedWhenOpened(es: seq<Step>, r: nat, i: nat)
    requires IsRun(es) && Enabled(After(es), LookFlock(r)) && LastLook(es, i, r)
    ensures IsRun(es[..i + 1]) && Linked(After(es[..i + 1]), After(es).looks[r].ino)
  {
    hide Inv, Linked, Enabled;
    var last := |es| - 1;
    var front := es[..last];
    RunKeepsInv(front);
    if i == last {
      assert es[..i + 1] == es;
      LookOpenLinked(After(front), es[last], r);
    } else {
      LookingStep(After(front), es[last], r);
      assert front[i] == es[i] && forall j :: i < j < last ==> front[j] == es[j];
      LinkedWhenOpened(front, r, i);
      assert front[..i + 1] == es[..i + 1];
    }
  }

  /** No unlink of the name since the reader opened it. */
  ghost predicate QuietSince(es: seq<Step>, r: nat) {
    exists i :: 0 <= i < |es| && LooksAt(es[i], r)
      && forall j :: i < j < |es| ==> !LooksAt(es[j], r) && !UnlinksName(es[j], es[i].n)
  }

  /** If no unlink fell between the reader's open and flock, then "unlocked" for a written file means that
      its last writer ended without completing its release. */
  lemma UnlockedMeansEnded(es: seq<Step>, r: nat)
    requires IsRun(es) && QuietSince(es, r)
    requires ReportsUnlocked(After(es), r) && After(es).looks[r].ino in After(es).writer
    ensures var s := After(es); var w := s.writer[s.looks[r].ino];
      w in s.ended && (w, s.looks[r].ino) !in s.released
  {
    var i := LookingSince(es, r);
    var q :| 0 <= q < |es| && LooksAt(es[q], r)
      && forall j :: q < j < |es| ==> !LooksAt(es[j], r) && !UnlinksName(es[j], es[q].n);
    assert i == q;
    UnlockedWriterGone(es, r);
  }

  /** Step `j` is a close by `w` that completes the release of the file. */
  ghost predicate Closes(es: seq<Step>, j: nat, w: Proc, i: Inode) {
    && j < |es| && IsRun(es[..j]) && es[j].Close? && es[j].p == w
    && At(After(es[..j]), w, es[j].n) && After(es[..j]).phase[(w, es[j].n)] == Unlinked(i)
  }

  lemma {:induction false} ReleasedSince(es: seq<Step>, k: nat, w: Proc, i: Inode) returns (j: nat)
    requires IsRun(es) && k <= |es| && IsRun(es[..k])
    requires (w, i) !in After(es[..k]).released && (w, i) in After(es).released
    ensures k <= j < |es| && Closes(es, j, w, i)
  {
    hide Next, Enabled;
    var last := |es| - 1;
    assert k < |es| by { assert es[..|es|] == es; }
    var front := es[..last];
    assert front[..k] == es[..k];
    if (w, i) in After(front).released {
      j := ReleasedSince(front, k, w, i);
      assert front[..j] == es[..j];
    } else {
      ReleasedStep(After(front), es[last], w, i);
      j := last;
    }
  }

  lemma ReleasedStep(s: State, e: Step, w: Proc, i: Inode)
    requires Enabled(s, e) && (w, i) !in s.released && (w, i) in Next(s, e).released
    ensures e.Close? && e.p == w && At(s, w, e.n) && s.phase[(w, e.n)] == Unlinked(i)
  {
  }

  lemma {:induction false} CloseReleases(es: seq<Step>, j: nat, w: Proc, i: Inode)
    requires IsRun(es) && Closes(es, j, w, i)
    ensures (w, i) in After(es).released
  {
    var last := |es| - 1;
    if j < last {
      var front := es[..last];
      assert front[..j] == es[..j] && front[j] == es[j];
      CloseReleases(front, j, w, i);
    }
  }

  /** `w` completed a release of the file after the reader had opened it. */
  ghost predicate ClosedSinceLook(es: seq<Step>, r: nat, w: Proc, i: Inode) {
    exists k: nat, j: nat :: LastLook(es, k, r) && Closes(es, j, w, i) && k < j
  }

  lemma ReleasedUnlinked(es: seq<Step>, w: Proc, i: Inode)
    requires IsRun(es)
    ensures (w, i) in After(es).released ==> !Linked(After(es), i)
  {
    RunKeepsInv(es);
    if (w, i) in After(es).released {
      assert ReleasedOk(After(es), (w, i));
    }
  }

  /** For a written file found unlocked, the last writer ended without completing its release if and only if it
      made no close of that file between the reader's open and flock. */
  lemma UnlockedExact(es: seq<Step>, r: nat)
    requires IsRun(es) && ReportsUnlocked(After(es), r) && After(es).looks[r].ino in After(es).writer
    ensures var s := After(es); var i := s.looks[r].ino; var w := s.writer[i];
      (w in s.ended && (w, i) !in s.released) <==> !ClosedSinceLook(es, r, w, i)
  {
    var s := After(es);
    var i := s.looks[r].ino;
    var w := s.writer[i];
    UnlockedWriterGone(es, r);
    var k := LookingSince(es, r);
    if (w, i) in s.released {
      LinkedWhenOpened(es, r, k);
      ReleasedUnlinked(es[..k + 1], w, i);
      var j := ReleasedSince(es, k + 1, w, i);
      assert LastLook(es, k, r) && Closes(es, j, w, i);
    }
    if ClosedSinceLook(es, r, w, i) {
      var l: nat, j: nat :| LastLook(es, l, r) && Closes(es, j, w, i) && l < j;
      CloseReleases(es, j, w, i);
    }
  }

  // ---------------------------------------------------------------------------------------------
  // What a lock by exec id rests on

  /** A step that begins or ends a write of the file. */
  ghost predicate WritesTo(s: State, e: Step, i: Inode) {
    && (e.WriteBegin? || e.WriteEnd?) && At(s, e.p, e.n)
    && s.phase[(e.p, e.n)] in {Holding(i, false), Holding(i, true)}
  }

  ghost predicate Writing(es: seq<Step>, k: nat, i: Inode) {
    k < |es| && IsRun(es[..k]) && WritesTo(After(es[..k]), es[k], i)
  }

  /** Step `k` completes a write of the file by a process of this exec id, and nobody has written to it since. */
  ghost predicate LastWrite(es: seq<Step>, k: nat, i: Inode, execId: string) {
    && Writing(es, k, i) && es[k].WriteEnd? && es[k].p.execId == execId
    && forall j: nat :: k < j < |es| ==> !Writing(es, j, i)
  }

  /** In every run a file reads as an exec id if and only if the last write of it was completed by a process of that
      exec id. */
  lemma {:induction false} TextIsLastWrite(es: seq<Step>, i: Inode, execId: string)
    requires IsRun(es)
    ensures i in After(es).content && After(es).content[i] == Text(execId)
      <==> exists k: nat :: LastWrite(es, k, i, execId)
  {
    hide Next, WritesTo, Enabled;
    if es != [] {
      var last := |es| - 1;
      var front := es[..last];
      TextIsLastWrite(front, i, execId);
      TextStep(After(front), es[last], i, execId);
      forall k: nat | k < last ensures Writing(es, k, i) <==> Writing(front, k, i) { assert front[..k] == es[..k]; }
      if Writing(es, last, i) {
        assert LastWrite(es, last, i, execId) <==> es[last].WriteEnd? && es[last].p.execId == execId;
      } else {
        assert forall k: nat :: k < last ==> (LastWrite(es, k, i, execId) <==> LastWrite(front, k, i, execId));
      }
    }
  }

  lemma TextStep(s: State, e: Step, i: Inode, execId: string)
    requires Enabled(s, e)
    ensures i in Next(s, e).content && Next(s, e).content[i] == Text(execId) <==>
            if WritesTo(s, e, i) then e.WriteEnd? && e.p.execId == execId
              else i in s.content && s.content[i] == Text(execId)
  {
  }

  /** A refused process goes on with the name if and only if it reads its own exec id in the file. */
  lemma ReadDecides(s: State, p: Proc, n: Name)
    requires Enabled(s, ReadClose(p, n))
    ensures var i, t := s.phase[(p, n)].ino, Next(s, ReadClose(p, n));
      && (At(t, p, n) <==> i in s.content && s.content[i] == Text(p.execId))
      && (At(t, p, n) ==> t.phase[(p, n)] == Sibling)
  {
  }

  /** In every run a refused process goes on with the name if and only if the last write of the file was completed by a
      process of its own exec id. */
  lemma SiblingIffLastWrite(es: seq<Step>, p: Proc, n: Name)
    requires IsRun(es) && Enabled(After(es), ReadClose(p, n))
    ensures var i := After(es).phase[(p, n)].ino;
      At(Next(After(es), ReadClose(p, n)), p, n) <==> exists k: nat :: LastWrite(es, k, i, p.execId)
  {
    ReadDecides(After(es), p, n);
    TextIsLastWrite(es, After(es).phase[(p, n)].ino, p.execId);
  }

  /** A refused process that finds its own exec id takes the lock for its own. In every run the text was written
      by a process of that exec id, and the flock is that process's if and only if it has neither ended nor
      released the file. */
  lemma SiblingBackedIff(es: seq<Step>, p: Proc, n: Name)
    requires IsRun(es) && Enabled(After(es), ReadClose(p, n))
    requires SameExecId(After(es), FileOf(After(es), p, n), p)
    ensures var i := FileOf(After(es), p, n); var t := Next(After(es), ReadClose(p, n));
      && At(t, p, n) && t.phase[(p, n)].Sibling?
      && i in t.writer && t.writer[i].execId == p.execId
      && (i in t.flocked && t.flocked[i] == Holder(t.writer[i], n)
        <==> t.writer[i] !in t.ended && (t.writer[i], i) !in t.released)
  {
    RunKeepsInv(es);
    var s := After(es);
    var i := FileOf(s, p, n);
    assert PhaseOk(s, (p, n)) && ContentOk(s, i) && WriterOk(s, i);
    var w := s.writer[i];
    if Has(s, w, n, i) {
      assert PhaseOk(s, (w, n));
    }
    if i in s.flocked {
      assert OwnerOk(s, i);
    }
    if (w, i) in s.released {
      assert ReleasedOk(s, (w, i));
    }
  }

  // ---------------------------------------------------------------------------------------------
  // What goes wrong otherwise

  lemma Begin() returns (es: seq<Step>, s: State)
    ensures es == [] && s == START && IsRun(es) && After(es) == s
  {
    es, s := [], START;
  }

  /** One step more than a run is a run. */
  lemma Extend(es: seq<Step>, s: State, e: Step) returns (fs: seq<Step>, t: State)
    requires IsRun(es) && After(es) == s && Enabled(s, e)
    ensures fs == es + [e] && IsRun(fs) && t == Next(s, e) && After(fs) == t
  {
    fs, t := es + [e], Next(s, e);
    assert fs[..|fs| - 1] == es;
  }

  /** A waits to release, B opens the file, A releases, B flocks the file nobody can find any more, and C
      locks a new file of the same name. */
  function Overlap(a: Proc, b: Proc, c: Proc, n: Name): (es: seq<Step>) {
    [Open(a, n), Flock(a, n), Open(b, n), Unlink(a, n), Close(a, n), Flock(b, n), Open(c, n), Flock(c, n)]
  }

  lemma OverlapIsDisturbed(a: Proc, b: Proc, c: Proc, n: Name)
    requires a != b && b != c
    ensures !Undisturbed(Overlap(a, b, c, n))
  {
    var es := Overlap(a, b, c, n);
    assert OpenOf(es, 2, 5) && UnlinksName(es[3], n);
  }

  /** A process acquires a name that leads nowhere. */
  lemma Locked(a: Proc, n: Name) returns (es: seq<Step>, s: State)
    ensures es == [Open(a, n), Flock(a, n)] && IsRun(es) && After(es) == s
    ensures s == START.(dir := map[n := 0], home := [n], flocked := map[0 := Holder(a, n)],
                        phase := map[(a, n) := Holding(0, false)])
  {
    hide IsRun, After;
    es, s := Begin();
    es, s := Extend(es, s, Open(a, n));
    assert s == START.(dir := map[n := 0], home := [n], phase := map[(a, n) := Opened(0)]) by {
      assert s.phase == map[(a, n) := Opened(0)] && s.dir == map[n := 0] && s.home == [n];
    }
    es, s := Extend(es, s, Flock(a, n));
    assert s.phase == map[(a, n) := Holding(0, false)] && s.flocked == map[0 := Holder(a, n)];
  }

  /** Its file is unlinked and closed while another process is about to flock it. */
  lemma Abandoned(a: Proc, b: Proc, n: Name) returns (es: seq<Step>, s: State)
    requires a != b
    ensures es == [Open(a, n), Flock(a, n), Open(b, n), Unlink(a, n), Close(a, n)] && IsRun(es) && After(es) == s
    ensures s.dir == map[] && s.ended == {} && |s.home| == 1 && s.flocked == map[]
    ensures s.phase == map[(b, n) := Opened(0)]
  {
    hide IsRun, After;
    es, s := Locked(a, n);
    es, s := Extend(es, s, Open(b, n));
    assert s.phase == map[(a, n) := Holding(0, false), (b, n) := Opened(0)];
    es, s := Extend(es, s, Unlink(a, n));
    assert s.phase == map[(a, n) := Unlinked(0), (b, n) := Opened(0)];
    es, s := Extend(es, s, Close(a, n));
  }

  /** After that run both B and C hold the name. */
  lemma TwoHolders(a: Proc, b: Proc, c: Proc, n: Name)
    requires a != b && b != c && a != c
    ensures IsRun(Overlap(a, b, c, n))
    ensures var s := After(Overlap(a, b, c, n)); Enabled(s, Unlink(b, n)) && Enabled(s, Unlink(c, n))
  {
    hide IsRun, After;
    var es, s := Abandoned(a, b, n);
    es, s := Extend(es, s, Flock(b, n));
    assert s.phase == map[(b, n) := Holding(0, false)];
    es, s := Extend(es, s, Open(c, n));
    es, s := Extend(es, s, Flock(c, n));
    assert es == Overlap(a, b, c, n);
  }

  /** A process acquires a name and writes its file. */
  lemma WrittenLock(a: Proc, n: Name) returns (es: seq<Step>, s: State)
    ensures es == [Open(a, n), Flock(a, n), WriteBegin(a, n), WriteEnd(a, n)] && IsRun(es) && After(es) == s
    ensures s == START.(dir := map[n := 0], home := [n], flocked := map[0 := Holder(a, n)],
                        phase := map[(a, n) := Holding(0, false)], content := map[0 := Text(a.execId)],
                        writer := map[0 := a])
  {
    hide IsRun, After;
    es, s := Locked(a, n);
    es, s := Extend(es, s, WriteBegin(a, n));
    assert s.phase == map[(a, n) := Holding(0, true)] && s.content == map[0 := Partial] && s.writer == map[0 := a];
    es, s := Extend(es, s, WriteEnd(a, n));
    assert s.phase == map[(a, n) := Holding(0, false)] && s.content == map[0 := Text(a.execId)];
  }

  /** The reader opens a file its owner then releases properly: it still reports unlocked. */
  lemma UnlockedAfterRelease(a: Proc, n: Name, r: nat) returns (es: seq<Step>)
    ensures IsRun(es) && ReportsUnlocked(After(es), r) && After(es).looks[r].ino in After(es).writer
    ensures After(es).writer[After(es).looks[r].ino] == a && a !in After(es).ended
    ensures (a, After(es).looks[r].ino) in After(es).released
  {
    hide IsRun, After;
    var s;
    es, s := WrittenLock(a, n);
    es, s := Extend(es, s, LookOpen(r, n));
    es, s := Extend(es, s, Unlink(a, n));
    es, s := Extend(es, s, Close(a, n));
  }

  /** A process ends while it holds a file it has written. */
  lemma DeadWriter(a: Proc, n: Name) returns (es: seq<Step>, s: State)
    ensures es == [Open(a, n), Flock(a, n), WriteBegin(a, n), WriteEnd(a, n), End(a)] && IsRun(es) && After(es) == s
    ensures s == START.(dir := map[n := 0], home := [n], content := map[0 := Text(a.execId)], writer := map[0 := a],
                              ended := {a})
  {
    hide IsRun, After;
    es, s := WrittenLock(a, n);
    es, s := Extend(es, s, End(a));
    assert s.phase == map[] && s.flocked == map[];
  }

  /** A lock taken by matching exec id can rest on a dead process: the writer ended, a reader briefly owns
      the flock, and the worker finds its own exec id in the file. */
  lemma SiblingOfNobody(a: Proc, b: Proc, n: Name, r: nat) returns (es: seq<Step>)
    requires a != b && a.execId == b.execId
    ensures IsRun(es) && (b, n) in After(es).phase && After(es).phase[(b, n)].Sibling?
    ensures forall i :: i in After(es).flocked ==> !After(es).flocked[i].Holder?
  {
    hide IsRun, After;
    var s;
    es, s := DeadWriter(a, n);
    es, s := Extend(es, s, LookOpen(r, n));
    es, s := Extend(es, s, LookFlock(r));
    assert s.flocked == map[0 := Probe(r)] && s.phase == map[];
    es, s := TakesAsSibling(es, s, b, n);
  }

  /** A process finds a flocked file with its own exec id. */
  lemma TakesAsSibling(es: seq<Step>, s: State, b: Proc, n: Name) returns (fs: seq<Step>, t: State)
    requires IsRun(es) && After(es) == s && !At(s, b, n) && b !in s.ended
    requires n in s.dir && s.dir[n] in s.flocked && SameExecId(s, s.dir[n], b)
    ensures fs == es + [Open(b, n), Flock(b, n), ReadClose(b, n)] && IsRun(fs) && After(fs) == t
    ensures At(t, b, n) && t.phase[(b, n)].Sibling? && t.flocked == s.flocked
  {
    hide IsRun, After;
    fs, t := Extend(es, s, Open(b, n));
    assert t.phase[(b, n)] == Opened(s.dir[n]);
    fs, t := Extend(fs, t, Flock(b, n));
    assert t.phase[(b, n)] == Refused(s.dir[n]);
    fs, t := Extend(fs, t, ReadClose(b, n));
  }

  /** It can even stand beside the lock of a foreign process, which has taken the dead process's file and not
      written its own exec id yet. No file is unlinked in this run. */
  lemma SiblingOfForeign(a: Proc, b: Proc, c: Proc, n: Name) returns (es: seq<Step>)
    requires a != b && a.execId == b.execId && c.execId != a.execId
    ensures IsRun(es) && Undisturbed(es)
    ensures (b, n) in After(es).phase && After(es).phase[(b, n)].Sibling?
    ensures After(es).flocked == map[0 := Holder(c, n)]
  {
    hide IsRun, After;
    var s;
    es, s := DeadWriter(a, n);
    es, s := Extend(es, s, Open(c, n));
    assert s.phase == map[(c, n) := Opened(0)];
    es, s := Extend(es, s, Flock(c, n));
    assert s.phase == map[(c, n) := Holding(0, false)] && s.flocked == map[0 := Holder(c, n)];
    es, s := TakesAsSibling(es, s, b, n);
    assert forall j :: 0 <= j < |es| ==> !es[j].Unlink?;
  }
}
