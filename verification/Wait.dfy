/** The backoff timer: sleeps that grow like the Fibonacci numbers up to a deadline, and two grace retries. */
module Wait {
  const MSEC_PER_SEC: nat := 1000

  /** Longest wait accepted, in milliseconds. */
  const WAIT_MAX: nat := 999999000

  datatype State = State(waitTime: nat, sleepTime: nat, sleepPrevTime: nat, beginTime: nat, retry: nat)

  function Base(waitTime: nat): nat {
    if waitTime >= MSEC_PER_SEC then MSEC_PER_SEC / 10 else waitTime / 10
  }

  function Start(waitTime: nat, now: nat): State {
    State(waitTime, Base(waitTime), 0, now, 2)
  }

  function Min(a: nat, b: nat): nat {
    if a < b then a else b
  }

  /** Is the wait time not over yet? */
  predicate InTime(s: State, now: nat) {
    now < s.beginTime + s.waitTime
  }

  /** What a call reports as remaining. */
  function Remaining(s: State, now: nat): nat
    requires s.beginTime <= now
  {
    if s.sleepTime == 0 then 0
    else if InTime(s, now) then s.waitTime - (now - s.beginTime)
    else if s.retry != 0 then s.sleepTime
    else 0
  }

  function Next(s: State, now: nat): State
    requires s.beginTime <= now
  {
    if s.sleepTime == 0 then s
    else
      var left := if s.retry > 0 then s.retry - 1 else 0;
      if InTime(s, now) then
        s.(sleepPrevTime := s.sleepTime, sleepTime := Min(s.sleepTime + s.sleepPrevTime, Remaining(s, now)),
          retry := left)
      else if s.retry != 0 then s.(retry := left)
      else s.(sleepTime := 0, retry := left)
  }

  class Timer {
    var waitTime: nat
    var sleepTime: nat
    var sleepPrevTime: nat
    var beginTime: nat
    var retry: nat

    ghost function Now(): State
      reads this
    {
      State(waitTime, sleepTime, sleepPrevTime, beginTime, retry)
    }

    constructor (waitTime: nat, now: nat)
      requires waitTime <= WAIT_MAX
      ensures Now() == Start(waitTime, now)
      ensures this.waitTime == waitTime && beginTime == now && retry == 2 && sleepPrevTime == 0
      ensures sleepTime == if waitTime >= 1000 then 100 else waitTime / 10
    {
      this.waitTime := waitTime;
      retry := 2;
      if waitTime >= MSEC_PER_SEC {
        sleepTime := MSEC_PER_SEC / 10;
      } else {
        sleepTime := waitTime / 10;
      }
      sleepPrevTime := 0;
      beginTime := now;
    }

    method Remains(now: nat) returns (result: nat)
      requires beginTime <= now
      modifies this
      ensures result == Remaining(old(Now()), now) && Now() == Next(old(Now()), now)
      ensures old(sleepTime) > 0 && now - beginTime < waitTime ==> result == waitTime - (now - beginTime)
      ensures old(sleepTime) > 0 && now - beginTime >= waitTime ==>
        result == if old(retry) > 0 then old(sleepTime) else 0
    {
      result := 0;
      if sleepTime > 0 {
        var elapsedTime := now - beginTime;
        if elapsedTime < waitTime {
          result := waitTime - elapsedTime;
          var sleep := sleepTime + sleepPrevTime;
          if sleep > result {
            sleep := result;
          }
          sleepPrevTime := sleepTime;
          sleepTime := sleep;
        } else if retry != 0 {
          result := sleepTime;
        } else {
          sleepTime := 0;
        }
        if retry > 0 {
          retry := retry - 1;
        }
      }
    }

    /** `slept` is how long the call sleeps at least. */
    method More(now: nat) returns (more: bool, slept: nat)
      requires beginTime <= now
      modifies this
      ensures more == (Remaining(old(Now()), now) > 0) && Now() == Next(old(Now()), now)
      ensures slept == if more then Now().sleepTime else 0
    {
      more, slept := false, 0;
      var remains := Remains(now);
      if remains > 0 {
        slept := sleepTime;
        more := true;
      }
    }
  }

  // ---------------------------------------------------------------------------------------------
  // Runs of calls, one clock reading each

  /** The state before call `i`. */
  function At(waitTime: nat, begin: nat, clock: seq<nat>, i: nat): (s: State)
    requires i <= |clock| && forall j :: 0 <= j < |clock| ==> begin <= clock[j]
    ensures s.waitTime == waitTime && s.beginTime == begin
  {
    if i == 0 then Start(waitTime, begin) else Next(At(waitTime, begin, clock, i - 1), clock[i - 1])
  }

  /** Does call `i` return true, and how long does it sleep? */
  predicate More(waitTime: nat, begin: nat, clock: seq<nat>, i: nat)
    requires i < |clock| && forall j :: 0 <= j < |clock| ==> begin <= clock[j]
  {
    Remaining(At(waitTime, begin, clock, i), clock[i]) > 0
  }

  function Slept(waitTime: nat, begin: nat, clock: seq<nat>, i: nat): nat
    requires i < |clock| && forall j :: 0 <= j < |clock| ==> begin <= clock[j]
  {
    if More(waitTime, begin, clock, i) then At(waitTime, begin, clock, i + 1).sleepTime else 0
  }

  /** The clock never runs backwards, and a sleep lasts at least as long as asked. */
  ghost predicate Paced(waitTime: nat, begin: nat, clock: seq<nat>) {
    && (forall j :: 0 <= j < |clock| ==> begin <= clock[j])
    && forall i: nat {:trigger Slept(waitTime, begin, clock, i)} :: i + 1 < |clock| ==>
      clock[i] + Slept(waitTime, begin, clock, i) <= clock[i + 1]
  }

  /** How many calls come before the deadline. */
  function InLimit(waitTime: nat, begin: nat, clock: seq<nat>): (n: nat)
    ensures n <= |clock| && (forall i :: 0 <= i < n ==> clock[i] < begin + waitTime)
    ensures n < |clock| ==> clock[n] >= begin + waitTime
  {
    if clock == [] || clock[0] >= begin + waitTime then 0 else 1 + InLimit(waitTime, begin, clock[1..])
  }

  function Fib(n: nat): nat {
    if n < 2 then n else Fib(n - 2) + Fib(n - 1)
  }

  /** The same sequence started from a base. */
  function Scaled(base: nat, n: nat): (r: nat)
    ensures base > 0 && n > 0 ==> r > 0
  {
    if n == 0 then 0 else if n == 1 then base else Scaled(base, n - 2) + Scaled(base, n - 1)
  }

  lemma Distribute(a: nat, b: nat, c: nat)
    ensures a * (b + c) == a * b + a * c
  {
  }

  lemma {:induction false} ScaledIsMultiple(base: nat, n: nat)
    ensures Scaled(base, n) == base * Fib(n)
  {
    if n >= 2 {
      ScaledIsMultiple(base, n - 2);
      ScaledIsMultiple(base, n - 1);
      Distribute(base, Fib(n - 2), Fib(n - 1));
    }
  }

  /** As long as the calls are in time, the sleep times are the Fibonacci multiples of the base. */
  lemma {:induction false} InTimeState(waitTime: nat, begin: nat, clock: seq<nat>, i: nat)
    requires Paced(waitTime, begin, clock) && i < |clock| && Base(waitTime) > 0
    requires forall j :: 0 <= j <= i ==> clock[j] < begin + waitTime
    ensures var s := At(waitTime, begin, clock, i);
            s.sleepTime == Scaled(Base(waitTime), i + 1) && s.sleepPrevTime == Scaled(Base(waitTime), i)
              && s.retry == 2 - Min(i, 2)
  {
    if i > 0 {
      InTimeState(waitTime, begin, clock, i - 1);
      var s := At(waitTime, begin, clock, i - 1);
      assert Slept(waitTime, begin, clock, i - 1) == At(waitTime, begin, clock, i).sleepTime;
    }
  }

  /** The k-th sleep before the deadline is the base times the Fibonacci number k + 1, or what remains. */
  lemma SleepSchedule(waitTime: nat, begin: nat, clock: seq<nat>, i: nat)
    requires Paced(waitTime, begin, clock) && Base(waitTime) > 0 && i < InLimit(waitTime, begin, clock)
    ensures More(waitTime, begin, clock, i)
    ensures Slept(waitTime, begin, clock, i) == Min(Base(waitTime) * Fib(i + 2), begin + waitTime - clock[i]) > 0
  {
    hide Fib, Base;
    InTimeState(waitTime, begin, clock, i);
    assert Scaled(Base(waitTime), i + 2) == Scaled(Base(waitTime), i) + Scaled(Base(waitTime), i + 1);
    ScaledIsMultiple(Base(waitTime), i + 2);
  }

  function TotalSlept(waitTime: nat, begin: nat, clock: seq<nat>, n: nat): nat
    requires n <= |clock| && forall j :: 0 <= j < |clock| ==> begin <= clock[j]
  {
    if n == 0 then 0 else TotalSlept(waitTime, begin, clock, n - 1) + Slept(waitTime, begin, clock, n - 1)
  }

  /** The sleeps before the deadline never add up to more than the wait time, and each takes at least a
      millisecond of it. */
  lemma {:induction false} SleepsFit(waitTime: nat, begin: nat, clock: seq<nat>, n: nat)
    requires Paced(waitTime, begin, clock) && Base(waitTime) > 0 && n <= InLimit(waitTime, begin, clock)
    ensures n <= TotalSlept(waitTime, begin, clock, n) <= waitTime
    ensures n < |clock| ==> begin + TotalSlept(waitTime, begin, clock, n) <= clock[n]
  {
    if n > 0 {
      SleepsFit(waitTime, begin, clock, n - 1);
      SleepSchedule(waitTime, begin, clock, n - 1);
    }
  }

  /** Past the deadline the retries not used up before it are left, and once one call says no all do. */
  lemma {:induction false} PastState(waitTime: nat, begin: nat, clock: seq<nat>, i: nat)
    requires Paced(waitTime, begin, clock) && Base(waitTime) > 0 && InLimit(waitTime, begin, clock) <= i <= |clock|
    ensures var n := InLimit(waitTime, begin, clock); var s := At(waitTime, begin, clock, i);
            s.retry == 2 - Min(i, 2) && (s.sleepTime > 0 <==> i <= n || i <= 2)
  {
    var n := InLimit(waitTime, begin, clock);
    if i == n {
      if n > 0 {
        InTimeState(waitTime, begin, clock, n - 1);
      }
    } else {
      PastState(waitTime, begin, clock, i - 1);
      StaysPast(waitTime, begin, clock, n, i - 1);
    }
  }

  /** A clock that passed the deadline stays past it. */
  lemma {:induction false} StaysPast(waitTime: nat, begin: nat, clock: seq<nat>, n: nat, i: nat)
    requires Paced(waitTime, begin, clock) && n <= i < |clock| && clock[n] >= begin + waitTime
    ensures clock[i] >= begin + waitTime
  {
    if i > n {
      StaysPast(waitTime, begin, clock, n, i - 1);
      assert clock[i - 1] + Slept(waitTime, begin, clock, i - 1) <= clock[i];
    }
  }

  /** Which calls return true: the ones before the deadline and at least the first two, if the wait time is ten
      milliseconds or more; below that none does. */
  lemma TrueCalls(waitTime: nat, begin: nat, clock: seq<nat>, i: nat)
    requires Paced(waitTime, begin, clock) && i < |clock|
    ensures More(waitTime, begin, clock, i) <==> waitTime >= 10 && (i < InLimit(waitTime, begin, clock) || i < 2)
  {
    var n := InLimit(waitTime, begin, clock);
    if Base(waitTime) == 0 {
      NeverMore(waitTime, begin, clock, i);
    } else if i < n {
      SleepSchedule(waitTime, begin, clock, i);
    } else {
      PastState(waitTime, begin, clock, i);
      StaysPast(waitTime, begin, clock, n, i);
    }
  }

  lemma {:induction false} NeverMore(waitTime: nat, begin: nat, clock: seq<nat>, i: nat)
    requires Base(waitTime) == 0 && i <= |clock| && forall j :: 0 <= j < |clock| ==> begin <= clock[j]
    ensures At(waitTime, begin, clock, i).sleepTime == 0
  {
    if i > 0 {
      NeverMore(waitTime, begin, clock, i - 1);
    }
  }

  /** The loop ends: after at most the wait time in milliseconds, or two calls, every call returns false. */
  lemma LoopEnds(waitTime: nat, begin: nat, clock: seq<nat>, i: nat)
    requires Paced(waitTime, begin, clock) && i < |clock| && i >= waitTime && i >= 2
    ensures !More(waitTime, begin, clock, i)
  {
    TrueCalls(waitTime, begin, clock, i);
    if Base(waitTime) > 0 {
      SleepsFit(waitTime, begin, clock, InLimit(waitTime, begin, clock));
    }
  }
}
