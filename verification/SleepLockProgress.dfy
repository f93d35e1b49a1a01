/**
 What the steps of a sleep lock achieve: a call that runs alone does its work,
 and from every state a run can reach, every process can still get the lock,
 without any help from kill.
 */
module SleepLockProgress {
  import opened SleepLock

  /** Only processes run, and locks the environment holds are freed. */
  predicate Unaided(run: seq<Action>) {
    forall k :: 0 <= k < |run| ==> run[k].Run? || (run[k].Free? && !run[k].wake)
  }

  ghost predicate Leads(s: State, run: seq<Action>, s': State) {
    Legal(s, run) && Exec(s, run) == s' && Unaided(run)
  }

  lemma LeadsNowhere(s: State)
    ensures Leads(s, [], s)
  {
  }

  lemma LeadsFirst(s: State, a: Action, run: seq<Action>, s': State)
    requires Enabled(s, a) && (a.Run? || (a.Free? && !a.wake)) && Leads(Apply(s, a), run, s')
    ensures Leads(s, [a] + run, s')
  {
    assert ([a] + run)[1..] == run;
  }

  lemma {:induction false} LeadsOn(s: State, run: seq<Action>, s1: State, more: seq<Action>, s2: State)
    requires Leads(s, run, s1) && Leads(s1, more, s2)
    ensures Leads(s, run + more, s2)
    decreases |run|
  {
    if run == [] {
      assert run + more == more;
    } else {
      LeadsOn(Apply(s, run[0]), run[1..], s1, more, s2);
      LeadsFirst(s, run[0], run[1..] + more, s2);
      assert [run[0]] + (run[1..] + more) == run + more;
    }
  }

  lemma LeadsInv(s: State, run: seq<Action>, s': State)
    requires Inv(s) && Leads(s, run, s')
    ensures Inv(s') && s'.n == s.n
  {
    RunKeepsInv(s, run);
  }

  // ----- calls that run alone -----

  /** The state once process p has the free lock. */
  function Acquired(s: State, p: nat): State
    requires p < |s.pcs|
  {
    s.(pcs := s.pcs[p := Holding], locked := true, pid := p)
  }

  /** acquiresleep on a free lock takes it, and changes nothing else. */
  lemma AcquireAlone(s: State, p: nat) returns (run: seq<Action>)
    requires Inv(s) && p < s.n && s.inner == Nobody && !s.locked && (s.pcs[p].Idle? || s.pcs[p].Want?)
    ensures Leads(s, run, Acquired(s, p))
    ensures HoldingSleep(Acquired(s, p), p) && forall k :: 0 <= k < |run| ==> run[k] == Run(p)
  {
    var s1 := if s.pcs[p].Idle? then Apply(s, Run(p)) else s;
    var s2 := Apply(s1, Run(p));
    var s3 := Apply(s2, Run(p));
    var s4 := Apply(s3, Run(p));
    assert s4.pcs == s.pcs[p := Holding];
    hide Inv, Legal, Exec;
    LeadsNowhere(s4);
    LeadsFirst(s3, Run(p), [], s4);
    LeadsFirst(s2, Run(p), [Run(p)] + [], s4);
    LeadsFirst(s1, Run(p), [Run(p)] + ([Run(p)] + []), s4);
    run := [Run(p)] + ([Run(p)] + ([Run(p)] + []));
    if s.pcs[p].Idle? {
      LeadsFirst(s, Run(p), run, s4);
      run := [Run(p)] + run;
    }
  }

  /** acquiresleep on a lock that is taken puts the process to sleep, and changes nothing else. */
  lemma SleepAlone(s: State, p: nat) returns (run: seq<Action>)
    requires Inv(s) && p < s.n && s.inner == Nobody && s.locked && s.pcs[p].Want? && s.plock[p] == Nobody
    ensures Leads(s, run, s.(pcs := s.pcs[p := Off], asleep := s.asleep[p := true]))
    ensures forall k :: 0 <= k < |run| ==> run[k] == Run(p)
  {
    var s1 := Apply(s, Run(p));
    var s2 := Apply(s1, Run(p));
    var s3 := Apply(s2, Run(p));
    var s4 := Apply(s3, Run(p));
    var s5 := Apply(s4, Run(p));
    var s6 := Apply(s5, Run(p));
    assert s6.pcs == s.pcs[p := Off] && s6.plock == s.plock;
    hide Inv, Legal, Exec;
    LeadsNowhere(s6);
    LeadsFirst(s5, Run(p), [], s6);
    LeadsFirst(s4, Run(p), [Run(p)] + [], s6);
    run := [Run(p)] + ([Run(p)] + []);
    LeadsFirst(s3, Run(p), run, s6);
    LeadsFirst(s2, Run(p), [Run(p)] + run, s6);
    run := [Run(p)] + ([Run(p)] + run);
    LeadsFirst(s1, Run(p), run, s6);
    LeadsFirst(s, Run(p), [Run(p)] + run, s6);
    run := [Run(p)] + ([Run(p)] + run);
  }

  // ----- the environment -----

  /** kill makes a sleeping process runnable, and changes nothing else. */
  lemma KillWakes(s: State, p: nat)
    requires Sized(s) && p < s.n && s.plock[p] == Nobody
    ensures Enabled(s, Lock(p)) && Enabled(Apply(s, Lock(p)), Free(p, true))
    ensures Apply(Apply(s, Lock(p)), Free(p, true)) == s.(asleep := s.asleep[p := false])
  {
    assert s.plock[p := Other][p := Nobody] == s.plock;
  }

  /** While another has the lock of process p, no one puts p to sleep or wakes it. */
  lemma {:induction false} LockedOut(s: State, p: nat, run: seq<Action>)
    requires Inv(s) && p < s.n && s.plock[p] == Other && Legal(s, run)
    requires forall k :: 0 <= k < |run| ==> !(run[k].Free? && run[k].p == p)
    ensures var s' := Exec(s, run); Sized(s') && s'.n == s.n && s'.plock[p] == Other && s'.asleep[p] == s.asleep[p]
    decreases |run|
  {
    if run != [] {
      StepKeepsInv(s, run[0]);
      OutStep(s, p, run[0]);
      hide Inv, Apply;
      LockedOut(Apply(s, run[0]), p, run[1..]);
    }
  }

  lemma OutStep(s: State, p: nat, a: Action)
    requires Inv(s) && p < s.n && s.plock[p] == Other && Enabled(s, a) && !(a.Free? && a.p == p)
    ensures var s' := Apply(s, a); Sized(s') && s'.n == s.n && s'.plock[p] == Other && s'.asleep[p] == s.asleep[p]
  {
    if a.Run? {
      var q := a.p;
      assert HoldsOwn(s.pcs[q]) ==> s.plock[q] == Proc(q);
      assert s.pcs[q].Check? ==> s.pcs[q].i < s.n && s.plock[s.pcs[q].i] == Proc(q);
      hide Inv;
      if s.pcs[q].Check? {
        assert s.pcs[q].i != p;
      } else if HoldsOwn(s.pcs[q]) {
        assert q != p;
      }
    }
  }

  /** No process's own lock is held, and process p is not asleep. */
  ghost predicate Clean(s: State, p: nat) {
    && Sized(s) && p < s.n && (forall x: nat :: x < s.n ==> s.plock[x] == Nobody)
    && (forall x: nat :: x < s.n && s.asleep[x] ==> x != p)
  }

  /** wakeup from process i on, and the release that follows it. */
  function Woken(s: State, p: nat, i: nat): State
    requires Sized(s) && p < s.n
  {
    s.(pcs := s.pcs[p := Idle], inner := Nobody,
       asleep := seq(s.n, x requires 0 <= x < s.n => s.asleep[x] && x < i))
  }

  lemma {:induction false} WakeupAlone(s: State, p: nat, i: nat) returns (run: seq<Action>)
    requires Clean(s, p) && s.pcs[p] == Scan(i)
    ensures Leads(s, run, Woken(s, p, i)) && forall k :: 0 <= k < |run| ==> run[k] == Run(p)
    decreases s.n - i
  {
    var s1 := Apply(s, Run(p));
    if i >= s.n {
      LeadsNowhere(s1);
      LeadsFirst(s, Run(p), [], s1);
      run := [Run(p)] + [];
      assert s1.asleep == Woken(s, p, i).asleep;
    } else if i == p {
      run := WakeupAlone(s1, p, i + 1);
      WokenNext(s, s1, p, i);
      LeadsFirst(s, Run(p), run, Woken(s, p, i));
      run := [Run(p)] + run;
    } else {
      var s2 := Apply(s1, Run(p));
      assert s2.plock == s.plock;
      run := WakeupAlone(s2, p, i + 1);
      WokenNext(s, s2, p, i);
      LeadsFirst(s1, Run(p), run, Woken(s, p, i));
      LeadsFirst(s, Run(p), [Run(p)] + run, Woken(s, p, i));
      run := [Run(p)] + ([Run(p)] + run);
    }
  }

  lemma WokenNext(s: State, s': State, p: nat, i: nat)
    requires Clean(s, p) && i < s.n && s'.pcs == s.pcs[p := Scan(i + 1)] && s'.plock == s.plock
    requires s'.asleep == (if i == p then s.asleep else s.asleep[i := false])
    requires s'.n == s.n && s'.locked == s.locked && s'.pid == s.pid
    ensures Clean(s', p) && Woken(s', p, i + 1) == Woken(s, p, i)
  {
    assert Woken(s', p, i + 1).asleep == Woken(s, p, i).asleep;
    assert Woken(s', p, i + 1).pcs == Woken(s, p, i).pcs;
  }

  /** The state once process p has let go of the lock: no one is asleep on it. */
  function Released(s: State, p: nat): State
    requires Sized(s) && p < s.n
  {
    s.(pcs := s.pcs[p := Idle], locked := false, pid := s.n, asleep := seq(s.n, x => false))
  }

  /** releasesleep frees the lock and wakes every sleeper, and changes nothing else. */
  lemma ReleaseAlone(s: State, p: nat) returns (run: seq<Action>)
    requires Inv(s) && Clean(s, p) && s.inner == Nobody && (s.pcs[p].Holding? || s.pcs[p].WantRelease?)
    ensures Leads(s, run, Released(s, p)) && forall k :: 0 <= k < |run| ==> run[k] == Run(p)
  {
    var s1 := if s.pcs[p].Holding? then Apply(s, Run(p)) else s;
    var s2 := Apply(s1, Run(p));
    var s3 := Apply(s2, Run(p));
    run := WakeupAlone(s3, p, 0);
    hide Inv, Legal, Exec;
    assert Woken(s3, p, 0).asleep == Released(s, p).asleep && Woken(s3, p, 0).pcs == Released(s, p).pcs;
    var s4 := Released(s, p);
    LeadsFirst(s2, Run(p), run, s4);
    LeadsFirst(s1, Run(p), [Run(p)] + run, s4);
    run := [Run(p)] + ([Run(p)] + run);
    if s.pcs[p].Holding? {
      LeadsFirst(s, Run(p), run, s4);
      run := [Run(p)] + run;
    }
  }

  // ----- letting everyone finish what it is in the midst of -----

  /** The steps process p has yet to take before it holds no spinlock. */
  function Left(n: nat, pc: Pc): nat {
    match pc
    case Test => 5
    case LockSelf => 4
    case Unlock => 3
    case GoToSleep => 2
    case Switch => 1
    case Tidy => 1
    case Leave => 1
    case Clear => 2 * n + 2
    case Scan(i) => if i < n then 2 * (n - i) + 1 else 1
    case Check(i) => if i < n then 2 * (n - i) else 0
    case _ => 0
  }

  function LeftOf(s: State, p: nat): nat
    requires Sized(s) && p < s.n
  {
    Left(s.n, s.pcs[p]) + if s.plock[p] == Other then 1 else 0
  }

  function AllLeft(s: State, k: nat): nat
    requires Sized(s) && k <= s.n
  {
    if k == 0 then 0 else AllLeft(s, k - 1) + LeftOf(s, k - 1)
  }

  /** One process has less left to do, the others no more. */
  lemma {:induction false} AllLess(s: State, s': State, k: nat)
    requires Sized(s) && Sized(s') && s'.n == s.n && k <= s.n
    requires forall x: nat :: x < s.n ==> LeftOf(s', x) <= LeftOf(s, x)
    ensures AllLeft(s', k) <= AllLeft(s, k)
    ensures (exists x: nat :: x < k && LeftOf(s', x) < LeftOf(s, x)) ==> AllLeft(s', k) < AllLeft(s, k)
  {
    if k > 0 {
      AllLess(s, s', k - 1);
    }
  }

  /** No one holds a spinlock. */
  ghost predicate Settled(s: State) {
    && Sized(s) && s.inner == Nobody
    && (forall x: nat :: x < s.n ==> s.plock[x] == Nobody && Left(s.n, s.pcs[x]) == 0)
  }

  lemma HoldersLeft(s: State, p: nat)
    requires Inv(s) && p < s.n
    ensures HoldsInner(s.pcs[p]) || HoldsOwn(s.pcs[p]) || s.pcs[p].Check? ==> LeftOf(s, p) > 0
    ensures s.plock[p] != Nobody ==>
              var q := if s.plock[p] == Other then p else s.plock[p].p; q < s.n && LeftOf(s, q) > 0
  {
    if s.plock[p].Proc? {
      assert Takes(s.pcs, s.plock[p].p, p);
    }
  }

  lemma SettledIff(s: State)
    requires Inv(s)
    ensures Settled(s) <==> forall x: nat :: x < s.n ==> LeftOf(s, x) == 0
  {
    if s.inner.Proc? {
      HoldersLeft(s, s.inner.p);
    }
    forall x: nat | x < s.n
      ensures s.plock[x] == Nobody || exists q: nat :: q < s.n && LeftOf(s, q) > 0
    {
      HoldersLeft(s, x);
    }
    if Settled(s) {
      forall x: nat | x < s.n ensures LeftOf(s, x) == 0 {
        assert s.plock[x] == Nobody && Left(s.n, s.pcs[x]) == 0;
      }
    } else if s.inner == Nobody {
      var x: nat :| x < s.n && !(s.plock[x] == Nobody && Left(s.n, s.pcs[x]) == 0);
      assert s.plock[x] == Nobody ==> LeftOf(s, x) > 0;
    }
  }

  /** A process whose next step is not held up. */
  ghost predicate Ready(s: State, a: Action) {
    && Enabled(s, a) && !a.Lock?
    && match a
       case Run(p) => Left(s.n, s.pcs[p]) > 0
       case Free(_, wake) => !wake
  }

  lemma ReadyLess(s: State, a: Action)
    requires Inv(s) && Ready(s, a)
    ensures var s' := Apply(s, a);
      Sized(s') && s'.n == s.n && (forall x: nat :: x < s.n ==> LeftOf(s', x) <= LeftOf(s, x))
      && LeftOf(s', a.p) < LeftOf(s, a.p)
  {
    var s', p := Apply(s, a), a.p;
    if a.Run? {
      StepLess(s, p);
      hide Left, Inv, Apply;
    }
  }

  lemma StepLess(s: State, p: nat)
    requires Inv(s) && Ready(s, Run(p))
    ensures var s' := Apply(s, Run(p));
      && Sized(s') && s'.n == s.n && Left(s.n, s'.pcs[p]) < Left(s.n, s.pcs[p])
      && (forall x: nat :: x < s.n && x != p ==> s'.pcs[x] == s.pcs[x])
      && (forall x: nat :: x < s.n && s'.plock[x] == Other ==> s.plock[x] == Other)
  {
    assert s.pcs[p].Check? ==> s.pcs[p].i < s.n;
    hide Inv, Ready;
    StepFrame(s, p);
    hide Sized;
  }

  lemma StepFrame(s: State, p: nat)
    requires Enabled(s, Run(p))
    ensures var s' := Apply(s, Run(p));
      && Sized(s') && s'.n == s.n
      && (forall x: nat :: x < s.n && x != p ==> s'.pcs[x] == s.pcs[x])
      && (forall x: nat :: x < s.n && s'.plock[x] == Other ==> s.plock[x] == Other)
  {
  }

  /** Whoever holds the lock of process x can go on. */
  lemma HolderReady(s: State, x: nat) returns (a: Action)
    requires Inv(s) && x < s.n && s.plock[x] != Nobody
    ensures Ready(s, a)
  {
    if s.plock[x] == Other {
      a := Free(x, false);
    } else {
      var p := s.plock[x].p;
      assert Takes(s.pcs, p, x);
      a := Run(p);
    }
  }

  lemma SomeReady(s: State, x: nat) returns (a: Action)
    requires Inv(s) && x < s.n && LeftOf(s, x) > 0
    ensures Ready(s, a)
  {
    if s.plock[x] != Nobody {
      a := HolderReady(s, x);
    } else if s.pcs[x].Scan? && s.pcs[x].i < s.n && s.pcs[x].i != x && s.plock[s.pcs[x].i] != Nobody {
      a := HolderReady(s, s.pcs[x].i);
    } else {
      a := Run(x);
    }
  }

  /** From any state everyone can come to where it holds no spinlock. */
  lemma {:induction false} CanSettle(s: State) returns (run: seq<Action>, s': State)
    requires Inv(s)
    ensures Leads(s, run, s') && Settled(s') && Inv(s') && s'.n == s.n
    decreases AllLeft(s, s.n)
  {
    SettledIff(s);
    if Settled(s) {
      LeadsNowhere(s);
      return [], s;
    }
    var x: nat :| x < s.n && LeftOf(s, x) > 0;
    var a := SomeReady(s, x);
    ReadyLess(s, a);
    AllLess(s, Apply(s, a), s.n);
    StepKeepsInv(s, a);
    hide Inv, Settled, Apply;
    run, s' := CanSettle(Apply(s, a));
    LeadsFirst(s, a, run, s');
    run := [a] + run;
  }

  // ----- every process can get the lock -----

  /** A lock that is free can be had by any process, once no spinlock is held. */
  lemma FreeObtainable(s: State, p: nat) returns (run: seq<Action>, s': State)
    requires Inv(s) && Settled(s) && p < s.n && !s.locked
    ensures Leads(s, run, s') && s'.pcs == s.pcs[p := Holding] && HoldingSleep(s', p)
  {
    assert !HasLock(s.pcs[p]) && !s.asleep[p];
    assert Left(s.n, s.pcs[p]) == 0;
    s' := Acquired(s, p);
    if s.pcs[p].Off? {
      var s1 := Apply(s, Run(p));
      var s2 := Apply(s1, Run(p));
      StepKeepsInv(s, Run(p));
      StepKeepsInv(s1, Run(p));
      run := AcquireAlone(s2, p);
      hide Inv;
      assert s2.plock == s.plock && Acquired(s2, p).pcs == s'.pcs;
      LeadsFirst(s1, Run(p), run, s');
      LeadsFirst(s, Run(p), [Run(p)] + run, s');
      run := [Run(p)] + ([Run(p)] + run);
    } else {
      run := AcquireAlone(s, p);
    }
  }

  /** In every state a run reaches, every process has a way to get the lock, whoever has it or
      sleeps, and no kill is needed on the way. */
  lemma LockObtainable(n: nat, run: seq<Action>, p: nat) returns (more: seq<Action>)
    requires Legal(Initial(n), run) && p < n
    ensures Legal(Exec(Initial(n), run), more) && Unaided(more)
    ensures var s := Exec(Exec(Initial(n), run), more); |s.pcs| == n && s.pcs[p] == Holding && HoldingSleep(s, p)
  {
    var s := Exec(Initial(n), run);
    assert Inv(Initial(n));
    RunKeepsInv(Initial(n), run);
    var s1;
    more, s1 := CanSettle(s);
    if s1.locked {
      var h := s1.pid;
      HolderSettled(s1, h);
      var r := ReleaseAlone(s1, h);
      LeadsOn(s, more, s1, r, Released(s1, h));
      LeadsInv(s1, r, Released(s1, h));
      ReleasedSettled(s1, h);
      more, s1 := more + r, Released(s1, h);
    }
    var r, s2 := FreeObtainable(s1, p);
    LeadsOn(s, more, s1, r, s2);
    more := more + r;
  }

  lemma HolderSettled(s: State, h: nat)
    requires Inv(s) && Settled(s) && s.locked && h == s.pid
    ensures h < s.n && Clean(s, h) && (s.pcs[h].Holding? || s.pcs[h].WantRelease?)
  {
    assert HasLock(s.pcs[h]) && Left(s.n, s.pcs[h]) == 0;
  }

  lemma ReleasedSettled(s: State, h: nat)
    requires Settled(s) && h < s.n
    ensures Settled(Released(s, h))
  {
  }

  // ----- calls end as they should -----

  /** In acquiresleep, short of having the lock. */
  predicate Acquiring(pc: Pc) {
    pc.Want? || pc.Test? || pc.LockSelf? || pc.Unlock? || pc.GoToSleep? || pc.Switch? || pc.Off? || pc.Tidy?
  }

  lemma AcquiringStep(s: State, a: Action, p: nat)
    requires Enabled(s, a) && p < s.n && Acquiring(s.pcs[p])
    ensures |Apply(s, a).pcs| == s.n && (Acquiring(Apply(s, a).pcs[p]) || HasLock(Apply(s, a).pcs[p]))
  {
  }

  /** A process that has called acquiresleep, however often it has slept and been woken, by
      wakeup or by kill, does not get past the call but by taking the lock. */
  lemma {:induction false} ReturnsWithLock(s: State, run: seq<Action>, p: nat) returns (k: nat)
    requires Inv(s) && p < s.n && Acquiring(s.pcs[p]) && Legal(s, run)
    requires |Exec(s, run).pcs| == s.n && !Acquiring(Exec(s, run).pcs[p])
    ensures k <= |run| && Legal(s, run[..k]) && HoldingSleep(Exec(s, run[..k]), p)
    decreases |run|
  {
    hide Inv, Apply;
    var s1 := Apply(s, run[0]);
    StepKeepsInv(s, run[0]);
    AcquiringStep(s, run[0], p);
    if HasLock(s1.pcs[p]) {
      k := 1;
      assert run[..1][1..] == [] && run[..1][0] == run[0];
      HasLockHolds(s1, p);
    } else {
      StepSized(s, run[0]);
      k := ReturnsWithLock(s1, run[1..], p);
      assert run[..k + 1][1..] == run[1..][..k] && run[..k + 1][0] == run[0];
      k := k + 1;
    }
  }

  lemma HasLockHolds(s: State, p: nat)
    requires Inv(s) && p < |s.pcs| && HasLock(s.pcs[p])
    ensures HoldingSleep(s, p)
  {
  }

  lemma StepSized(s: State, a: Action)
    requires Enabled(s, a)
    ensures Apply(s, a).n == s.n
  {
  }
}
