/**
 What a process has come to on the multi-level queues, from what has happened to
 it: its state from the last step that concerned it, its level from the quotas it
 has used up, and these from the ticks it has had.
 */
module MlfqQuotas {
  import opened Mlfq
  import opened Process

  /** Slot p has been given to a process in the course of the run. */
  predicate Born(run: Run, p: nat) {
    run.Then? && (run.step == Fork(p) || Born(run.before, p))
  }

  /** The quotas the process in slot p has used up. */
  function Expiries(run: Run, p: nat): nat {
    if run.Begin? || run.step == Fork(p) then 0
    else Expiries(run.before, p) + if run.step == Expire(p) then 1 else 0
  }

  /** The ticks it has had. */
  function Ticks(run: Run, p: nat): nat {
    if run.Begin? || run.step == Fork(p) then 0
    else Ticks(run.before, p) + if run.step == Tick(p) then 1 else 0
  }

  // ----- levels -----

  lemma LevelMoves(s: State, step: Step, p: nat)
    requires Enabled(s, step) && p < NPROC
    ensures |Apply(s, step).procs| == NPROC
    ensures Apply(s, step).procs[p].level ==
              if step == Fork(p) then 0
              else if step == Expire(p) && s.procs[p].level < 3 then s.procs[p].level + 1
              else s.procs[p].level
  {
  }

  /** A process is as many levels down as it has used up quotas, until it is at the last. */
  lemma {:induction false} LevelCounts(s: State, run: Run, p: nat)
    requires Legal(s, run) && Born(run, p) && p < NPROC
    ensures |Exec(s, run).procs| == NPROC
    ensures Exec(s, run).procs[p].level == if Expiries(run, p) < 3 then Expiries(run, p) else 3
  {
    hide Enabled, Apply;
    if run.step != Fork(p) {
      LevelCounts(s, run.before, p);
    }
    LevelMoves(Exec(s, run.before), run.step, p);
  }

  // ----- quotas -----

  /** There has been a tick since the process began or last used up a quota. */
  predicate Ticked(run: Run, p: nat) {
    run.Then? && (run.step == Tick(p) || (run.step != Fork(p) && run.step != Expire(p) && Ticked(run.before, p)))
  }

  /** A tick has found the quota used up, and the process has not been moved down yet. */
  ghost predicate Owed(s: State, run: Run, p: nat)
    requires Legal(s, run)
  {
    && p < |Exec(s, run).procs| && Ticked(run, p)
    && Exec(s, run).procs[p].used >= Quota(Exec(s, run).procs[p].level)
  }

  /** Ticks that found the process in the kernel with its quota used up, where kerneltrap
      only yields. */
  ghost function LateTicks(s: State, run: Run, p: nat): nat
    requires Legal(s, run)
  {
    if run.Begin? || run.step == Fork(p) then 0
    else LateTicks(s, run.before, p) + if run.step == Tick(p) && Owed(s, run.before, p) then 1 else 0
  }

  /** usertrap looks at the quota at a tick only. */
  predicate AtTicks(run: Run, p: nat) {
    run.Begin? || (AtTicks(run.before, p) && (run.step == Expire(p) ==> Ticked(run.before, p)))
  }

  /** The level of a process after so many ticks, by quotas of 1, 4, 8 and 16. */
  function LevelAfter(ticks: nat): nat {
    if ticks < 1 then 0 else if ticks < 1 + 4 then 1 else if ticks < 1 + 4 + 8 then 2 else 3
  }

  /** How many of them it has had at that level since it came there or last used up its quota. */
  function UsedAfter(ticks: nat): nat {
    if ticks < 1 then 0 else if ticks < 5 then ticks - 1 else if ticks < 13 then ticks - 5 else (ticks - 13) % 16
  }

  /** A process's level and start_time against its ticks, late ones aside. */
  ghost predicate Accounts(level: nat, used: nat, ticks: nat, ticked: bool) {
    && (level > 0 && used > 0 ==> ticked)
    && match level
       case 0 => if ticked then ticks == 1 && used >= 1 else ticks == 0
       case 1 => ticks == 1 + if used < 4 then used else 4
       case 2 => ticks == 5 + if used < 8 then used else 8
       case _ =>
         level == 3 && var u := if used < 16 then used else 16; ticks >= 13 + u && (ticks - 13 - u) % 16 == 0
  }

  lemma LateCount(s: State, run: Run, p: nat)
    requires Legal(s, run)
    ensures LateTicks(s, run, p) <= Ticks(run, p)
  {
  }

  lemma UsedMoves(s: State, step: Step, p: nat)
    requires Enabled(s, step) && p < NPROC
    ensures |Apply(s, step).procs| == NPROC
    ensures Apply(s, step).procs[p].used ==
              if step == Tick(p) then s.procs[p].used + 1 else if step == Expire(p) then 0 else s.procs[p].used
  {
  }

  lemma ExpireDue(s: State, p: nat)
    requires Enabled(s, Expire(p))
    ensures p < |s.procs| && s.procs[p].used >= Quota(s.procs[p].level)
  {
  }

  lemma {:induction false} TicksAccount(s: State, run: Run, p: nat)
    requires Legal(s, run) && Born(run, p) && AtTicks(run, p) && p < NPROC
    ensures |Exec(s, run).procs| == NPROC && LateTicks(s, run, p) <= Ticks(run, p)
    ensures var q := Exec(s, run).procs[p];
      Accounts(q.level, q.used, Ticks(run, p) - LateTicks(s, run, p), Ticked(run, p))
  {
    hide Enabled, Apply;
    LateCount(s, run, p);
    if run.step != Fork(p) {
      TicksAccount(s, run.before, p);
    }
    var s1 := Exec(s, run.before);
    LevelMoves(s1, run.step, p);
    UsedMoves(s1, run.step, p);
    if run.step == Expire(p) {
      ExpireDue(s1, p);
    }
  }

  lemma AccountsMean(level: nat, used: nat, ticks: nat, ticked: bool)
    requires Accounts(level, used, ticks, ticked)
    ensures if ticked && used >= Quota(level)
            then ticks > 0 && level == LevelAfter(ticks - 1) && UsedAfter(ticks - 1) + 1 == Quota(level)
            else level == LevelAfter(ticks) && (ticks > 0 ==> used == UsedAfter(ticks))
  {
    if level >= 3 {
      var u := if used < 16 then used else 16;
      var m := (ticks - 13 - u) / 16;
      assert ticks == 13 + 16 * m + u;
    }
  }

  /** A process is moved down after 1, 4 and 8 ticks at the first three levels, and sent to the
      back after 16 at the last: its ticks, less the late ones, say where it is. That
      allocproc leaves the start_time of the slot's last process does not matter to it. */
  lemma QuotasKept(s: State, run: Run, p: nat)
    requires Legal(s, run) && Born(run, p) && AtTicks(run, p) && p < NPROC
    ensures |Exec(s, run).procs| == NPROC && LateTicks(s, run, p) <= Ticks(run, p)
    ensures var q := Exec(s, run).procs[p];
      var ticks := Ticks(run, p) - LateTicks(s, run, p);
      if Owed(s, run, p) then
        ticks > 0 && q.level == LevelAfter(ticks - 1) && UsedAfter(ticks - 1) + 1 == Quota(q.level)
      else
        q.level == LevelAfter(ticks) && (ticks > 0 ==> q.used == UsedAfter(ticks))
  {
    TicksAccount(s, run, p);
    var q := Exec(s, run).procs[p];
    AccountsMean(q.level, q.used, Ticks(run, p) - LateTicks(s, run, p), Ticked(run, p));
    hide Exec, Accounts, LevelAfter, UsedAfter, Legal, Ticked, Ticks, LateTicks;
  }

  // ----- ticks in the kernel -----

  /** Process 0 runs on level 0 with so many ticks used. */
  function Alone(used: nat): State {
    OneQueue(seq(NPROC, p => if p == 0 then Mlfq.Proc(Running, true, 0, used) else Mlfq.Proc(Unused, false, 0, 0)),
             [0], [0])
  }

  lemma KernelTick(used: nat)
    ensures Enabled(Alone(used), Tick(0))
    ensures var s1 := Apply(Alone(used), Tick(0));
      && Enabled(s1, Yield(0)) && Enabled(Apply(s1, Yield(0)), Select(0))
      && Apply(Apply(s1, Yield(0)), Select(0)) == Alone(used + 1)
  {
    var s1 := Apply(Alone(used), Tick(0));
    var s2 := Apply(s1, Yield(0));
    assert s2.queues[0] == [0] && s2.queues[0][1..] == [] && [0] + [] == [0];
    var s3 := Apply(s2, Select(0));
    assert s3.procs == Alone(used + 1).procs && s3.queues == Alone(used + 1).queues;
  }

  lemma HistoryGoesOn(run: Run, step: Step)
    requires Born(run, 0) && AtTicks(run, 0) && step != Fork(0) && step != Expire(0)
    ensures var next := Then(run, step);
      Born(next, 0) && AtTicks(next, 0) && Ticks(next, 0) == Ticks(run, 0) + if step == Tick(0) then 1 else 0
  {
  }

  ghost predicate Stays(run: Run, n: nat) {
    && Legal(Initial(), run) && Born(run, 0) && AtTicks(run, 0) && Ticks(run, 0) == n
    && Exec(Initial(), run) == Alone(n)
  }

  lemma StaysNone() returns (run: Run)
    ensures Stays(run, 0)
  {
    run := FirstRuns();
    hide Exec, Legal;
    assert Born(run.before.before, 0) && AtTicks(run.before.before, 0) && Ticks(run.before.before, 0) == 0;
    HistoryGoesOn(run.before.before, Enqueue(0));
    HistoryGoesOn(run.before, Select(0));
    assert Forking(1).procs == Alone(0).procs;
  }

  lemma StaysOn(run: Run, n: nat)
    requires Stays(run, n)
    ensures Stays(Then(Then(Then(run, Tick(0)), Yield(0)), Select(0)), n + 1)
  {
    KernelTick(n);
    hide Apply, Enabled, Initial, Alone, Born, AtTicks, Ticks;
    var run1 := Then(run, Tick(0));
    var run2 := Then(run1, Yield(0));
    HistoryGoesOn(run, Tick(0));
    HistoryGoesOn(run1, Yield(0));
    HistoryGoesOn(run2, Select(0));
    var s1 := Apply(Alone(n), Tick(0));
    assert Legal(Initial(), run1) && Exec(Initial(), run1) == s1;
    assert Legal(Initial(), run2) && Exec(Initial(), run2) == Apply(s1, Yield(0));
  }

  /** A process that is in the kernel at every tick stays at level 0 however many it has. */
  lemma {:induction false} KernelStays(n: nat) returns (run: Run)
    ensures Legal(Initial(), run) && Born(run, 0) && AtTicks(run, 0) && Ticks(run, 0) == n
    ensures Exec(Initial(), run) == Alone(n)
  {
    hide Legal, Exec, Alone, Initial, Born, AtTicks, Ticks;
    if n == 0 {
      run := StaysNone();
    } else {
      run := KernelStays(n - 1);
      StaysOn(run, n - 1);
      run := Then(Then(Then(run, Tick(0)), Yield(0)), Select(0));
    }
  }

  // ----- states -----

  /** The state a step leaves slot p in, which was in state `was`. */
  function StateAfter(s: State, step: Step, p: nat, was: ProcState): ProcState
    requires Enabled(s, step)
  {
    match step
    case Select(i) => if s.queues[i][0] == p then Running else was
    case Fork(q) => if q == p then Runnable else was
    case Wake(q) => if q == p then Runnable else was
    case Yield(q) => if q == p then Runnable else was
    case Expire(q) => if q == p then Runnable else was
    case Sleep(q) => if q == p then Sleeping else was
    case Exit(q) => if q == p then Zombie else was
    case Reap(q) => if q == p then Unused else was
    case _ => was
  }

  /** The state the last step that concerned slot p put it in. */
  ghost function LastState(s: State, run: Run, p: nat): ProcState
    requires Legal(s, run) && p < |s.procs|
  {
    if run.Begin? then s.procs[p].state
    else StateAfter(Exec(s, run.before), run.step, p, LastState(s, run.before, p))
  }

  lemma StateMoves(s: State, step: Step, p: nat)
    requires Enabled(s, step) && p < NPROC
    ensures |Apply(s, step).procs| == NPROC
    ensures Apply(s, step).procs[p].state == StateAfter(s, step, p, s.procs[p].state)
  {
  }

  lemma {:induction false} StateIsLast(s: State, run: Run, p: nat)
    requires Legal(s, run) && |s.procs| == NPROC && p < NPROC
    ensures |Exec(s, run).procs| == NPROC && Exec(s, run).procs[p].state == LastState(s, run, p)
  {
    hide Apply, Enabled, StateAfter;
    if run.Then? {
      StateIsLast(s, run.before, p);
      StateMoves(Exec(s, run.before), run.step, p);
    }
  }

  /** Whether a step leaves slot p marked as queued, which was so marked or not. */
  function QueuedAfter(s: State, step: Step, p: nat, was: bool): bool
    requires Enabled(s, step)
  {
    match step
    case Enqueue(q) => was || q == p
    case Select(i) => was || s.queues[i][0] == p
    case Drop(i) => was && s.queues[i][0] != p
    case Expire(q) =>
      var line := s.queues[s.procs[q].level];
      was && (line == [] || (q != p && line[0] != p))
    case Fork(q) => was && q != p
    case Reap(q) => was && q != p
    case _ => was
  }

  ghost function LastQueued(s: State, run: Run, p: nat): bool
    requires Legal(s, run) && p < |s.procs|
  {
    if run.Begin? then s.procs[p].queued
    else QueuedAfter(Exec(s, run.before), run.step, p, LastQueued(s, run.before, p))
  }

  lemma QueuedMoves(s: State, step: Step, p: nat)
    requires Enabled(s, step) && p < NPROC
    ensures |Apply(s, step).procs| == NPROC
    ensures Apply(s, step).procs[p].queued == QueuedAfter(s, step, p, s.procs[p].queued)
  {
  }

  /** status_queue says what the last step that concerned the slot made of it. */
  lemma {:induction false} QueuedIsLast(s: State, run: Run, p: nat)
    requires Legal(s, run) && |s.procs| == NPROC && p < NPROC
    ensures |Exec(s, run).procs| == NPROC && Exec(s, run).procs[p].queued == LastQueued(s, run, p)
  {
    hide Apply, Enabled, QueuedAfter;
    if run.Then? {
      QueuedIsLast(s, run.before, p);
      QueuedMoves(Exec(s, run.before), run.step, p);
    }
  }
}
