/**
 The multi-level feedback queue on one processor: four queues of processes,
 each process carrying its level and whether it is queued. The scheduler
 queues runnable processes, drops queued ones that are not runnable, and runs
 the head of the first non-empty queue, which stays at the head while it runs.
 */
module Mlfq {
  import opened Collections
  import opened Process

  const NPROC := 64
  const LEVELS := 4

  /** `level` is priority_queue_number, `queued` status_queue, `used` start_time. */
  datatype Proc = Proc(state: ProcState, queued: bool, level: nat, used: nat)

  /** `cpu` is the process on the processor, if any. */
  datatype State = State(procs: seq<Proc>, queues: seq<seq<nat>>, cpu: seq<nat>)

  /** The ticks a process may use at a level before it is moved down. */
  function Quota(level: nat): nat {
    if level == 0 then 1 else if level == 1 then 4 else if level == 2 then 8 else 16
  }

  datatype Step =
    | Enqueue(p: nat)    // the scheduler appends a runnable process
    | Drop(i: nat)       // the scheduler pops a process that is not runnable
    | Select(i: nat)     // it pops a runnable one, puts it back in front and runs it
    | Tick(p: nat)       // update_time
    | Expire(p: nat)     // usertrap at a tick with the quota used up
    | Yield(p: nat)
    | Sleep(p: nat)
    | Exit(p: nat)
    | Wake(p: nat)
    | Fork(p: nat)       // a free slot becomes a runnable process
    | Reap(p: nat)       // wait and freeproc

  predicate Sized(s: State) {
    && |s.procs| == NPROC && |s.queues| == LEVELS
    && (forall p: nat :: p < NPROC ==> s.procs[p].level < LEVELS)
    && (forall i, k :: 0 <= i < LEVELS && 0 <= k < |s.queues[i]| ==> s.queues[i][k] < NPROC)
  }

  predicate OnCpu(s: State, p: nat) {
    s.cpu == [p] && p < |s.procs|
  }

  predicate HeadRunnable(s: State, i: nat)
    requires Sized(s) && i < LEVELS && |s.queues[i]| > 0
  {
    s.procs[s.queues[i][0]].state == Runnable
  }

  predicate Enabled(s: State, step: Step) {
    && Sized(s)
    && match step
       case Enqueue(p) => p < NPROC && s.cpu == [] && s.procs[p].state == Runnable && !s.procs[p].queued
       case Drop(i) => s.cpu == [] && i < LEVELS && |s.queues[i]| > 0 && !HeadRunnable(s, i)
       case Select(i) =>
         && s.cpu == [] && i < LEVELS && 0 < |s.queues[i]| < NPROC && HeadRunnable(s, i)
         && forall j :: 0 <= j < i ==> s.queues[j] == []
       case Tick(p) => OnCpu(s, p)
       case Expire(p) => OnCpu(s, p) && s.procs[p].used >= Quota(s.procs[p].level)
       case Yield(p) => OnCpu(s, p)
       case Sleep(p) => OnCpu(s, p)
       case Exit(p) => OnCpu(s, p)
       case Wake(p) => p < NPROC && s.procs[p].state == Sleeping
       case Fork(p) => p < NPROC && s.procs[p].state == Unused
       case Reap(p) => p < NPROC && s.procs[p].state == Zombie
  }

  function With(s: State, p: nat, q: Proc): State
    requires p < |s.procs|
  {
    s.(procs := s.procs[p := q])
  }

  /** pop */
  function Popped(s: State, i: nat): State
    requires i < |s.queues| && |s.queues[i]| > 0 && s.queues[i][0] < |s.procs|
  {
    var p := s.queues[i][0];
    With(s, p, s.procs[p].(queued := false)).(queues := s.queues[i := s.queues[i][1..]])
  }

  /** The block of usertrap for a tick with the quota used up, and yield. */
  function Expired(s: State, p: nat): State
    requires Sized(s) && p < NPROC
  {
    var i := s.procs[p].level;
    var s1 := if |s.queues[i]| > 0 then Popped(s, i) else s;
    var q := s1.procs[p];
    var queued := if |s.queues[i]| > 0 then false else q.queued;
    With(s1, p, Proc(Runnable, queued, if i < LEVELS - 1 then i + 1 else i, 0)).(cpu := [])
  }

  function Apply(s: State, step: Step): State
    requires Enabled(s, step)
  {
    match step
    case Enqueue(p) =>
      var i := s.procs[p].level;
      With(s, p, s.procs[p].(queued := true)).(queues := s.queues[i := s.queues[i] + [p]])
    case Drop(i) => Popped(s, i)
    case Select(i) =>
      var p := s.queues[i][0];
      var s1 := Popped(s, i);
      var j := s1.procs[p].level;
      var q := s1.procs[p].(queued := true, state := Running);
      With(s1, p, q).(queues := s1.queues[j := [p] + s1.queues[j]], cpu := [p])
    case Tick(p) => With(s, p, s.procs[p].(used := s.procs[p].used + 1))
    case Expire(p) => Expired(s, p)
    case Yield(p) => With(s, p, s.procs[p].(state := Runnable)).(cpu := [])
    case Sleep(p) => With(s, p, s.procs[p].(state := Sleeping)).(cpu := [])
    case Exit(p) => With(s, p, s.procs[p].(state := Zombie)).(cpu := [])
    case Wake(p) => With(s, p, s.procs[p].(state := Runnable))
    case Fork(p) => With(s, p, s.procs[p].(state := Runnable, queued := false, level := 0))
    case Reap(p) => With(s, p, s.procs[p].(state := Unused, queued := false))
  }

  // ----- the invariant -----

  /** The queues hold exactly the queued processes, each once, at its level. */
  ghost predicate QueuesOk(procs: seq<Proc>, queues: seq<seq<nat>>) {
    && |procs| == NPROC && |queues| == LEVELS
    && (forall p: nat :: p < NPROC ==> procs[p].level < LEVELS)
    && (forall i, k :: 0 <= i < LEVELS && 0 <= k < |queues[i]| ==>
          queues[i][k] < NPROC && procs[queues[i][k]].queued && procs[queues[i][k]].level == i)
    && (forall i, j, k :: 0 <= i < LEVELS && 0 <= j < k < |queues[i]| ==> queues[i][j] != queues[i][k])
    && (forall p: nat :: p < NPROC && procs[p].queued ==> p in queues[procs[p].level])
  }

  predicate AtHead(procs: seq<Proc>, queues: seq<seq<nat>>, p: nat) {
    && p < |procs| && procs[p].level < |queues|
    && |queues[procs[p].level]| > 0 && queues[procs[p].level][0] == p
  }

  /** The running process is at the head of its queue; free slots are not queued. */
  ghost predicate CpuOk(procs: seq<Proc>, queues: seq<seq<nat>>, cpu: seq<nat>)
    requires |procs| == NPROC && |queues| == LEVELS
  {
    && |cpu| <= 1
    && (forall p: nat :: p < NPROC ==> (procs[p].state == Running <==> cpu == [p]))
    && (cpu != [] ==> cpu[0] < NPROC && procs[cpu[0]].queued && AtHead(procs, queues, cpu[0]))
    && (forall p: nat :: p < NPROC && procs[p].state == Unused ==> !procs[p].queued)
  }

  ghost predicate Inv(s: State) {
    QueuesOk(s.procs, s.queues) && CpuOk(s.procs, s.queues, s.cpu)
  }

  // ----- the queue operations -----

  lemma PopKeeps(procs: seq<Proc>, queues: seq<seq<nat>>, i: nat)
    requires QueuesOk(procs, queues) && i < LEVELS && |queues[i]| > 0
    ensures queues[i][0] < NPROC
    ensures var p := queues[i][0]; QueuesOk(procs[p := procs[p].(queued := false)], queues[i := queues[i][1..]])
  {
  }

  lemma AppendKeeps(procs: seq<Proc>, queues: seq<seq<nat>>, p: nat)
    requires QueuesOk(procs, queues) && p < NPROC && !procs[p].queued
    ensures var i := procs[p].level; QueuesOk(procs[p := procs[p].(queued := true)], queues[i := queues[i] + [p]])
  {
  }

  lemma FrontKeeps(procs: seq<Proc>, queues: seq<seq<nat>>, p: nat)
    requires QueuesOk(procs, queues) && p < NPROC && !procs[p].queued
    ensures var i := procs[p].level; QueuesOk(procs[p := procs[p].(queued := true)], queues[i := [p] + queues[i]])
  {
  }

  /** The queues do not depend on the rest of a process, nor on the level of one not queued. */
  lemma ProcKeeps(procs: seq<Proc>, queues: seq<seq<nat>>, p: nat, q: Proc)
    requires QueuesOk(procs, queues) && p < NPROC && q.queued == procs[p].queued && q.level < LEVELS
    requires (q.level == procs[p].level || !q.queued)
    ensures QueuesOk(procs[p := q], queues)
  {
  }

  // ----- the steps -----

  lemma SchedulerKeepsInv(s: State, step: Step)
    requires Inv(s) && Enabled(s, step) && (step.Enqueue? || step.Drop? || step.Select?)
    ensures Inv(Apply(s, step))
  {
    var s' := Apply(s, step);
    hide QueuesOk;
    match step
    case Enqueue(p) =>
      AppendKeeps(s.procs, s.queues, p);
    case Drop(i) =>
      PopKeeps(s.procs, s.queues, i);
    case Select(i) =>
      var p := s.queues[i][0];
      var s1 := Popped(s, i);
      PopKeeps(s.procs, s.queues, i);
      FrontKeeps(s1.procs, s1.queues, p);
      var j := s1.procs[p].level;
      ProcKeeps(s1.procs[p := s1.procs[p].(queued := true)], s1.queues[j := [p] + s1.queues[j]], p, s'.procs[p]);
      assert s'.procs == s1.procs[p := s1.procs[p].(queued := true)][p := s'.procs[p]];
  }

  /** Process p, first in the queue of its level, is in none now; it can run and is one level
      further down, if there is one, with its quota unused. All else is as it was. */
  ghost predicate MovedDown(s: State, p: nat, s': State) {
    && p < |s.procs| && s.procs[p].level < |s.queues| && s'.cpu == []
    && s'.procs == s.procs[p := Proc(Runnable, false, if s.procs[p].level < 3 then s.procs[p].level + 1 else 3, 0)]
    && |s'.queues| == |s.queues| && s.queues[s.procs[p].level] == [p] + s'.queues[s.procs[p].level]
    && forall i :: 0 <= i < |s.queues| && i != s.procs[p].level ==> s'.queues[i] == s.queues[i]
  }

  lemma MovedDownIs(s: State, p: nat, s': State)
    requires MovedDown(s, p, s')
    ensures var lv := s.procs[p].level;
      s' == State(s.procs[p := Proc(Runnable, false, if lv < 3 then lv + 1 else 3, 0)],
                  s.queues[lv := s.queues[lv][1..]], [])
  {
    var lv := s.procs[p].level;
    assert s'.queues == s.queues[lv := s.queues[lv][1..]];
  }

  lemma PoppedIs(s: State, i: nat)
    requires i < |s.queues| && |s.queues[i]| > 0 && s.queues[i][0] < |s.procs|
    ensures var p := s.queues[i][0];
      Popped(s, i) == State(s.procs[p := s.procs[p].(queued := false)], s.queues[i := s.queues[i][1..]], s.cpu)
  {
  }

  /** At the end of a quota the process popped is the one running. */
  lemma ExpireKeepsInv(s: State, p: nat)
    requires Inv(s) && Enabled(s, Expire(p))
    ensures Inv(Apply(s, Expire(p))) && MovedDown(s, p, Apply(s, Expire(p)))
  {
    var s', i := Apply(s, Expire(p)), s.procs[p].level;
    hide QueuesOk;
    var s1 := Popped(s, i);
    PopKeeps(s.procs, s.queues, i);
    ProcKeeps(s1.procs, s1.queues, p, s'.procs[p]);
  }

  lemma ProcessKeepsInv(s: State, step: Step)
    requires Inv(s) && Enabled(s, step)
    requires (step.Tick? || step.Yield? || step.Sleep? || step.Exit? || step.Wake? || step.Fork?)
    ensures Inv(Apply(s, step))
  {
    hide QueuesOk;
    ProcKeeps(s.procs, s.queues, step.p, Apply(s, step).procs[step.p]);
  }

  /** freeproc clears status_queue without taking the process off its queue, so
      the bookkeeping survives it just when the slot is not queued. */
  lemma ReapKeepsInvIff(s: State, p: nat)
    requires Inv(s) && Enabled(s, Reap(p))
    ensures Inv(Apply(s, Reap(p))) <==> !s.procs[p].queued
  {
    if !s.procs[p].queued {
      ProcKeeps(s.procs, s.queues, p, Apply(s, Reap(p)).procs[p]);
    } else {
      var i := s.procs[p].level;
      var k :| 0 <= k < |s.queues[i]| && s.queues[i][k] == p;
      assert Apply(s, Reap(p)).queues[i][k] == p;
    }
  }

  // ----- runs -----

  datatype Run = Begin | Then(before: Run, step: Step)

  function Initial(): (s: State)
    ensures Sized(s)
  {
    State(seq(NPROC, p => Proc(Unused, false, 0, 0)), seq(LEVELS, i => []), [])
  }

  ghost predicate Legal(s: State, run: Run)
    decreases run, 0
  {
    run.Begin? || (Legal(s, run.before) && Enabled(Exec(s, run.before), run.step))
  }

  ghost function Exec(s: State, run: Run): State
    requires Legal(s, run)
    decreases run, 1
  {
    if run.Begin? then s else Apply(Exec(s, run.before), run.step)
  }

  /** No slot is reaped while it is still queued. */
  ghost predicate Tame(s: State, run: Run)
    requires Legal(s, run)
  {
    run.Begin? || (Tame(s, run.before) && (run.step.Reap? ==> !Exec(s, run.before).procs[run.step.p].queued))
  }

  lemma StepKeepsInv(s: State, step: Step)
    requires Inv(s) && Enabled(s, step) && (step.Reap? ==> !s.procs[step.p].queued)
    ensures Inv(Apply(s, step))
  {
    hide Inv, Apply, Enabled;
    match step
    case Enqueue(_) => SchedulerKeepsInv(s, step);
    case Drop(_) => SchedulerKeepsInv(s, step);
    case Select(_) => SchedulerKeepsInv(s, step);
    case Expire(p) => ExpireKeepsInv(s, p);
    case Reap(p) => ReapKeepsInvIff(s, p);
    case Tick(_) => ProcessKeepsInv(s, step);
    case Yield(_) => ProcessKeepsInv(s, step);
    case Sleep(_) => ProcessKeepsInv(s, step);
    case Exit(_) => ProcessKeepsInv(s, step);
    case Wake(_) => ProcessKeepsInv(s, step);
    case Fork(_) => ProcessKeepsInv(s, step);
  }

  /** In every run that reaps no queued slot, each queued process is in the queue
      of its level and nowhere else, once; what runs is at the head of its queue;
      and no queue is longer than the array it lies in. */
  lemma {:induction false} RunKeepsInv(s: State, run: Run)
    requires Inv(s) && Legal(s, run) && Tame(s, run)
    ensures Inv(Exec(s, run)) && |Exec(s, run).queues| == LEVELS
    ensures forall i :: 0 <= i < LEVELS ==> |Exec(s, run).queues[i]| <= NPROC
  {
    hide Inv;
    if run.Then? {
      RunKeepsInv(s, run.before);
      StepKeepsInv(Exec(s, run.before), run.step);
    }
    QueuesFit(Exec(s, run));
  }

  lemma QueuesFit(s: State)
    requires Inv(s)
    ensures |s.queues| == LEVELS && forall i :: 0 <= i < LEVELS ==> |s.queues[i]| <= NPROC
  {
    forall i | 0 <= i < LEVELS ensures |s.queues[i]| <= NPROC {
      QueueBound(s.procs, s.queues, i, 0);
    }
  }

  lemma InitialOk()
    ensures Inv(Initial())
  {
  }

  /** `run` gives slot p to no new process. */
  ghost predicate SameLife(run: Run, p: nat) {
    run.Begin? || (run.step != Fork(p) && SameLife(run.before, p))
  }

  lemma LevelStep(s: State, step: Step, p: nat)
    requires Enabled(s, step) && p < NPROC && step != Fork(p)
    ensures |Apply(s, step).procs| == NPROC && Apply(s, step).procs[p].level >= s.procs[p].level
  {
  }

  /** During the life of a process its level number never goes down. */
  lemma {:induction false} LevelsOnlyGoDown(s: State, run: Run, p: nat)
    requires |s.procs| == NPROC && Legal(s, run) && SameLife(run, p) && p < NPROC
    ensures |Exec(s, run).procs| == NPROC && Exec(s, run).procs[p].level >= s.procs[p].level
  {
    hide Enabled, Apply;
    if run.Then? {
      LevelsOnlyGoDown(s, run.before, p);
      LevelStep(Exec(s, run.before), run.step, p);
    }
  }

  // ----- how long a queue can be -----

  lemma DistinctBound(q: seq<nat>, n: nat)
    requires Distinct(q) && forall k :: 0 <= k < |q| ==> q[k] < n
    ensures |q| <= n
  {
    ElementsCount(q);
    BoundedSize(Elements(q), n);
  }

  /** A queue has room for every process not in it. */
  lemma QueueBound(procs: seq<Proc>, queues: seq<seq<nat>>, i: nat, p: nat)
    requires QueuesOk(procs, queues) && i < LEVELS && p < NPROC
    ensures |queues[i]| <= NPROC && (!procs[p].queued ==> |queues[i]| < NPROC)
  {
    DistinctBound(queues[i], NPROC);
    if !procs[p].queued {
      DistinctBound(queues[i] + [p], NPROC);
    }
  }

  // ----- a slot reused while queued -----

  /** Processes 0 and 1, the two upper queues and the processor. */
  datatype Two = Two(p: Proc, c: Proc, q0: seq<nat>, q1: seq<nat>, cpu: seq<nat>) {
    function Who(x: nat): Proc { if x == 0 then p else c }
    function Put(x: nat, q: Proc): Two { if x == 0 then this.(p := q) else this.(c := q) }
    function Queue(i: nat): seq<nat> { if i == 0 then q0 else q1 }
    function PutQueue(i: nat, q: seq<nat>): Two { if i == 0 then this.(q0 := q) else this.(q1 := q) }
  }

  ghost predicate Looks(s: State, t: Two) {
    && Sized(s) && s.procs[0] == t.p && s.procs[1] == t.c && s.cpu == t.cpu
    && s.queues[0] == t.q0 && s.queues[1] == t.q1
  }

  ghost predicate Reached(run: Run, t: Two) {
    Legal(Initial(), run) && Looks(Exec(Initial(), run), t)
  }

  lemma Enqueues(before: Run, t: Two, x: nat) returns (run: Run, t': Two)
    requires Reached(before, t) && x < 2 && t.cpu == [] && t.Who(x).state == Runnable && !t.Who(x).queued
    requires t.Who(x).level < 2
    ensures run == Then(before, Enqueue(x)) && Reached(run, t')
    ensures t' == t.Put(x, t.Who(x).(queued := true)).PutQueue(t.Who(x).level, t.Queue(t.Who(x).level) + [x])
  {
    run := Then(before, Enqueue(x));
    t' := t.Put(x, t.Who(x).(queued := true)).PutQueue(t.Who(x).level, t.Queue(t.Who(x).level) + [x]);
  }

  lemma Selects(before: Run, t: Two, x: nat) returns (run: Run, t': Two)
    requires Reached(before, t) && x < 2 && t.cpu == [] && t.Who(x).state == Runnable && t.Who(x).level < 2
    requires t.Queue(t.Who(x).level) == [x] && (t.Who(x).level == 1 ==> t.q0 == [])
    ensures run == Then(before, Select(t.Who(x).level)) && Reached(run, t')
    ensures t' == t.Put(x, t.Who(x).(queued := true, state := Running)).(cpu := [x])
  {
    run := Then(before, Select(t.Who(x).level));
    t' := t.Put(x, t.Who(x).(queued := true, state := Running)).(cpu := [x]);
    hide Apply, Looks, Enabled;
    SelectLooks(Exec(Initial(), before), t, x);
  }

  lemma SelectLooks(s: State, t: Two, x: nat)
    requires Looks(s, t) && x < 2 && t.cpu == [] && t.Who(x).state == Runnable && t.Who(x).level < 2
    requires t.Queue(t.Who(x).level) == [x] && (t.Who(x).level == 1 ==> t.q0 == [])
    ensures Enabled(s, Select(t.Who(x).level))
    ensures Looks(Apply(s, Select(t.Who(x).level)), t.Put(x, t.Who(x).(queued := true, state := Running)).(cpu := [x]))
  {
    var i := t.Who(x).level;
    assert s.queues[i][1..] == [] && [x] + [] == [x];
  }

  lemma Drops(before: Run, t: Two) returns (run: Run, t': Two)
    requires Reached(before, t) && t.cpu == [] && t.p.state != Runnable && t.q0 == [0]
    ensures run == Then(before, Drop(0)) && Reached(run, t') && t' == t.(p := t.p.(queued := false), q0 := [])
  {
    run := Then(before, Drop(0));
    t' := t.(p := t.p.(queued := false), q0 := []);
  }

  lemma Moves(before: Run, t: Two, step: Step) returns (run: Run, t': Two)
    requires Reached(before, t)
    requires (step.Yield? || step.Sleep? || step.Exit? || step.Wake? || step.Fork? || step.Reap? || step.Tick?)
    requires step.p < 2
    requires Enabled(Exec(Initial(), before), step)
    ensures run == Then(before, step) && Reached(run, t')
    ensures t'.q0 == t.q0 && t'.q1 == t.q1 && t'.Who(1 - step.p) == t.Who(1 - step.p)
    ensures t'.Who(step.p) == Apply(Exec(Initial(), before), step).procs[step.p]
    ensures t'.cpu == Apply(Exec(Initial(), before), step).cpu
  {
    run := Then(before, step);
    t' := t.Put(step.p,
                Apply(Exec(Initial(), before), step).procs[step.p]).(cpu := Apply(Exec(Initial(), before), step).cpu);
  }

  lemma Expires(before: Run, t: Two) returns (run: Run, t': Two)
    requires Reached(before, t) && t.cpu == [1] && t.c.level == 0 && t.c.used >= 1 && t.q0 == [1]
    ensures run == Then(before, Expire(1)) && Reached(run, t')
    ensures t' == t.(c := Proc(Runnable, false, 1, 0), q0 := [], cpu := [])
  {
    run := Then(before, Expire(1));
    t' := t.(c := Proc(Runnable, false, 1, 0), q0 := [], cpu := []);
  }

  lemma AtStart() returns (run: Run, t: Two)
    ensures run == Begin && Reached(run, t)
    ensures t == Two(Proc(Unused, false, 0, 0), Proc(Unused, false, 0, 0), [], [], [])
  {
    run, t := Begin, Two(Proc(Unused, false, 0, 0), Proc(Unused, false, 0, 0), [], [], []);
  }

  /** A parent waits while its child uses up its quota on level 0. */
  lemma ChildMovesDown() returns (run: Run, t: Two)
    ensures Reached(run, t) && t == Two(Proc(Sleeping, false, 0, 0), Proc(Runnable, false, 1, 0), [], [], [])
  {
    run, t := AtStart();
    run, t := Moves(run, t, Fork(0));
    run, t := Moves(run, t, Fork(1));
    run, t := Enqueues(run, t, 0);
    run, t := Selects(run, t, 0);
    run, t := Moves(run, t, Sleep(0));
    run, t := Drops(run, t);
    run, t := Enqueues(run, t, 1);
    run, t := Selects(run, t, 1);
    run, t := Moves(run, t, Tick(1));
    run, t := Expires(run, t);
  }

  /** The child then exits on level 1, and its parent on level 0 runs first. */
  lemma ParentRuns() returns (run: Run, t: Two)
    ensures Reached(run, t) && t == Two(Proc(Running, true, 0, 0), Proc(Zombie, true, 1, 0), [0], [1], [0])
  {
    run, t := ChildMovesDown();
    run, t := Enqueues(run, t, 1);
    run, t := Selects(run, t, 1);
    run, t := Moves(run, t, Exit(1));
    run, t := Moves(run, t, Wake(0));
    run, t := Enqueues(run, t, 0);
    run, t := Selects(run, t, 0);
  }

  /** It reaps the child and forks again: the slot is in two queues at once. */
  lemma ReuseDoubles() returns (run: Run)
    ensures Legal(Initial(), run)
    ensures var s := Exec(Initial(), run); !Inv(s) && |s.queues| == LEVELS && 1 in s.queues[0] && 1 in s.queues[1]
  {
    var t;
    run, t := ParentRuns();
    run, t := Moves(run, t, Reap(1));
    run, t := Moves(run, t, Fork(1));
    run, t := Moves(run, t, Yield(0));
    run, t := Enqueues(run, t, 1);
    Doubled(Exec(Initial(), run));
  }

  lemma Doubled(s: State)
    requires |s.queues| == LEVELS && 1 in s.queues[0] && 1 in s.queues[1]
    ensures !Inv(s)
  {
  }

  ghost predicate EmptyBelow(s: State, i: nat) {
    i <= |s.queues| && forall j :: 0 <= j < i ==> s.queues[j] == []
  }

  lemma FirstEmpty(s: State, i: nat)
    requires EmptyBelow(s, i) && |s.queues| == LEVELS && (i < LEVELS ==> s.queues[i] == [])
    ensures |s.queues| > 0 && s.queues[0] == []
  {
  }

  lemma SameEmpty(s: State, s': State, i: nat)
    requires EmptyBelow(s, i) && s'.queues == s.queues
    ensures EmptyBelow(s', i)
  {
  }

  lemma RunningAtHead(s: State, p: nat)
    requires Inv(s) && OnCpu(s, p)
    ensures p < NPROC && |s.queues[s.procs[p].level]| > 0 && s.queues[s.procs[p].level][0] == p
  {
  }

  lemma RunningOnly(s: State, p: nat)
    requires Inv(s) && OnCpu(s, p)
    ensures p < NPROC && Sized(s) && forall k: nat :: k < NPROC ==> (s.procs[k].state == Running <==> k == p)
  {
  }

  lemma EmptyBelowNone(s: State)
    ensures EmptyBelow(s, 0)
  {
  }

  lemma EmptyBelowKept(s: State, s': State, i: nat)
    requires EmptyBelow(s, i) && i < |s.queues| && Drained(s, s', i)
    ensures EmptyBelow(s', i) && (s'.queues[i] == [] ==> EmptyBelow(s', i + 1))
  {
  }

  lemma SelectIs(s: State, i: nat)
    requires Inv(s) && s.cpu == [] && i < LEVELS && 0 < |s.queues[i]| < NPROC && s.queues[i][0] < NPROC
    requires s.procs[s.queues[i][0]].state == Runnable
    requires EmptyBelow(s, i)
    ensures Enabled(s, Select(i)) && s.procs[s.queues[i][0]].level == i
    ensures var p := s.queues[i][0]; Apply(s, Select(i)) == With(s, p, s.procs[p].(state := Running)).(cpu := [p])
  {
    var p := s.queues[i][0];
    var s1 := Popped(s, i);
    assert [p] + s1.queues[i] == s.queues[i];
    assert Apply(s, Select(i)).procs == s.procs[p := s.procs[p].(state := Running)];
    assert s1.queues[i := s.queues[i]] == s.queues;
  }

  lemma SelectFollows(s0: State, run: Run, s: State, i: nat)
    requires Inv(s) && Follows(s0, run, s) && Enabled(s, Select(i))
    ensures Follows(s0, Then(run, Select(i)), Apply(s, Select(i))) && Inv(Apply(s, Select(i)))
  {
    SchedulerKeepsInv(s, Select(i));
    hide Inv, Enabled, Apply;
  }

  /** Only queue i has been shortened from the front, and no process has changed but in being queued. */
  ghost predicate Drained(s: State, s': State, i: nat) {
    && |s'.procs| == |s.procs| && |s'.queues| == |s.queues| && i < |s.queues|
    && (forall p :: 0 <= p < |s.procs| ==>
          s'.procs[p].state == s.procs[p].state && s'.procs[p].level == s.procs[p].level)
    && (forall j :: 0 <= j < |s.queues| && j != i ==> s'.queues[j] == s.queues[j])
  }

  lemma DrainedNone(s: State, i: nat)
    requires i < |s.queues|
    ensures Drained(s, s, i)
  {
  }

  lemma DrainedMore(s: State, s': State, i: nat)
    requires Drained(s, s', i) && |s'.queues[i]| > 0 && s'.queues[i][0] < |s'.procs|
    ensures Drained(s, Popped(s', i), i)
    ensures var s'' := Popped(s', i);
      && s''.cpu == s'.cpu && |s''.procs| == |s'.procs|
      && forall p :: 0 <= p < |s'.procs| ==> s''.procs[p].state == s'.procs[p].state
  {
  }

  /** `s` is what `run` makes of `s0`. */
  ghost predicate Follows(s0: State, run: Run, s: State) {
    Legal(s0, run) && Tame(s0, run) && Exec(s0, run) == s
  }

  lemma NoSteps(s: State)
    ensures Follows(s, Begin, s)
  {
  }

  lemma OneStep(s0: State, run: Run, s: State, step: Step)
    requires Inv(s) && Follows(s0, run, s) && Enabled(s, step) && (step.Enqueue? || step.Drop?)
    ensures Follows(s0, Then(run, step), Apply(s, step)) && Inv(Apply(s, step))
  {
    SchedulerKeepsInv(s, step);
    hide Inv, Enabled, Apply;
  }

  lemma CanEnqueue(s: State, p: nat)
    requires Inv(s) && p < NPROC && s.cpu == [] && s.procs[p].state == Runnable && !s.procs[p].queued
    ensures Enabled(s, Enqueue(p))
    ensures var s' := Apply(s, Enqueue(p)); s'.procs == s.procs[p := s.procs[p].(queued := true)] && s'.cpu == s.cpu
  {
  }

  lemma CanDrop(s: State, i: nat)
    requires Inv(s) && i < LEVELS && s.cpu == [] && |s.queues[i]| > 0 && s.queues[i][0] < NPROC
    requires s.procs[s.queues[i][0]].state != Runnable
    ensures Enabled(s, Drop(i)) && Apply(s, Drop(i)) == Popped(s, i)
  {
  }

  // ----- queues that fill their array -----

  /** Queue i holds all processes, and its head can run. */
  ghost predicate FullAt(s: State, i: nat) {
    i < |s.queues| && |s.queues[i]| == NPROC && s.queues[i][0] < |s.procs| && s.procs[s.queues[i][0]].state == Runnable
  }

  lemma FullMeans(s: State, i: nat)
    requires Inv(s) && i < LEVELS && |s.queues[i]| > 0
    ensures |s.queues[i]| <= NPROC && s.queues[i][0] < NPROC
    ensures FullAt(s, i) <==> |s.queues[i]| == NPROC && s.procs[s.queues[i][0]].state == Runnable
  {
    QueueBound(s.procs, s.queues, i, 0);
  }

  lemma EmptyNotFull(s: State, i: nat)
    ensures i < |s.queues| && s.queues[i] == [] ==> !FullAt(s, i)
  {
  }

  ghost predicate OverFull(s: State) {
    exists i: nat :: i < LEVELS && FullAt(s, i)
  }

  // The first loop of the scheduler.

  predicate Joins(p: Proc, i: nat) {
    p.state == Runnable && !p.queued && p.level == i
  }

  /** The first `k` processes that queue i takes in, in table order. */
  function Pending(procs: seq<Proc>, k: nat, i: nat): seq<nat>
    requires k <= |procs|
  {
    if k == 0 then [] else Pending(procs, k - 1, i) + if Joins(procs[k - 1], i) then [k - 1] else []
  }

  /** `s` once the first `k` processes have been looked at. */
  function Enqueued(s: State, k: nat): State
    requires k <= |s.procs|
  {
    State(seq(|s.procs|, p requires 0 <= p < |s.procs| =>
            if p < k && s.procs[p].state == Runnable then s.procs[p].(queued := true) else s.procs[p]),
          seq(|s.queues|, i requires 0 <= i < |s.queues| => s.queues[i] + Pending(s.procs, k, i)),
          s.cpu)
  }

  lemma EnqueuedNone(s: State)
    ensures Enqueued(s, 0) == s
  {
    forall i | 0 <= i < |s.queues| ensures Enqueued(s, 0).queues[i] == s.queues[i] {
      assert Pending(s.procs, 0, i) == [];
    }
    assert Enqueued(s, 0).procs == s.procs && Enqueued(s, 0).queues == s.queues;
  }

  lemma EnqueuedMeans(s: State)
    requires Inv(s)
    ensures var s' := Enqueued(s, NPROC);
      && |s'.procs| == NPROC && |s'.queues| == LEVELS
      && (forall p: nat :: p < NPROC ==>
            var q, q' := s.procs[p], s'.procs[p];
            q'.state == q.state && q'.level == q.level && (q'.queued <==> q.queued || q.state == Runnable))
      && (forall i: nat :: i < LEVELS && s.queues[i] != [] ==> s'.queues[i] != [] && s'.queues[i][0] == s.queues[i][0])
  {
  }

  lemma EnqueuedNext(s: State, k: nat)
    requires Inv(s) && k < NPROC && s.cpu == []
    ensures var s1, s2 := Enqueued(s, k), Enqueued(s, k + 1);
      && s1.procs[k] == s.procs[k]
      && if s.procs[k].state == Runnable && !s.procs[k].queued
         then (Enabled(s1, Enqueue(k)) ==> Apply(s1, Enqueue(k)) == s2) else s1 == s2
  {
    var s1, s2 := Enqueued(s, k), Enqueued(s, k + 1);
    var joins := s.procs[k].state == Runnable && !s.procs[k].queued;
    assert s2.procs == if joins then s1.procs[k := s1.procs[k].(queued := true)] else s1.procs;
    var lv := s.procs[k].level;
    forall i | 0 <= i < LEVELS ensures s2.queues[i] == if joins && i == lv then s1.queues[i] + [k] else s1.queues[i] {
    }
    assert s2.queues == if joins then s1.queues[lv := s1.queues[lv] + [k]] else s1.queues;
  }

  lemma {:induction false} EnqueuedInv(s: State, k: nat)
    requires Inv(s) && s.cpu == [] && k <= NPROC
    ensures Inv(Enqueued(s, k))
  {
    if k == 0 {
      EnqueuedNone(s);
    } else {
      var s1 := Enqueued(s, k - 1);
      EnqueuedInv(s, k - 1);
      EnqueuedNext(s, k - 1);
      if s.procs[k - 1].state == Runnable && !s.procs[k - 1].queued {
        CanEnqueue(s1, k - 1);
        SchedulerKeepsInv(s1, Enqueue(k - 1));
      }
    }
  }

  /** Every process is at one level, queued or about to be, and the queue of that level is
      empty or has a head that can run. */
  ghost predicate Crowded(s: State) {
    exists i: nat :: i < LEVELS && CrowdedAt(s, i)
  }

  ghost predicate CrowdedAt(s: State, i: nat) {
    && i < |s.queues|
    && (forall p: nat :: p < |s.procs| ==> s.procs[p].level == i && (s.procs[p].queued || s.procs[p].state == Runnable))
    && (s.queues[i] != [] ==> s.queues[i][0] < |s.procs| && s.procs[s.queues[i][0]].state == Runnable)
  }

  /** A queue comes to hold all processes exactly when they crowd one level. */
  lemma OverFullIff(s: State)
    requires Inv(s) && s.cpu == []
    ensures OverFull(Enqueued(s, NPROC)) <==> Crowded(s)
  {
    EnqueuedInv(s, NPROC);
    forall i: nat | i < LEVELS ensures FullAt(Enqueued(s, NPROC), i) <==> CrowdedAt(s, i) {
      if FullAt(Enqueued(s, NPROC), i) {
        FullCrowded(s, i);
      }
      if CrowdedAt(s, i) {
        CrowdedFull(s, i);
      }
    }
  }

  lemma FullCrowded(s: State, i: nat)
    requires Inv(s) && Inv(Enqueued(s, NPROC)) && i < LEVELS && FullAt(Enqueued(s, NPROC), i)
    ensures CrowdedAt(s, i)
  {
    hide Enqueued;
    EnqueuedMeans(s);
    var s' := Enqueued(s, NPROC);
    forall p: nat | p < NPROC ensures s'.procs[p].level == i && s'.procs[p].queued {
      if p !in s'.queues[i] {
        DistinctBound(s'.queues[i] + [p], NPROC);
      }
    }
  }

  lemma CrowdedFull(s: State, i: nat)
    requires Inv(s) && Inv(Enqueued(s, NPROC)) && i < LEVELS && CrowdedAt(s, i)
    ensures FullAt(Enqueued(s, NPROC), i)
  {
    hide Enqueued;
    EnqueuedMeans(s);
    var s' := Enqueued(s, NPROC);
    AllInFull(s'.procs, s'.queues, i);
    if s.queues[i] == [] {
      var p := s'.queues[i][0];
      assert !s.procs[p].queued;
    }
  }

  lemma AllInFull(procs: seq<Proc>, queues: seq<seq<nat>>, i: nat)
    requires QueuesOk(procs, queues) && i < LEVELS
    requires forall p: nat :: p < NPROC ==> procs[p].queued && procs[p].level == i
    ensures |queues[i]| == NPROC && queues[i][0] < NPROC
  {
    ElementsCount(queues[i]);
    forall p | p in Range(0, NPROC) ensures p in Elements(queues[i]) {
      assert procs[p].queued && p in queues[i];
    }
    SubsetSize(Range(0, NPROC), Elements(queues[i]));
    QueueBound(procs, queues, i, 0);
  }

  /** Popping with no process on the processor keeps the bookkeeping in order. */
  lemma PopIdle(s: State, i: nat)
    requires Inv(s) && s.cpu == [] && i < LEVELS && |s.queues[i]| > 0
    ensures s.queues[i][0] < NPROC && Inv(Popped(s, i)) && |s.queues[i]| <= NPROC
  {
    PopKeeps(s.procs, s.queues, i);
    QueueBound(s.procs, s.queues, i, 0);
  }

  /** The queues from i on, and all processes, are as they were. */
  ghost predicate SameFrom(first: State, s: State, i: nat) {
    && |first.queues| == |s.queues| == LEVELS && |first.procs| == |s.procs|
    && (forall j :: i <= j < LEVELS ==> s.queues[j] == first.queues[j])
    && (forall p :: 0 <= p < |s.procs| ==> s.procs[p].state == first.procs[p].state)
  }

  ghost predicate NotFullBelow(s: State, i: nat) {
    forall j: nat :: j < i ==> !FullAt(s, j)
  }

  lemma NoneFullYet(s: State)
    requires |s.queues| == LEVELS
    ensures NotFullBelow(s, 0) && SameFrom(s, s, 0)
  {
  }

  lemma NoneFull(s: State)
    ensures NotFullBelow(s, LEVELS) ==> !OverFull(s)
  {
  }

  lemma ScanMeans(first: State, s: State, i: nat, ok: bool)
    requires SameFrom(first, s, i) && i < LEVELS && (ok <==> !FullAt(s, i))
    ensures !ok ==> OverFull(first)
  {
    if !ok {
      assert FullAt(first, i);
    }
  }

  lemma SameFromKept(first: State, s: State, s': State, i: nat)
    requires SameFrom(first, s, i) && Drained(s, s', i)
    ensures SameFrom(first, s', i + 1)
  {
  }

  lemma NotFullMore(first: State, s: State, i: nat)
    requires NotFullBelow(first, i) && SameFrom(first, s, i) && i < LEVELS && !FullAt(s, i)
    ensures NotFullBelow(first, i + 1)
  {
  }

  /** When queue i is not empty, no other queue holds all processes. */
  lemma OthersNotFull(first: State, s: State, i: nat)
    requires Inv(first) && SameFrom(first, s, i) && i < LEVELS && !FullAt(s, i) && |s.queues[i]| > 0
    ensures !OverFull(first)
  {
    if OverFull(first) {
      var j: nat :| j < LEVELS && FullAt(first, j);
      DistinctBound(first.queues[j] + [first.queues[i][0]], NPROC);
    }
  }

  // The first process forks until the table is full, and yields.

  function OneQueue(procs: seq<Proc>, q: seq<nat>, cpu: seq<nat>): State {
    State(procs, [q, [], [], []], cpu)
  }

  /** Process 0 runs and the k - 1 others are its children, not queued yet. */
  function Forking(k: nat): State {
    OneQueue(seq(NPROC, p => if p == 0 then Proc(Running, true, 0, 0)
                             else if p < k then Proc(Runnable, false, 0, 0) else Proc(Unused, false, 0, 0)), [0], [0])
  }

  /** No process runs, all can, and the first k are queued. */
  function Waiting(k: nat): State {
    OneQueue(seq(NPROC, p => Proc(Runnable, p < k, 0, 0)), seq(k, p => p), [])
  }

  lemma FirstRuns() returns (run: Run)
    ensures run == Then(Then(Then(Begin, Fork(0)), Enqueue(0)), Select(0)) && Follows(Initial(), run, Forking(1))
  {
    var s0 := Initial();
    var s1 := Apply(s0, Fork(0));
    var s2 := Apply(s1, Enqueue(0));
    var s3 := Apply(s2, Select(0));
    assert s2.queues[0] == [0] && s2.queues[0][1..] == [] && [0] + [] == [0];
    assert s3.procs == Forking(1).procs;
    assert s3.queues[0] == [0] && s3.queues == Forking(1).queues;
    run := Then(Then(Then(Begin, Fork(0)), Enqueue(0)), Select(0));
    assert Exec(s0, Then(Begin, Fork(0))) == s1;
    assert Exec(s0, Then(Then(Begin, Fork(0)), Enqueue(0))) == s2;
  }

  lemma {:induction false} Forks(k: nat) returns (run: Run)
    requires 0 < k <= NPROC
    ensures Follows(Initial(), run, Forking(k))
  {
    if k == 1 {
      run := FirstRuns();
    } else {
      run := Forks(k - 1);
      ForkOne(k - 1);
      run := Then(run, Fork(k - 1));
    }
  }

  lemma ForkOne(k: nat)
    requires 0 < k < NPROC
    ensures Enabled(Forking(k), Fork(k)) && Apply(Forking(k), Fork(k)) == Forking(k + 1)
  {
    assert Apply(Forking(k), Fork(k)).procs == Forking(k + 1).procs;
  }

  lemma {:induction false} Waits(k: nat) returns (run: Run)
    requires 0 < k <= NPROC
    ensures Follows(Initial(), run, Waiting(k))
  {
    if k == 1 {
      run := Forks(NPROC);
      YieldFirst();
      run := Then(run, Yield(0));
    } else {
      run := Waits(k - 1);
      EnqueueOne(k - 1);
      run := Then(run, Enqueue(k - 1));
    }
  }

  lemma YieldFirst()
    ensures Enabled(Forking(NPROC), Yield(0)) && Apply(Forking(NPROC), Yield(0)) == Waiting(1)
  {
    assert Apply(Forking(NPROC), Yield(0)).procs == Waiting(1).procs && [0] == seq(1, p => p);
  }

  lemma EnqueueOne(k: nat)
    requires 0 < k < NPROC
    ensures Enabled(Waiting(k), Enqueue(k)) && Apply(Waiting(k), Enqueue(k)) == Waiting(k + 1)
  {
    var s := Apply(Waiting(k), Enqueue(k));
    assert s.procs == Waiting(k + 1).procs && s.queues[0] == seq(k + 1, p => p) && s.queues == Waiting(k + 1).queues;
  }

  /** So a queue can come to hold all processes, its head runnable: the next round overflows. */
  lemma QueueFills() returns (run: Run)
    ensures Legal(Initial(), run) && Tame(Initial(), run) && Exec(Initial(), run).cpu == []
    ensures Crowded(Exec(Initial(), run)) && Inv(Exec(Initial(), run))
  {
    hide Inv;
    run := Waits(NPROC);
    InitialOk();
    RunKeepsInv(Initial(), run);
    assert CrowdedAt(Waiting(NPROC), 0);
  }

  ghost function Added(s: State, p: nat, i: nat, q: seq<nat>): State
    requires p < |s.procs| && i < |s.queues|
  {
    With(s, p, s.procs[p].(queued := true)).(queues := s.queues[i := q])
  }

  lemma InvQueueBound(s: State, i: nat, p: nat)
    requires Inv(s) && i < LEVELS && p < NPROC && !s.procs[p].queued
    ensures |s.queues[i]| < NPROC
  {
    QueueBound(s.procs, s.queues, i, p);
  }

  /** Popped and put back in front, the queue is as it was. */
  lemma Rotated(s: State, i: nat)
    requires |s.queues| == LEVELS && i < LEVELS && |s.queues[i]| > 0 && s.queues[i][0] < |s.procs|
    requires s.procs[s.queues[i][0]].queued
    ensures var s1, p := Popped(s, i), s.queues[i][0]; Added(s1, p, i, [p] + s1.queues[i]) == s
  {
    var s1, p := Popped(s, i), s.queues[i][0];
    assert Added(s1, p, i, [p] + s1.queues[i]).procs == s.procs && [p] + s1.queues[i] == s.queues[i];
  }

  lemma HeadMeans(s: State, i: nat)
    requires Inv(s) && i < LEVELS && |s.queues[i]| > 0
    ensures s.queues[i][0] < NPROC && s.procs[s.queues[i][0]].queued && s.procs[s.queues[i][0]].level == i
  {
  }

  // ----- the queues in memory -----

  class Queue {
    const slots: array<nat>
    var tail: nat
    var length: nat

    ghost predicate Valid()
      reads this
    {
      slots.Length == NPROC && tail == length <= NPROC
    }

    ghost function Contents(): seq<nat>
      requires Valid()
      reads this, slots
    {
      slots[..tail]
    }

    constructor ()
      ensures Valid() && Contents() == [] && fresh(slots)
    {
      slots := new nat[NPROC](i => 0);
      tail, length := 0, 0;
    }

    /** pop, which shifts all the slots down by one. */
    method Pop() returns (p: nat)
      requires Valid() && tail > 0
      modifies this, slots
      ensures Valid() && p == old(Contents())[0] && Contents() == old(Contents())[1..]
    {
      ghost var was := slots[..];
      p := slots[0];
      slots[0] := 0;
      for i := 0 to NPROC - 1
        modifies slots
        invariant forall k {:trigger slots[k]} :: 0 <= k < i ==> slots[k] == was[k + 1]
        invariant forall k :: i < k < NPROC ==> slots[k] == was[k]
      {
        slots[i] := slots[i + 1];
      }
      tail := tail - 1;
      length := length - 1;
      assert slots[..tail] == was[1..tail + 1];
    }

    /** The scheduler's append. */
    method PushBack(p: nat)
      requires Valid() && tail < NPROC
      modifies this, slots
      ensures Valid() && Contents() == old(Contents()) + [p]
    {
      slots[tail] := p;
      tail := tail + 1;
      length := length + 1;
    }

    /** The scheduler's insertion in front. The highest slot its shift stores to is
        the new length, one past the new end; `ok` says whether that is in the array.
        Where it is not, the model stops before the store. */
    method PushFront(p: nat) returns (high: nat, ok: bool)
      requires Valid() && tail < NPROC
      modifies this, slots
      ensures Valid() && high == old(tail) + 1 && (ok <==> high < slots.Length)
      ensures Contents() == if ok then [p] + old(Contents()) else old(Contents())
    {
      high := length + 1;
      ok := high < slots.Length;
      if !ok {
        return;
      }
      tail := tail + 1;
      length := length + 1;
      var i := length;
      while i > 0
        modifies slots
        invariant 0 <= i <= length < NPROC
        invariant forall k :: i < k <= length ==> slots[k] == old(slots[k - 1])
        invariant forall k :: 0 <= k <= i ==> slots[k] == old(slots[k])
      {
        slots[i] := slots[i - 1];
        i := i - 1;
      }
      slots[0] := p;
      assert slots[1..tail] == old(slots[..tail]);
    }
  }

  class Scheduler {
    const queue: seq<Queue>
    const procs: array<Proc>
    var cpu: seq<nat>

    ghost function Slots(): set<object> {
      set q | q in queue :: q.slots
    }

    ghost predicate Shaped()
      reads queue
    {
      && |queue| == LEVELS && procs.Length == NPROC
      && (forall i :: 0 <= i < LEVELS ==> queue[i].Valid())
      && (forall i, j :: 0 <= i < j < LEVELS ==> queue[i] != queue[j] && queue[i].slots != queue[j].slots)
    }

    ghost function Abs(): State
      requires Shaped()
      reads this, procs, queue, Slots()
    {
      State(procs[..], [queue[0].Contents(), queue[1].Contents(), queue[2].Contents(), queue[3].Contents()], cpu)
    }

    ghost predicate Valid()
      reads this, procs, queue, Slots()
    {
      Shaped() && Inv(Abs())
    }

    lemma At(i: nat)
      requires Shaped() && i < LEVELS
      ensures Abs().procs == procs[..] && Abs().cpu == cpu && |Abs().queues| == LEVELS
      ensures Abs().queues[i] == queue[i].slots[..queue[i].tail]
    {
    }

    lemma AllAt()
      requires Shaped()
      ensures Abs().procs == procs[..] && Abs().cpu == cpu && |Abs().queues| == LEVELS
      ensures forall j :: 0 <= j < LEVELS ==> Abs().queues[j] == queue[j].slots[..queue[j].tail]
    {
    }

    /** pop on queue i */
    method PopFrom(i: nat) returns (p: nat)
      requires Shaped() && i < LEVELS && queue[i].tail > 0 && queue[i].slots[0] < NPROC
      modifies procs, queue, Slots()
      ensures Shaped() && p == old(queue[i].slots[0]) && queue[i].tail == old(queue[i].tail) - 1
      ensures Abs() == Popped(old(Abs()), i)
    {
      hide Abs;
      AllAt();
      p := TakeFrom(i);
      ghost var s := Abs();
      AllAt();
      procs[p] := procs[p].(queued := false);
      AllAt();
      assert Abs().queues == s.queues;
    }

    method TakeFrom(i: nat) returns (p: nat)
      requires Shaped() && i < LEVELS && queue[i].tail > 0
      modifies queue, Slots()
      ensures Shaped() && p == old(queue[i].slots[0]) && queue[i].tail == old(queue[i].tail) - 1
      ensures Abs() == old(Abs()).(queues := old(Abs()).queues[i := old(Abs()).queues[i][1..]])
    {
      hide Abs;
      AllAt();
      ghost var was := Abs();
      p := queue[i].Pop();
      AllAt();
      assert Abs().queues == was.queues[i := was.queues[i][1..]];
    }

    method AddBack(i: nat, p: nat)
      requires Shaped() && i < LEVELS && p < NPROC && queue[i].tail < NPROC
      modifies procs, queue, Slots()
      ensures Shaped() && Abs() == old(Added(Abs(), p, i, Abs().queues[i] + [p]))
    {
      hide Abs;
      AllAt();
      ghost var was := Abs();
      queue[i].PushBack(p);
      procs[p] := procs[p].(queued := true);
      AllAt();
      assert Abs().queues == was.queues[i := was.queues[i] + [p]];
    }

    method AddFront(i: nat, p: nat) returns (ok: bool)
      requires Shaped() && i < LEVELS && p < NPROC && queue[i].tail < NPROC
      modifies procs, queue, Slots()
      ensures Shaped() && (ok <==> old(queue[i].tail) + 1 < NPROC)
      ensures Abs() == if ok then old(Added(Abs(), p, i, [p] + Abs().queues[i])) else old(Abs())
    {
      hide Abs;
      AllAt();
      ghost var was := Abs();
      var high;
      high, ok := queue[i].PushFront(p);
      if ok {
        procs[p] := procs[p].(queued := true);
      }
      AllAt();
      assert Abs().queues == if ok then was.queues[i := [p] + was.queues[i]] else was.queues;
    }

    /** The scheduler's append of one process; the test for a full queue never fails. */
    method Append(p: nat)
      requires Valid() && Enabled(Abs(), Enqueue(p))
      modifies procs, queue, Slots()
      ensures Valid() && Abs() == old(Apply(Abs(), Enqueue(p)))
    {
      hide Inv;
      var i := procs[p].level;
      InvQueueBound(Abs(), i, p);
      SchedulerKeepsInv(Abs(), Enqueue(p));
      assert queue[i].tail < 100;    // where the scheduler would panic
      AddBack(i, p);
    }

    /** Popping a runnable process and putting it back in front of its queue, which
        works unless the queue fills its array. */
    method PutBack(i: nat) returns (p: nat, ok: bool)
      requires Valid() && i < LEVELS && 0 < queue[i].tail && cpu == []
      modifies procs, queue, Slots()
      ensures Valid() && p == old(queue[i].slots[0]) && (ok <==> old(queue[i].tail) < NPROC)
      ensures Abs() == if ok then old(Abs()) else old(Popped(Abs(), i))
    {
      hide Inv;
      ghost var s := Abs();
      HeadMeans(s, i);
      PopIdle(s, i);
      p := PopFrom(i);
      ok := AddFront(procs[p].level, p);
      Rotated(s, i);
    }

    /** The first loop of the scheduler: queue every runnable process that is not. */
    method EnqueueRunnable(ghost s0: State) returns (ghost run: Run)
      requires Valid() && cpu == [] && s0 == Abs()
      modifies procs, queue, Slots()
      ensures Valid() && cpu == [] && Follows(s0, run, Abs()) && Abs() == Enqueued(s0, NPROC)
    {
      hide Inv, Apply, Follows, Enqueued, Abs, Enabled;
      At(0);
      run := Begin;
      NoSteps(s0);
      EnqueuedNone(s0);
      for p := 0 to NPROC
        invariant Valid() && cpu == [] && Follows(s0, run, Abs()) && Abs() == Enqueued(s0, p)
      {
        At(0);
        EnqueuedNext(s0, p);
        if procs[p].state == Runnable && !procs[p].queued {
          CanEnqueue(Abs(), p);
          OneStep(s0, run, Abs(), Enqueue(p));
          Append(p);
          run := Then(run, Enqueue(p));
        }
      }
    }

    /** The inner loop of the second: pop queue i until a runnable process turns
        up, which is put back, or the queue is empty. The last one popped is returned.
        It overflows exactly when the queue fills its array and its head is runnable. */
    method Scan(i: nat, ghost s0: State, ghost run0: Run) returns (current: int, ok: bool, ghost run: Run)
      requires Valid() && cpu == [] && i < LEVELS && Follows(s0, run0, Abs())
      modifies procs, queue, Slots()
      ensures Valid() && cpu == [] && (ok <==> !old(FullAt(Abs(), i)))
      ensures !ok ==> Abs() == old(Popped(Abs(), i))
      ensures ok ==> Follows(s0, run, Abs()) && -1 <= current < NPROC && Drained(old(Abs()), Abs(), i)
      ensures ok ==> if current >= 0 && procs[current].state == Runnable
                     then 0 < queue[i].tail < NPROC && queue[i].slots[0] == current else queue[i].tail == 0
      ensures ok ==> (current < 0 <==> old(queue[i].tail) == 0)
    {
      hide Inv, Apply, Follows, Drained, Popped, FullAt, Enabled, Abs;
      At(i);
      DrainedNone(Abs(), i);
      run, ok := run0, true;
      current := -1;
      while queue[i].tail > 0
        invariant Valid() && cpu == [] && Follows(s0, run, Abs()) && ok
        invariant -1 <= current < NPROC && (current >= 0 ==> procs[current].state != Runnable && queue[i].tail < NPROC)
        invariant current < 0 ==> Abs() == old(Abs())
        invariant current >= 0 ==> !old(FullAt(Abs(), i)) && old(queue[i].tail) > 0
        invariant Drained(old(Abs()), Abs(), i)
        decreases queue[i].tail
      {
        At(i);
        HeadMeans(Abs(), i);
        FullMeans(Abs(), i);
        if procs[queue[i].slots[0]].state == Runnable {
          current, ok := PutBack(i);
          At(i);
          return;
        }
        CanDrop(Abs(), i);
        OneStep(s0, run, Abs(), Drop(i));
        DrainedMore(old(Abs()), Abs(), i);
        current := PopFrom(i);
        At(i);
        run := Then(run, Drop(i));
      }
      At(i);
      EmptyNotFull(Abs(), i);
    }

    /** The second loop: scan the queues up to the first that is not empty. */
    method FirstProcess(ghost s0: State, ghost run0: Run) returns (current: int, i: nat, ok: bool, ghost run: Run)
      requires Valid() && cpu == [] && Follows(s0, run0, Abs())
      modifies procs, queue, Slots()
      ensures Valid() && cpu == [] && (ok <==> !old(OverFull(Abs())))
      ensures ok ==> Follows(s0, run, Abs()) && -1 <= current < NPROC
      ensures ok && current < 0 ==> EmptyBelow(Abs(), LEVELS)
      ensures ok && current >= 0 ==> 0 < i <= LEVELS && EmptyBelow(Abs(), i - 1)
      ensures ok && current >= 0 ==>
                if procs[current].state == Runnable
                then 0 < queue[i - 1].tail < NPROC && queue[i - 1].slots[0] == current else queue[i - 1].tail == 0
    {
      hide Inv, Apply, Follows, Drained, EmptyBelow, OverFull, FullAt;
      ghost var first := Abs();
      current, i, ok, run := -1, 0, true, run0;
      EmptyBelowNone(Abs());
      NoneFullYet(first);
      while i < LEVELS && current < 0
        invariant Valid() && cpu == [] && ok && Follows(s0, run, Abs()) && -1 <= current < NPROC && i <= LEVELS
        invariant current < 0 ==> EmptyBelow(Abs(), i) && SameFrom(first, Abs(), i) && NotFullBelow(first, i)
        invariant current >= 0 ==> 0 < i && EmptyBelow(Abs(), i - 1) && !OverFull(first)
        invariant current >= 0 ==>
                    if procs[current].state == Runnable
                    then 0 < queue[i - 1].tail < NPROC && queue[i - 1].slots[0] == current else queue[i - 1].tail == 0
      {
        ghost var s := Abs();
        current, ok, run := Scan(i, s0, run);
        ScanMeans(first, s, i, ok);
        if !ok {
          return;
        }
        EmptyBelowKept(s, Abs(), i);
        SameFromKept(first, s, Abs(), i);
        NotFullMore(first, s, i);
        if current >= 0 {
          OthersNotFull(first, s, i);
        }
        i := i + 1;
      }
      NoneFull(first);
    }

    /** One round of the scheduler up to the switch; -1 if it runs nothing. Putting
        the chosen process back overflows exactly when all processes crowd one level. */
    method Schedule() returns (chosen: int, ok: bool, ghost run: Run)
      requires Valid() && cpu == []
      modifies this`cpu, procs, queue, Slots()
      ensures Valid() && (ok <==> !Crowded(old(Abs())))
      ensures ok ==> Follows(old(Abs()), run, Abs())
      ensures ok && chosen >= 0 ==> OnCpu(Abs(), chosen) && AtHead(Abs().procs, Abs().queues, chosen)
      ensures ok && chosen >= 0 ==> EmptyBelow(Abs(), procs[chosen].level)
      ensures chosen < 0 ==> cpu == [] && (ok ==> Abs().queues[0] == [])
    {
      hide Inv, Apply, Follows, EmptyBelow, OverFull, Crowded, Enqueued;
      ghost var s0 := Abs();
      run := EnqueueRunnable(s0);
      OverFullIff(s0);
      var current, i;
      current, i, ok, run := FirstProcess(s0, run);
      chosen := -1;
      if !ok {
        return;
      }
      if current >= 0 && procs[current].state == Runnable {
        Dispatch(current, i - 1, s0, run);
        chosen := current;
        run := Then(run, Select(i - 1));
      } else {
        FirstEmpty(Abs(), if current < 0 then LEVELS else i - 1);
      }
    }

    method Dispatch(p: nat, ghost i: nat, ghost s0: State, ghost run: Run)
      requires Valid() && cpu == [] && Follows(s0, run, Abs()) && i < LEVELS && EmptyBelow(Abs(), i)
      requires p < NPROC && procs[p].state == Runnable && 0 < queue[i].tail < NPROC && queue[i].slots[0] == p
      modifies this`cpu, procs
      ensures Valid() && Follows(s0, Then(run, Select(i)), Abs())
      ensures OnCpu(Abs(), p) && AtHead(Abs().procs, Abs().queues, p) && EmptyBelow(Abs(), procs[p].level)
    {
      hide Inv, Apply, Follows, EmptyBelow;
      ghost var s := Abs();
      SelectIs(s, i);
      SelectFollows(s0, run, s, i);
      procs[p] := procs[p].(state := Running);
      cpu := [p];
      SameEmpty(s, Abs(), i);
    }

    /** One level down, if there is one; the quota starts afresh, and the process yields. */
    method Demote(p: nat)
      requires p < procs.Length
      modifies this`cpu, procs
      ensures cpu == [] && procs[..] == var q := old(procs[p]);
        old(procs[..])[p := Proc(Runnable, q.queued, if q.level < LEVELS - 1 then q.level + 1 else q.level, 0)]
    {
      if procs[p].level < LEVELS - 1 {
        procs[p] := procs[p].(level := procs[p].level + 1);
      }
      procs[p] := procs[p].(used := 0);
      procs[p] := procs[p].(state := Runnable);
      cpu := [];
    }

    /** usertrap pops the queue of the running process, whose head it is. */
    method LeaveQueue(p: nat)
      requires Shaped() && p < NPROC && procs[p].level < LEVELS
      requires queue[procs[p].level].tail > 0 && queue[procs[p].level].slots[0] == p
      modifies procs, queue, Slots()
      ensures Shaped() && Abs() == old(Popped(Abs(), procs[p].level))
    {
      hide Popped;
      ghost var s := Abs();
      var i := procs[p].level;
      if queue[i].tail > 0 {
        var q := PopFrom(i);
        PoppedIs(s, i);
        procs[p] := procs[p].(queued := false);
        assert procs[..] == Popped(s, i).procs;
      }
    }

    /** usertrap's block for a tick with the quota used up, and the yield that follows:
        what it pops is the process itself, which goes one level down if there is one. */
    method QuotaUsed(p: nat)
      requires Valid() && Enabled(Abs(), Expire(p))
      modifies this`cpu, procs, queue, Slots()
      ensures Valid() && Abs() == old(Apply(Abs(), Expire(p)))
      ensures MovedDown(old(Abs()), p, Abs())
    {
      hide Inv, MovedDown, Apply, Popped;
      ghost var s, i := Abs(), procs[p].level;
      ExpireKeepsInv(s, p);
      RunningAtHead(s, p);
      MovedDownIs(s, p, Apply(s, Expire(p)));
      PoppedIs(s, i);
      LeaveQueue(p);
      Demote(p);
      assert Abs().procs == Apply(s, Expire(p)).procs;
    }

    /** update_time: the running process, and no other, has used one tick more. */
    method UpdateTime(ghost p: nat)
      requires Valid() && OnCpu(Abs(), p)
      modifies procs
      ensures Valid() && Abs() == old(Apply(Abs(), Tick(p)))
      ensures procs[..] == old(procs[..])[p := old(procs[p]).(used := old(procs[p].used) + 1)]
    {
      hide Inv;
      ghost var s := Abs();
      RunningOnly(s, p);
      ProcessKeepsInv(s, Tick(p));
      for i := 0 to NPROC
        invariant forall k: nat :: k < NPROC ==>
                    procs[k] == if k < i && k == p then s.procs[k].(used := s.procs[k].used + 1) else s.procs[k]
      {
        if procs[i].state == Running {
          procs[i] := procs[i].(used := procs[i].used + 1);
        }
      }
      assert procs[..] == s.procs[p := s.procs[p].(used := s.procs[p].used + 1)];
    }

    /** A timer interrupt that finds process p in user mode. With this tick it has used up its
        quota and is moved down, or it yields and stays at the head of its queue. */
    method TimerTrap(p: nat)
      requires Valid() && OnCpu(Abs(), p)
      modifies this`cpu, procs, queue, Slots()
      ensures Valid()
      ensures var s, q := old(Abs()), old(procs[p]).(used := old(procs[p].used) + 1);
        if q.used >= Quota(q.level) then MovedDown(With(s, p, q), p, Abs())
        else Abs() == State(s.procs[p := q.(state := Runnable)], s.queues, [])
    {
      hide Inv, MovedDown;
      UpdateTime(p);
      RunningOnly(Abs(), p);
      if procs[p].used >= Quota(procs[p].level) {
        QuotaUsed(p);
      } else {
        ghost var s := Abs();
        ProcessKeepsInv(s, Yield(p));
        procs[p] := procs[p].(state := Runnable);
        cpu := [];
        assert Abs().procs == Apply(s, Yield(p)).procs;
      }
    }

    /** initialisation_queue, on four empty queues. */
    constructor (q: seq<Queue>)
      requires |q| == LEVELS && forall i :: 0 <= i < LEVELS ==> q[i].Valid() && q[i].Contents() == []
      requires forall i, j :: 0 <= i < j < LEVELS ==> q[i] != q[j] && q[i].slots != q[j].slots
      ensures Valid() && Abs() == Initial() && queue == q && fresh(procs)
    {
      queue := q;
      procs := new Proc[NPROC](i => Proc(Unused, false, 0, 0));
      cpu := [];
      new;
      hide Inv;
      InitialOk();
      assert Abs().procs == Initial().procs && Abs().queues == Initial().queues;
    }
  }
}
