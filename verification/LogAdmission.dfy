/**
 Group commit as a protocol: operations join a transaction, log blocks and
 leave; the last one out commits. An operation is taken to log at most
 MAXOPBLOCKS distinct blocks, which is what begin_op reserves for it.
 */
module LogAdmission {
  import opened Collections
  import opened LogRecovery

  /** An outstanding operation: the blocks it has logged, and how many of them
      were new to the transaction. */
  datatype Op = Op(blocks: set<nat>, added: nat)

  datatype State = State(entries: seq<nat>, ops: seq<Op>, committing: bool)

  datatype Step = Begin | LogWrite(op: nat, block: nat) | End(op: nat) | CommitDone

  datatype Outcome = Running(state: State) | TooBig | CommittingPanic

  const INITIAL := State([], [], false)

  /** The step can happen now. With `relog` false, an operation logs no block twice. */
  predicate Enabled(s: State, step: Step, relog: bool) {
    match step
    case Begin => !s.committing && |s.entries| + (|s.ops| + 1) * MAXOPBLOCKS <= LOGSIZE
    case LogWrite(op, b) =>
      op < |s.ops| && |s.ops[op].blocks + {b}| <= MAXOPBLOCKS && (b in s.ops[op].blocks ==> relog)
    case End(op) => op < |s.ops|
    case CommitDone => s.committing
  }

  function Apply(size: nat, s: State, step: Step): (r: Outcome)
    requires Enabled(s, step, true)
  {
    match step
    case Begin => Running(s.(ops := s.ops + [Op({}, 0)]))
    case LogWrite(i, b) =>
      if |s.entries| >= LOGSIZE || |s.entries| >= size - 1 then TooBig
      else
        var op := s.ops[i];
        if b in s.entries then Running(s.(ops := s.ops[i := Op(op.blocks + {b}, op.added)]))
        else Running(s.(entries := s.entries + [b], ops := s.ops[i := Op(op.blocks + {b}, op.added + 1)]))
    case End(i) =>
      if s.committing then CommittingPanic
      else
        var ops := Without(s.ops, i);
        Running(s.(ops := ops, committing := |ops| == 0))
    case CommitDone => Running(s.(entries := [], committing := false))
  }

  /** The outcome of a run, if each of its steps is enabled in turn. */
  function Exec(size: nat, s: State, steps: seq<Step>, relog: bool): (r: seq<Outcome>)
    ensures |r| <= 1
  {
    if |steps| == 0 then [Running(s)]
    else
      var before := Exec(size, s, steps[..|steps| - 1], relog);
      var last := steps[|steps| - 1];
      if |before| == 1 && before[0].Running? && Enabled(before[0].state, last, relog)
      then [Apply(size, before[0].state, last)]
      else []
  }

  // ----- the invariant -----

  /** The reservations the outstanding operations have not used. */
  function Unused(ops: seq<Op>): int {
    if |ops| == 0 then 0 else Unused(ops[..|ops| - 1]) + MAXOPBLOCKS - ops[|ops| - 1].added
  }

  ghost predicate Inv(s: State) {
    && |s.entries| + Unused(s.ops) <= LOGSIZE
    && (forall i :: 0 <= i < |s.ops| ==> s.ops[i].added <= |s.ops[i].blocks| <= MAXOPBLOCKS)
    && (forall i, b :: 0 <= i < |s.ops| && b in s.ops[i].blocks ==> b in s.entries)
    && (s.committing ==> s.ops == [])
    && (s.ops == [] && !s.committing ==> s.entries == [])
  }

  lemma {:induction false} UnusedSplit(ops: seq<Op>, i: nat)
    requires i < |ops|
    ensures Unused(ops) == Unused(Without(ops, i)) + MAXOPBLOCKS - ops[i].added
  {
    var n := |ops| - 1;
    if i < n {
      UnusedSplit(ops[..n], i);
      assert Without(ops[..n], i) == Without(ops, i)[..n - 1];
    } else {
      assert Without(ops, i) == ops[..n];
    }
  }

  lemma {:induction false} UnusedBounds(ops: seq<Op>)
    requires forall i :: 0 <= i < |ops| ==> ops[i].added <= MAXOPBLOCKS
    ensures 0 <= Unused(ops) <= |ops| * MAXOPBLOCKS
  {
    if |ops| > 0 {
      UnusedBounds(ops[..|ops| - 1]);
    }
  }

  lemma UnusedChanged(ops: seq<Op>, i: nat, op: Op)
    requires i < |ops|
    ensures Unused(ops[i := op]) == Unused(ops) + ops[i].added - op.added
  {
    UnusedSplit(ops, i);
    UnusedSplit(ops[i := op], i);
    assert Without(ops[i := op], i) == Without(ops, i);
  }

  lemma LogWriteKeepsInv(size: nat, s: State, i: nat, b: nat)
    requires Inv(s) && Enabled(s, LogWrite(i, b), true) && Apply(size, s, LogWrite(i, b)).Running?
    ensures Inv(Apply(size, s, LogWrite(i, b)).state)
  {
    var op, s' := s.ops[i], Apply(size, s, LogWrite(i, b)).state;
    UnusedChanged(s.ops, i, s'.ops[i]);
    assert b in s.entries || b !in op.blocks;
    assert |op.blocks| <= |op.blocks + {b}| == if b in op.blocks then |op.blocks| else |op.blocks| + 1 by {
      assert b in op.blocks ==> op.blocks + {b} == op.blocks;
    }
    assert b in s'.entries && forall c :: c in s.entries ==> c in s'.entries;
    hide Unused;
    forall j, c | 0 <= j < |s'.ops| && c in s'.ops[j].blocks ensures c in s'.entries {
      assert j != i ==> s'.ops[j] == s.ops[j];
    }
  }

  /** The log space in use and reserved never exceeds LOGSIZE, and end_op finds
      no commit in progress. */
  lemma StepKeepsInv(size: nat, s: State, step: Step)
    requires Inv(s) && Enabled(s, step, true)
    ensures Apply(size, s, step).Running? ==> Inv(Apply(size, s, step).state)
    ensures Apply(size, s, step) != CommittingPanic
  {
    match step
    case Begin => BeginKeepsInv(s);
    case LogWrite(i, b) =>
      if Apply(size, s, step).Running? {
        LogWriteKeepsInv(size, s, i, b);
      }
    case End(i) => EndKeepsInv(s, i);
    case CommitDone =>
  }

  lemma BeginKeepsInv(s: State)
    requires Inv(s) && Enabled(s, Begin, true)
    ensures Inv(s.(ops := s.ops + [Op({}, 0)]))
  {
    UnusedBounds(s.ops);
    assert (s.ops + [Op({}, 0)])[..|s.ops|] == s.ops;
  }

  lemma EndKeepsInv(s: State, i: nat)
    requires Inv(s) && i < |s.ops|
    ensures Inv(s.(ops := Without(s.ops, i), committing := |Without(s.ops, i)| == 0))
  {
    hide Unused;
    var ops := Without(s.ops, i);
    UnusedSplit(s.ops, i);
    assert forall k {:trigger ops[k]} :: 0 <= k < |ops| ==> ops[k] == s.ops[if k < i then k else k + 1];
  }

  /** Whole runs. With room for LOGSIZE slots and a header, "too big a
      transaction" takes an operation that logs a block a second time. */
  lemma {:induction false} RunSafe(size: nat, steps: seq<Step>, relog: bool)
    ensures var r := Exec(size, INITIAL, steps, relog);
      |r| == 1 ==>
        && r[0] != CommittingPanic && (r[0].Running? ==> Inv(r[0].state))
        && (r[0] == TooBig ==> relog || size <= LOGSIZE)
  {
    if |steps| > 0 {
      RunSafe(size, steps[..|steps| - 1], relog);
      var before, last := Exec(size, INITIAL, steps[..|steps| - 1], relog), steps[|steps| - 1];
      if |before| == 1 && before[0].Running? && Enabled(before[0].state, last, relog) {
        StepKeepsInv(size, before[0].state, last);
        if last.LogWrite? && last.block !in before[0].state.ops[last.op].blocks {
          FirstWriteFits(before[0].state, last.op, last.block);
        }
      }
    }
  }

  /** An operation that still has a block to log finds a free entry. */
  lemma FirstWriteFits(s: State, i: nat, b: nat)
    requires Inv(s) && i < |s.ops| && b !in s.ops[i].blocks && |s.ops[i].blocks + {b}| <= MAXOPBLOCKS
    ensures |s.entries| < LOGSIZE
  {
    UnusedSplit(s.ops, i);
    UnusedBounds(Without(s.ops, i));
  }

  // ----- what the log and the operations hold -----

  /** The blocks logged since the last commit. */
  function LoggedSince(steps: seq<Step>): set<nat> {
    if |steps| == 0 then {}
    else
      var before, last := LoggedSince(steps[..|steps| - 1]), steps[|steps| - 1];
      if last.CommitDone? then {} else if last.LogWrite? then before + {last.block} else before
  }

  lemma EntriesMove(size: nat, s: State, step: Step)
    requires Distinct(s.entries) && Enabled(s, step, true) && Apply(size, s, step).Running?
    ensures var s' := Apply(size, s, step).state;
      && Distinct(s'.entries)
      && Elements(s'.entries) == if step.CommitDone? then {}
                                 else Elements(s.entries) + if step.LogWrite? then {step.block} else {}
  {
  }

  lemma Relax(s: State, step: Step, relog: bool)
    requires Enabled(s, step, relog)
    ensures Enabled(s, step, true)
  {
  }

  /** In every run the log lists the blocks logged since the last commit, each once: absorption
      drops none and keeps none twice. */
  lemma {:induction false} EntriesAre(size: nat, steps: seq<Step>, relog: bool)
    requires |Exec(size, INITIAL, steps, relog)| == 1 && Exec(size, INITIAL, steps, relog)[0].Running?
    ensures var s := Exec(size, INITIAL, steps, relog)[0].state;
      Distinct(s.entries) && Elements(s.entries) == LoggedSince(steps)
  {
    hide Apply, Enabled;
    if |steps| > 0 {
      var before := steps[..|steps| - 1];
      EntriesAre(size, before, relog);
      Relax(Exec(size, INITIAL, before, relog)[0].state, steps[|steps| - 1], relog);
      EntriesMove(size, Exec(size, INITIAL, before, relog)[0].state, steps[|steps| - 1]);
    }
  }

  /** A step leaves the other operations, and what they have logged, as they are. */
  lemma OthersStay(size: nat, s: State, step: Step, k: nat)
    requires Enabled(s, step, true) && Apply(size, s, step).Running? && k < |s.ops|
    ensures var ops := Apply(size, s, step).state.ops;
      match step
      case Begin => |ops| == |s.ops| + 1 && ops[k] == s.ops[k] && ops[|s.ops|].blocks == {}
      case LogWrite(i, b) => |ops| == |s.ops| && ops[k].blocks == s.ops[k].blocks + if k == i then {b} else {}
      case End(i) =>
        |ops| == |s.ops| - 1 && (k < i ==> ops[k] == s.ops[k]) && (k > i ==> ops[k - 1] == s.ops[k])
      case CommitDone => ops == s.ops
  {
  }

  // ----- runs go on -----

  lemma ExecOneMore(size: nat, steps: seq<Step>, last: Step, relog: bool)
    ensures Exec(size, INITIAL, steps + [last], relog) ==
              var before := Exec(size, INITIAL, steps, relog);
              if |before| == 1 && before[0].Running? && Enabled(before[0].state, last, relog)
              then [Apply(size, before[0].state, last)] else []
  {
  }

  predicate Closing(steps: seq<Step>) {
    forall k :: 0 <= k < |steps| ==> steps[k].End? || steps[k].CommitDone?
  }

  lemma {:induction false} CanClose(size: nat, steps: seq<Step>, relog: bool, s: State) returns (more: seq<Step>)
    requires Exec(size, INITIAL, steps, relog) == [Running(s)] && Inv(s)
    ensures Closing(more) && Exec(size, INITIAL, steps + more, relog) == [Running(INITIAL)]
    decreases |s.ops|, s.committing
  {
    hide Unused, Exec;
    if s.ops == [] && !s.committing {
      more := [];
      assert steps + more == steps;
    } else {
      var step := if s.committing then CommitDone else End(0);
      StepKeepsInv(size, s, step);
      ExecOneMore(size, steps, step, relog);
      more := CanClose(size, steps + [step], relog, Apply(size, s, step).state);
      assert steps + ([step] + more) == steps + [step] + more;
      more := [step] + more;
    }
  }

  /** Whatever has happened, short of a panic, once the operations under way have ended and the
      last of them has committed, begin_op lets the next one in to an empty log. */
  lemma NextGetsIn(size: nat, steps: seq<Step>, relog: bool) returns (more: seq<Step>)
    requires |Exec(size, INITIAL, steps, relog)| == 1 && Exec(size, INITIAL, steps, relog)[0].Running?
    ensures Closing(more)
    ensures Exec(size, INITIAL, steps + more + [Begin], relog) == [Running(State([], [Op({}, 0)], false))]
  {
    RunSafe(size, steps, relog);
    more := CanClose(size, steps, relog, Exec(size, INITIAL, steps, relog)[0].state);
    hide Exec;
    ExecOneMore(size, steps + more, Begin, relog);
    assert INITIAL.ops + [Op({}, 0)] == [Op({}, 0)];
  }

  // ----- the runs that do panic -----

  /** Three operations enter; then block k is logged by operation k / 10, for k below m. */
  function FillingSteps(m: nat): seq<Step> {
    if m == 0 then [Begin, Begin, Begin] else FillingSteps(m - 1) + [LogWrite((m - 1) / MAXOPBLOCKS, m - 1)]
  }

  function Clamp(x: int): nat {
    if x < 0 then 0 else if x > MAXOPBLOCKS then MAXOPBLOCKS else x
  }

  function FilledOp(j: nat, m: nat): Op {
    var k := Clamp(m - j * MAXOPBLOCKS);
    Op(Range(j * MAXOPBLOCKS, j * MAXOPBLOCKS + k), k)
  }

  function Filled(m: nat): State {
    State(seq(m, i => i), [FilledOp(0, m), FilledOp(1, m), FilledOp(2, m)], false)
  }

  lemma {:induction false} FillingRun(size: nat, m: nat)
    requires m <= LOGSIZE && (m == 0 || m < size)
    ensures Exec(size, INITIAL, FillingSteps(m), false) == [Running(Filled(m))]
  {
    hide Exec, Range, Clamp, Apply, FilledOp, Filled, Enabled;
    if m == 0 {
      ThreeBegin(size);
    } else {
      FillingRun(size, m - 1);
      ExecOneMore(size, FillingSteps(m - 1), LogWrite((m - 1) / MAXOPBLOCKS, m - 1), false);
      FillStep(size, m - 1);
    }
  }

  lemma FillStep(size: nat, m: nat)
    requires m < LOGSIZE && m + 1 < size
    ensures var step := LogWrite(m / MAXOPBLOCKS, m);
      Enabled(Filled(m), step, false) && Apply(size, Filled(m), step) == Running(Filled(m + 1))
  {
    hide Range, Clamp, FilledOp;
    var s, j := Filled(m), m / MAXOPBLOCKS;
    FillOne(m);
    assert m !in s.entries && s.entries + [m] == Filled(m + 1).entries;
    assert s.ops[j := FilledOp(j, m + 1)] == Filled(m + 1).ops;
  }

  lemma FillOne(m: nat)
    requires m < LOGSIZE
    ensures var j := m / MAXOPBLOCKS;
      && j < 3 && Enabled(Filled(m), LogWrite(j, m), false)
      && FilledOp(j, m + 1) == Op(FilledOp(j, m).blocks + {m}, FilledOp(j, m).added + 1)
      && forall i: nat :: i < 3 && i != j ==> FilledOp(i, m + 1) == FilledOp(i, m)
  {
    hide Range;
    var j := m / MAXOPBLOCKS;
    var op := FilledOp(j, m);
    assert op.blocks + {m} == Range(j * MAXOPBLOCKS, m + 1);
  }

  lemma ThreeBegin(size: nat)
    ensures Exec(size, INITIAL, [Begin, Begin, Begin], false) == [Running(Filled(0))]
  {
    assert [Begin, Begin, Begin] == [] + [Begin] + [Begin] + [Begin];
    ExecOneMore(size, [], Begin, false);
    ExecOneMore(size, [] + [Begin], Begin, false);
    ExecOneMore(size, [] + [Begin] + [Begin], Begin, false);
    assert Filled(0) == State([], [] + [Op({}, 0)] + [Op({}, 0)] + [Op({}, 0)], false);
  }

  /** Runs in which operations log no block twice can panic exactly when the log
      region has no more than LOGSIZE blocks. mkfs makes it LOGSIZE. */
  lemma TooBigReachableIff(size: nat)
    ensures (exists steps :: Exec(size, INITIAL, steps, false) == [TooBig]) <==> size <= LOGSIZE
  {
    hide Exec, Inv;
    if steps :| Exec(size, INITIAL, steps, false) == [TooBig] {
      RunSafe(size, steps, false);
    }
    if size <= LOGSIZE {
      var steps := SmallPanics(size);
      assert Exec(size, INITIAL, steps, false) == [TooBig];
    }
  }

  lemma SmallPanics(size: nat) returns (steps: seq<Step>)
    requires size <= LOGSIZE
    ensures Exec(size, INITIAL, steps, false) == [TooBig]
  {
    hide Exec, FillingSteps, FilledOp;
    var m := if size == 0 then 0 else size - 1;
    steps := FillingSteps(m) + [LogWrite(m / MAXOPBLOCKS, m)];
    FillingRun(size, m);
    FillOne(m);
    ExecOneMore(size, FillingSteps(m), LogWrite(m / MAXOPBLOCKS, m), false);
  }

  /** Logging a block again needs no space, but the check comes before the search
      for the block: with the log full it panics, whatever the region's size. */
  lemma RelogPanics(size: nat)
    ensures exists steps :: Exec(size, INITIAL, steps, true) == [TooBig]
  {
    hide Range, Exec, FillingSteps;
    if size <= LOGSIZE {
      TooBigReachableIff(size);
      var steps :| Exec(size, INITIAL, steps, false) == [TooBig];
      RelogAllows(size, steps);
    } else {
      FillingRun(size, LOGSIZE);
      var steps := FillingSteps(LOGSIZE) + [LogWrite(0, 0)];
      ExecOneMore(size, FillingSteps(LOGSIZE), LogWrite(0, 0), true);
      RelogAllows(size, FillingSteps(LOGSIZE));
      assert Range(0, MAXOPBLOCKS) + {0} == Range(0, MAXOPBLOCKS);
      assert Exec(size, INITIAL, steps, true) == [TooBig];
    }
  }

  lemma {:induction false} RelogAllows(size: nat, steps: seq<Step>)
    requires |Exec(size, INITIAL, steps, false)| == 1
    ensures Exec(size, INITIAL, steps, true) == Exec(size, INITIAL, steps, false)
  {
    if |steps| > 0 {
      RelogAllows(size, steps[..|steps| - 1]);
    }
  }
}
