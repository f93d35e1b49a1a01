/**
 Commit among readers: what a reader has while it holds a block, that commit can
 always finish once the readers of logged blocks let go, and that the steps of the
 protocol are what the methods of the cache and the log do.
 */
module CommitProgress {
  import opened Blocks
  import opened BufferCache
  import opened Collections
  import opened CommitProtocol
  import opened Log
  import opened LogRecovery

  // ----- a reader's hold -----

  /** `run` has no brelse of block b. */
  predicate Keeps(run: Run, b: nat) {
    run.Begin? || (Keeps(run.before, b) && run.step != Release(b))
  }

  lemma HeldStep(j: Job, s: State, b: nat, step: Step)
    requires Inv(j, s) && b < |s.v.disk| && !j.l.Holds(b) && s.v.locks[b] && Enabled(j, s, step) && step != Release(b)
    ensures var s' := Apply(j, s, step);
      && s'.v.Sized() && |s'.v.disk| == |s.v.disk| && s'.v.locks[b]
      && s'.v.refs[b] == s.v.refs[b] && s'.v.mem[b] == s.v.mem[b] && s'.v.disk[b] == s.v.disk[b]
  {
    hide Written, Refines, HeaderOf, Distinct;
  }

  /** From its bread until its brelse a reader of block b alone has it: the reference and the lock
      stay, the contents in memory and on the disk do too, and neither another bread nor
      commit's own rounds get the block. */
  lemma {:induction false} ReaderAlone(j: Job, s: State, b: nat, run: Run)
    requires Inv(j, s) && Enabled(j, s, Acquire(b)) && Legal(j, Apply(j, s, Acquire(b)), run) && Keeps(run, b)
    ensures var s' := Exec(j, Apply(j, s, Acquire(b)), run);
      && s'.v.Sized() && |s'.v.disk| == |s.v.disk| && s'.v.locks[b]
      && s'.v.refs[b] == s.v.refs[b] + 1 && s'.v.mem[b] == j.logical[b] && s'.v.disk[b] == s.v.disk[b]
      && !Enabled(j, s', Acquire(b))
      && (s'.phase.Copying? && s'.phase.k < |j.entries| && j.entries[s'.phase.k] == b ==> !Enabled(j, s', Copy))
      && (s'.phase.Installing? && s'.phase.k < |j.entries| && j.entries[s'.phase.k] == b ==> !Enabled(j, s', Install))
  {
    hide Inv, Written;
    var s1 := Apply(j, s, Acquire(b));
    if run.Begin? {
      InvMeans(j, s);
    } else {
      ReaderAlone(j, s, b, run.before);
      ReaderKeepsInv(j, s, Acquire(b));
      RunKeepsInv(j, s1, run.before);
      HeldStep(j, Exec(j, s1, run.before), b, run.step);
    }
  }

  /** brelse leaves the block as the reader found it: unlocked, and with the references it had. */
  lemma ReaderLeaves(j: Job, s: State, b: nat, run: Run)
    requires Inv(j, s) && Enabled(j, s, Acquire(b)) && Legal(j, Apply(j, s, Acquire(b)), run) && Keeps(run, b)
    ensures var s' := Exec(j, Apply(j, s, Acquire(b)), run);
      && Enabled(j, s', Release(b))
      && var s'' := Apply(j, s', Release(b));
         s'' == s'.(v := s'.v.(refs := s'.v.refs[b := s.v.refs[b]], locks := s'.v.locks[b := false]))
  {
    ReaderAlone(j, s, b, run);
    ReaderKeepsInv(j, s, Acquire(b));
    RunKeepsInv(j, Apply(j, s, Acquire(b)), run);
  }

  // ----- commit can finish -----

  /** A round of commit, or the brelse of a logged block. */
  predicate Finishing(j: Job, step: Step) {
    step.Copy? || step.Seal? || step.Install? || step.Clear? || (step.Release? && step.b in j.entries)
  }

  predicate Extends(j: Job, run: Run, more: Run) {
    more == run || (more.Then? && Finishing(j, more.step) && Extends(j, run, more.before))
  }

  /** The rounds commit has yet to take. */
  function RoundsLeft(j: Job, phase: Phase): nat {
    match phase
    case Copying(k) => 2 + |j.entries| + if k < |j.entries| then |j.entries| - k else 0
    case Installing(_, k) => 1 + if k < |j.entries| then |j.entries| - k else 0
    case Done => 0
  }

  /** Whether its next round has to wait for a reader. */
  ghost predicate Blocked(j: Job, s: State) {
    !s.phase.Done? && s.phase.k < |j.entries| && j.entries[s.phase.k] < |s.v.locks| && s.v.locks[j.entries[s.phase.k]]
  }

  lemma PhaseFits(j: Job, s: State)
    requires Inv(j, s) && !s.phase.Done?
    ensures s.phase.k <= |j.entries|
  {
  }

  lemma Advances(j: Job, s: State) returns (step: Step)
    requires Inv(j, s) && !s.phase.Done? && Room(s.v)
    ensures Finishing(j, step) && Enabled(j, s, step) && (step.Release? <==> Blocked(j, s))
    ensures var s' := Apply(j, s, step);
      && (if Blocked(j, s) then s'.phase == s.phase && !Blocked(j, s')
          else RoundsLeft(j, s'.phase) < RoundsLeft(j, s.phase))
      && (forall b: nat :: b < |s.v.refs| ==> |s'.v.refs| == |s.v.refs| && s'.v.refs[b] <= s.v.refs[b])
      && |s'.v.refs| == |s.v.refs|
  {
    hide Written, Refines, HeaderOf, Distinct;
    PhaseFits(j, s);
    var k, n := s.phase.k, |j.entries|;
    if k == n {
      step := if s.phase.Copying? then Seal else Clear;
    } else {
      var b := j.entries[k];
      assert b in Pins(j, s.phase);
      step := if s.v.locks[b] then Release(b) else if s.phase.Copying? then Copy else Install;
    }
  }

  lemma RoomStays(v: View, v': View)
    requires Room(v) && |v'.refs| == |v.refs| && forall b: nat :: b < |v.refs| ==> v'.refs[b] <= v.refs[b]
    ensures Room(v')
  {
    SubsetSize(Busy(v'), Busy(v));
  }

  lemma {:induction false} CanFinish(j: Job, s: State, run: Run) returns (more: Run)
    requires Inv(j, s) && Legal(j, s, run) && Room(Exec(j, s, run).v)
    ensures Extends(j, run, more) && Legal(j, s, more) && Exec(j, s, more).phase.Done?
    decreases RoundsLeft(j, Exec(j, s, run).phase), if Blocked(j, Exec(j, s, run)) then 1 else 0
  {
    hide Inv, Room, Enabled, Apply, Finishing;
    var s1 := Exec(j, s, run);
    if s1.phase.Done? {
      more := run;
    } else {
      RunKeepsInv(j, s, run);
      var step := Advances(j, s1);
      RoomStays(s1.v, Apply(j, s1, step).v);
      more := CanFinish(j, s, Then(run, step));
      ExtendsMore(j, run, step, more);
    }
  }

  lemma {:induction false} ExtendsMore(j: Job, run: Run, step: Step, more: Run)
    requires Extends(j, Then(run, step), more) && Finishing(j, step)
    ensures Extends(j, run, more)
  {
    if more != Then(run, step) {
      ExtendsMore(j, run, step, more.before);
    }
  }

  /** In any state of any run where bget can find a buffer, commit has a way to its end: its own
      rounds, and the brelse of readers that hold the logged blocks it waits for. No
      other reader need do anything. */
  lemma CommitFinishes(l: Layout, entries: seq<nat>, logical: Image, v: View, run: Run) returns (more: Run)
    requires Startable(l, entries, logical, v)
    requires Legal(JobOf(l, entries, logical, v), State(v, Copying(0)), run)
    requires Room(Exec(JobOf(l, entries, logical, v), State(v, Copying(0)), run).v)
    ensures var j, s0 := JobOf(l, entries, logical, v), State(v, Copying(0));
      && Extends(j, run, more) && Legal(j, s0, more) && Exec(j, s0, more).phase.Done?
      && Refines(l, [], logical, Exec(j, s0, more).v) && SameHome(l, Exec(j, s0, more).v.disk, logical)
  {
    hide Exec, Startable, Inv, Enabled, Room;
    StartInv(l, entries, logical, v);
    more := CanFinish(JobOf(l, entries, logical, v), State(v, Copying(0)), run);
    RunSafe(l, entries, logical, v, more);
  }

  // ----- the steps are the methods' -----

  lemma NotInstalled(j: Job, sealed: View, v: View, k: nat, b: nat)
    requires HomesWritten(j.l, j.entries, sealed, v, k) && RecoversTo(j.l, sealed.disk, j.logical)
    requires b < |v.disk| && !j.l.Holds(b) && b !in j.entries
    ensures b < |j.logical| && v.disk[b] == j.logical[b]
  {
    hide Installed;
    Elsewhere(j.l, sealed.disk, j.entries, k, b);
    Elsewhere(j.l, sealed.disk, j.entries, |j.entries|, b);
  }

  lemma Elsewhere(l: Layout, d: Image, entries: seq<nat>, k: nat, b: nat)
    requires HeaderIs(l, d, entries) && ValidHeader(l, d) && k <= |entries| && b < |d| && b !in entries
    ensures Installed(l, d, k)[b] == d[b]
  {
    forall i: nat | i < k ensures HeaderEntry(l, d, i) != b {
      assert HeaderEntry(l, d, i) == entries[i];
    }
    InstalledFrame(l, d, k, b);
  }

  /** A block no longer pinned whose contents are the block array's is on the disk. */
  lemma OnDiskToo(j: Job, s: State, b: nat)
    requires Inv(j, s) && b < |s.v.disk| && !j.l.Holds(b) && s.v.mem[b] == j.logical[b] && b !in Pins(j, s.phase)
    ensures s.v.disk[b] == j.logical[b]
  {
    hide Refines, SlotsFilled, HomesWritten, RecoversTo, SameHome;
    match s.phase
    case Copying(k) =>
      NotLogged(j, Core(j, s.v), k, b);
    case Installing(sealed, k) =>
      PhaseFits(j, s);
      assert j.entries == j.entries[..k] + j.entries[k..];
      if b in j.entries[..k] {
        HomeInstalled(j, sealed, Core(j, s.v), k, b);
      } else {
        NotInstalled(j, sealed, Core(j, s.v), k, b);
      }
    case Done =>
      assert SameHome(j.l, s.v.disk, j.logical);
      HomeSame(j.l, s.v.disk, j.logical, b);
  }

  lemma HomeSame(l: Layout, d: Image, e: Image, b: nat)
    requires SameHome(l, d, e) && b < |d| && !l.Holds(b)
    ensures b < |e| && d[b] == e[b]
  {
  }

  lemma NotLogged(j: Job, v: View, k: nat, b: nat)
    requires JobOk(j) && SlotsFilled(j.l, j.entries, j.base, v, k) && b < |v.disk| && !j.l.Holds(b) && b !in j.entries
    ensures b < |j.logical| && v.disk[b] == j.logical[b]
  {
  }

  lemma HomeInstalled(j: Job, sealed: View, v: View, k: nat, b: nat)
    requires HomesWritten(j.l, j.entries, sealed, v, k) && b < |v.disk| && b in j.entries[..k]
    ensures v.mem[b] == v.disk[b]
  {
  }

  /** The log is where the protocol is in state s. */
  ghost predicate Runs(log: WriteAheadLog, j: Job, s: State)
    reads log, log.block, log.cache, log.cache.disk, log.cache.bufs, log.cache.next, log.cache.prev
  {
    && log.Wired() && log.layout == j.l && log.cache.View() == s.v && Inv(j, s)
    && (!s.phase.Done? ==> log.Entries() == j.entries)
  }

  /** A reader's bread: it takes the step and finds the block array's contents. */
  method Read(log: WriteAheadLog, ghost j: Job, ghost s: State, b: nat) returns (i: nat)
    requires Runs(log, j, s) && Enabled(j, s, Acquire(b))
    modifies log.cache.bufs
    ensures Runs(log, j, Apply(j, s, Acquire(b))) && log.cache.Holding(i, b) && log.cache.bufs[i].data == j.logical[b]
  {
    hide Inv, Visible, Written, JobOk;
    Obtainable(log, j, s, b);
    ReaderKeepsInv(j, s, Acquire(b));
    InvMeans(j, s);
    i := log.cache.Read(b);
    log.cache.HeldView(i, b);
  }

  lemma Obtainable(log: WriteAheadLog, j: Job, s: State, b: nat)
    requires Runs(log, j, s) && b < |s.v.disk| && (s.v.refs[b] > 0 || Room(s.v))
    ensures log.cache.CanGet(b)
  {
    hide Inv;
    log.CommitFits(b);
  }

  /** Its brelse. */
  method Leave(log: WriteAheadLog, ghost j: Job, ghost s: State, i: nat, ghost b: nat)
    requires Runs(log, j, s) && Enabled(j, s, Release(b)) && log.cache.Holding(i, b)
    modifies log.cache, log.cache.bufs, log.cache.next, log.cache.prev
    ensures Runs(log, j, Apply(j, s, Release(b)))
  {
    hide Inv, ViewOf, Linked, Coherent, EntriesOk;
    ReaderKeepsInv(j, s, Release(b));
    MayLeave(j, s, b);
    log.cache.Release(i, b);
  }

  lemma MayLeave(j: Job, s: State, b: nat)
    requires Inv(j, s) && Enabled(j, s, Release(b))
    ensures s.v.mem[b] == s.v.disk[b] || s.v.refs[b] > 1
  {
    if b !in Pins(j, s.phase) {
      OnDiskToo(j, s, b);
    }
  }

  lemma CopyMeans(j: Job, s: State)
    requires Inv(j, s) && Enabled(j, s, Copy)
    ensures s.phase.Copying? && s.phase.k < |j.entries| && s.v.Sized()
    ensures var slot, home := j.l.start + 1 + s.phase.k, j.entries[s.phase.k];
      && slot < |s.v.disk| && home < |s.v.disk| && slot != home && Room(s.v)
      && s.v.refs[slot] == 0 && s.v.refs[home] > 0 && !s.v.locks[slot] && !s.v.locks[home]
      && Apply(j, s, Copy).v == s.v.Stored(slot, s.v.mem[home]).Written(slot) && !Apply(j, s, Copy).phase.Done?
  {
    hide Refines, SlotsFilled, HomesWritten;
    var slot := j.l.start + 1 + s.phase.k;
    assert j.l.Holds(slot) && j.entries[s.phase.k] in j.entries;
  }

  /** A round of write_log. */
  method CopyRound(log: WriteAheadLog, ghost j: Job, ghost s: State, k: nat)
    requires Runs(log, j, s) && Enabled(j, s, Copy) && s.phase == Copying(k)
    modifies log.cache, log.cache.disk, log.cache.bufs, log.cache.next, log.cache.prev
    ensures Runs(log, j, Apply(j, s, Copy))
  {
    hide Inv, Apply, Room, ViewOf, Linked, Coherent, Enabled, EntriesOk;
    CopyMeans(j, s);
    CopyKeepsInv(j, s);
    var slot, home := log.layout.start + 1 + k, log.block[k];
    Obtainable(log, j, s, slot);
    log.CopyToSlot(slot, home);
  }

  lemma InstallMeans(j: Job, s: State)
    requires Inv(j, s) && Enabled(j, s, Install)
    ensures s.phase.Installing? && s.phase.k < |j.entries| && s.v.Sized()
    ensures var slot, home := j.l.start + 1 + s.phase.k, j.entries[s.phase.k];
      && slot < |s.v.disk| && home < |s.v.disk| && slot != home && Room(s.v) && s.v.mem[slot] == s.v.disk[slot]
      && s.v.refs[slot] == 0 && s.v.refs[home] > 0 && !s.v.locks[slot] && !s.v.locks[home]
      && Apply(j, s, Install).v == s.v.Unpinned(home).Stored(home, s.v.mem[slot]).Written(home)
      && !Apply(j, s, Install).phase.Done?
  {
    hide Refines, SlotsFilled, HomesWritten, ValidHeader, RecoversTo;
    var slot := j.l.start + 1 + s.phase.k;
    assert j.l.Holds(slot) && j.entries[s.phase.k] in j.entries[s.phase.k..];
    HomeWritten(j.l, j.entries, s.phase.sealed, Core(j, s.v), j.base.refs, s.phase.k);
  }

  /** A round of install_trans. */
  method InstallRound(log: WriteAheadLog, ghost j: Job, ghost s: State, k: nat)
    requires Runs(log, j, s) && Enabled(j, s, Install) && s.phase.Installing? && s.phase.k == k
    modifies log.cache, log.cache.disk, log.cache.bufs, log.cache.next, log.cache.prev
    ensures Runs(log, j, Apply(j, s, Install))
  {
    hide Inv, Apply, Room, ViewOf, Linked, Coherent, Enabled, EntriesOk;
    InstallMeans(j, s);
    InstallKeepsInv(j, s);
    var slot, home := log.layout.start + 1 + k, log.block[k];
    Obtainable(log, j, s, slot);
    log.CopyHome(slot, home, false, Busy(s.v));
  }

  lemma JobClean(j: Job)
    requires JobOk(j)
    ensures LogClean(j.l, j.base)
  {
  }

  lemma HeadMeans(j: Job, s: State, step: Step)
    requires Inv(j, s) && Enabled(j, s, step) && (step.Seal? || step.Clear?)
    ensures !s.phase.Done? && s.v.Sized()
    ensures var h := j.l.start;
      h < |s.v.disk| && Room(s.v) && s.v.mem[h] == s.v.disk[h] && s.v.refs[h] == 0 && !s.v.locks[h]
    ensures j.l.FitsOn(s.v.disk) && |s.v.disk| < UINT_RANGE && EntriesOk(j.l, j.entries, |s.v.disk|)
    ensures Apply(j, s, step).v == HeadWritten(j.l, if step.Seal? then j.entries else [], s.v)
    ensures Apply(j, s, step).phase.Done? <==> step.Clear?
  {
    hide Refines, RecoversTo, HeaderOf, Distinct;
    assert j.l.Holds(j.l.start);
    if step.Clear? {
      InstalledClean(j.l, j.entries, j.logical, s.phase.sealed, Core(j, s.v));
      hide HomesWritten;
    } else {
      JobClean(j);
    }
  }

  /** write_head, and the second one, of a header without entries. */
  method HeadRound(log: WriteAheadLog, ghost j: Job, ghost s: State, clear: bool)
    requires Runs(log, j, s) && Enabled(j, s, if clear then Clear else Seal)
    modifies log`n, log.cache, log.cache.disk, log.cache.bufs, log.cache.next, log.cache.prev
    ensures Runs(log, j, Apply(j, s, if clear then Clear else Seal))
  {
    ghost var step := if clear then Clear else Seal;
    hide Inv, Apply, Room, ViewOf, Linked, Coherent, HeadWritten, Enabled, HeaderOf;
    HeadMeans(j, s, step);
    StepKeepsInv(j, s, step);
    Obtainable(log, j, s, log.layout.start);
    if clear {
      log.n := 0;
      assert log.Entries() == [];
    }
    log.WriteHead();
  }

  /** ReadBlock and ReleaseBlock, on a log about to commit, are the steps of a reader. */
  method ReadAtStart(log: WriteAheadLog, ghost j: Job, ghost s: State, b: nat) returns (data: Block)
    requires log.Valid() && Startable(log.layout, log.Entries(), log.logical, log.cache.View())
    requires j == JobOf(log.layout, log.Entries(), log.logical, log.cache.View())
    requires s == State(log.cache.View(), Copying(0)) && Enabled(j, s, Acquire(b))
    modifies log.cache, log.cache.bufs, log.cache.next, log.cache.prev
    ensures Runs(log, j, s) && log.Valid() && data == log.logical[b]
    ensures var s1 := Apply(j, s, Acquire(b)); Enabled(j, s1, Release(b)) && Apply(j, s1, Release(b)) == s
  {
    hide Startable, Inv, ViewOf, Linked, Coherent, Refines, Log.Recoverable, HeaderCount;
    StartInv(log.layout, log.Entries(), log.logical, log.cache.View());
    Obtainable(log, j, s, b);
    ReaderLeaves(j, s, b, Begin);
    var i := log.ReadBlock(b);
    data := log.cache.bufs[i].data;
    log.ReleaseBlock(i, b);
    assert Apply(j, Apply(j, s, Acquire(b)), Release(b)) == s by {
      assert s.v.refs[b := s.v.refs[b] + 1][b := s.v.refs[b]] == s.v.refs;
      assert s.v.locks[b := true][b := false] == s.v.locks;
    }
  }
}
