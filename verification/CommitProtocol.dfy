/**
 Commit among readers. No operation is open while commit runs, but processes
 read: bread and brelse of any home block, logged ones included, may come between
 any two rounds of commit, which waits for a logged block someone has locked. The
 rounds are the ones the class WriteAheadLog takes, on the clients' view.
 */
module CommitProtocol {
  import opened Blocks
  import opened BufferCache
  import opened Collections
  import opened Log
  import opened LogRecovery

  /** The transaction being committed, and the view commit started from, with no locks
      but on blocks that hold something other than the block array. */
  datatype Job = Job(l: Layout, entries: seq<nat>, logical: Image, base: View)

  /** How far commit has come: slots copied, or, the header written on `sealed`, blocks installed. */
  datatype Phase = Copying(k: nat) | Installing(sealed: View, k: nat) | Done

  datatype State = State(v: View, phase: Phase)

  datatype Step =
    | Copy            // a round of write_log
    | Seal            // write_head
    | Install         // a round of install_trans
    | Clear           // the second write_head
    | Acquire(b: nat) // a reader's bread
    | Release(b: nat) // its brelse

  /** What commit finds: the entries hold what was logged and are pinned, no one has a
      block of the log region, and the log on the disk is empty. */
  ghost predicate Startable(l: Layout, entries: seq<nat>, logical: Image, v: View) {
    && Refines(l, entries, logical, v) && EntriesOk(l, entries, |v.disk|) && Distinct(entries)
    && l.FitsOn(v.disk) && |v.disk| < UINT_RANGE && HeaderCount(l, v.disk) == 0
    && (forall b: nat :: b < |v.disk| && b in entries ==> v.mem[b] == logical[b])
    && (forall b: nat :: b < |v.disk| && l.Holds(b) ==> v.refs[b] == 0)
  }

  ghost function JobOf(l: Layout, entries: seq<nat>, logical: Image, v: View): Job
    requires Startable(l, entries, logical, v)
  {
    Job(l, entries, logical,
        v.(locks := seq(|v.disk|, b requires 0 <= b < |v.disk| => !l.Holds(b) && v.mem[b] != logical[b])))
  }

  /** The contents in memory and on the disk, the readers' references and locks aside. */
  function Core(j: Job, v: View): View {
    v.(refs := j.base.refs, locks := j.base.locks)
  }

  ghost predicate Enabled(j: Job, s: State, step: Step) {
    && s.v.Sized() && |s.v.disk| == |j.base.disk| == |j.logical| && JobOk(j)
    && match step
       case Copy => s.phase.Copying? && s.phase.k < |j.entries| && Free(s.v, j.entries[s.phase.k]) && Room(s.v)
       case Seal => s.phase == Copying(|j.entries|) && Room(s.v)
       case Install =>
         s.phase.Installing? && s.phase.k < |j.entries| && Free(s.v, j.entries[s.phase.k])
         && s.v.refs[j.entries[s.phase.k]] > 0 && Room(s.v)
       case Clear => s.phase.Installing? && s.phase.k == |j.entries| && Room(s.v)
       case Acquire(b) =>
         b < |s.v.disk| && !j.l.Holds(b) && Free(s.v, b) && (s.v.refs[b] > 0 || Room(s.v))
       case Release(b) =>
         b < |s.v.disk| && !j.l.Holds(b) && s.v.locks[b] && s.v.refs[b] > 0 && s.v.mem[b] == j.logical[b]
  }

  /** acquiresleep need not wait. */
  predicate Free(v: View, b: nat) {
    b < |v.locks| && !v.locks[b]
  }

  /** bget finds a buffer for one more block. */
  ghost predicate Room(v: View) {
    |Busy(v)| < NBUF
  }

  ghost function Apply(j: Job, s: State, step: Step): State
    requires Enabled(j, s, step)
  {
    var v := s.v;
    match step
    case Copy =>
      var slot := j.l.start + 1 + s.phase.k;
      State(v.Stored(slot, v.mem[j.entries[s.phase.k]]).Written(slot), Copying(s.phase.k + 1))
    case Seal => State(HeadWritten(j.l, j.entries, v), Installing(HeadWritten(j.l, j.entries, Core(j, v)), 0))
    case Install =>
      var slot, home := j.l.start + 1 + s.phase.k, j.entries[s.phase.k];
      State(v.Unpinned(home).Stored(home, v.mem[slot]).Written(home), Installing(s.phase.sealed, s.phase.k + 1))
    case Clear => State(HeadWritten(j.l, [], v), Done)
    case Acquire(b) => State(v.Acquired(b), s.phase)
    case Release(b) => State(v.Released(b), s.phase)
  }

  // ----- what every step keeps -----

  ghost predicate JobOk(j: Job) {
    && Refines(j.l, j.entries, j.logical, j.base) && EntriesOk(j.l, j.entries, |j.base.disk|) && Distinct(j.entries)
    && j.l.FitsOn(j.base.disk) && |j.base.disk| < UINT_RANGE && HeaderCount(j.l, j.base.disk) == 0
    && (forall b: nat :: b < |j.base.disk| && b in j.entries ==> !j.base.locks[b])
  }

  /** The entries whose pins are still there. */
  function Pins(j: Job, phase: Phase): seq<nat> {
    match phase
    case Copying(_) => j.entries
    case Installing(_, k) => if k <= |j.entries| then j.entries[k..] else []
    case Done => []
  }

  /** What readers see is the block array, unless its holder has changed it; the pins not
      yet dropped hold; and the log region is commit's own. */
  ghost predicate Visible(j: Job, v: View, pins: seq<nat>) {
    && v.Sized() && j.base.Sized() && |v.disk| == |j.base.disk| == |j.logical|
    && (forall b: nat :: b < |v.disk| && !j.l.Holds(b) && v.mem[b] != j.logical[b] ==> v.locks[b] && j.base.locks[b])
    && (forall b: nat :: b < |v.disk| && b in pins ==> v.refs[b] >= if v.locks[b] then 2 else 1)
    && (forall b: nat :: b < |v.disk| && j.l.Holds(b) ==> v.refs[b] == 0 && !v.locks[b])
  }

  ghost predicate Written(j: Job, v: View, phase: Phase) {
    match phase
    case Copying(k) => SlotsFilled(j.l, j.entries, j.base, Core(j, v), k)
    case Installing(sealed, k) =>
      && HomesWritten(j.l, j.entries, sealed, Core(j, v), k) && LogClean(j.l, sealed)
      && OnlyEntriesDirty(j.l, j.entries, sealed) && RecoversTo(j.l, sealed.disk, j.logical)
      && sealed.locks == j.base.locks
    case Done =>
      && LogClean(j.l, v) && j.l.FitsOn(v.disk) && HeaderCount(j.l, v.disk) == 0
      && SameHome(j.l, v.disk, j.logical)
  }

  ghost predicate Inv(j: Job, s: State) {
    JobOk(j) && Visible(j, s.v, Pins(j, s.phase)) && Written(j, s.v, s.phase)
  }

  lemma StartInv(l: Layout, entries: seq<nat>, logical: Image, v: View)
    requires Startable(l, entries, logical, v)
    ensures Inv(JobOf(l, entries, logical, v), State(v, Copying(0)))
  {
  }

  /** Readers do not see writes to the log region. */
  lemma VisibleLog(j: Job, v: View, pins: seq<nat>, b: nat, data: Block)
    requires Visible(j, v, pins) && j.l.Holds(b) && b < |v.disk|
    ensures Visible(j, v.Stored(b, data).Written(b), pins)
  {
  }

  lemma CopyKeepsInv(j: Job, s: State)
    requires Inv(j, s) && Enabled(j, s, Copy)
    ensures Inv(j, Apply(j, s, Copy))
  {
    hide SlotsFilled, Refines, Visible, Distinct;
    var k := s.phase.k;
    var slot := j.l.start + 1 + k;
    VisibleLog(j, s.v, j.entries, slot, s.v.mem[j.entries[k]]);
    SlotFilled(j.l, j.entries, j.base, Core(j, s.v), k);
    assert Core(j, Apply(j, s, Copy).v) == Core(j, s.v).Stored(slot, s.v.mem[j.entries[k]]).Written(slot);
  }

  lemma SealedCore(j: Job, v: View)
    requires JobOk(j) && v.Sized() && |v.disk| == |j.base.disk|
    requires SlotsFilled(j.l, j.entries, j.base, Core(j, v), |j.entries|)
    ensures Written(j, HeadWritten(j.l, j.entries, v), Installing(HeadWritten(j.l, j.entries, Core(j, v)), 0))
  {
    hide HeaderOf, ValidHeader, HeaderIs, RecoversTo;
    Sealed(j.l, j.entries, j.logical, j.base, Core(j, v));
    assert j.l.Holds(j.l.start) && j.entries[..0] == [];
  }

  lemma WrittenMeans(j: Job, v: View)
    ensures Written(j, v, Copying(|j.entries|)) ==> SlotsFilled(j.l, j.entries, j.base, Core(j, v), |j.entries|)
  {
  }

  lemma SealKeepsInv(j: Job, s: State)
    requires Inv(j, s) && Enabled(j, s, Seal)
    ensures Inv(j, Apply(j, s, Seal))
  {
    hide HeaderOf, Refines, SlotsFilled, Visible, Written, Distinct, EntriesOk, ValidHeader, HeaderIs;
    JobFits(j);
    WrittenMeans(j, s.v);
    SealedCore(j, s.v);
    VisibleLog(j, s.v, j.entries, j.l.start, HeaderOf(s.v.disk[j.l.start], j.entries, |j.entries|));
    assert j.entries[0..] == j.entries;
  }

  lemma InstallKeepsInv(j: Job, s: State)
    requires Inv(j, s) && Enabled(j, s, Install)
    ensures Inv(j, Apply(j, s, Install))
  {
    hide Written, Visible, Enabled, JobOk, Apply, Pins;
    InstallWritten(j, s);
    InstallVisible(j, s);
  }

  lemma InstallWritten(j: Job, s: State)
    requires Inv(j, s) && Enabled(j, s, Install)
    ensures var s' := Apply(j, s, Install); Written(j, s'.v, s'.phase)
  {
    hide HomesWritten, JobOk, RecoversTo, OnlyEntriesDirty, Visible;
    var k := s.phase.k;
    JobFits(j);
    HomeWritten(j.l, j.entries, s.phase.sealed, Core(j, s.v), j.base.refs, k);
    assert Core(j, Apply(j, s, Install).v)
      == Core(j, s.v).Stored(j.entries[k], s.v.mem[j.l.start + 1 + k]).Written(j.entries[k]);
  }

  lemma JobFits(j: Job)
    requires JobOk(j)
    ensures j.base.Sized() && j.l.FitsOn(j.base.disk) && EntriesOk(j.l, j.entries, |j.base.disk|)
  {
  }

  lemma InstallVisible(j: Job, s: State)
    requires Inv(j, s) && Enabled(j, s, Install)
    ensures var s' := Apply(j, s, Install); Visible(j, s'.v, Pins(j, s'.phase))
  {
    hide Visible, HomesWritten, Refines, LogClean, OnlyEntriesDirty, RecoversTo, Distinct, EntriesOk;
    SlotHolds(j, s.v, s.phase.sealed, s.phase.k);
    VisibleInstalled(j, s.v, s.phase.k);
  }

  lemma VisibleInstalled(j: Job, v: View, k: nat)
    requires k < |j.entries| && Visible(j, v, j.entries[k..]) && EntriesOk(j.l, j.entries, |j.base.disk|)
    requires Distinct(j.entries)
    ensures var home := j.entries[k];
      v.refs[home] > 0 && Visible(j, v.Unpinned(home).Stored(home, j.logical[home]).Written(home), j.entries[k + 1..])
  {
    var home := j.entries[k];
    assert home in j.entries[k..] && !j.l.Holds(home);
    forall b | b in j.entries[k + 1..] ensures b != home && b in j.entries[k..] {
      LaterEntry(j.entries, k, b);
    }
  }

  lemma LaterEntry(entries: seq<nat>, k: nat, b: nat)
    requires Distinct(entries) && k < |entries| && b in entries[k + 1..]
    ensures b != entries[k] && b in entries[k..]
  {
    var i :| 0 <= i < |entries[k + 1..]| && entries[k + 1..][i] == b;
    assert entries[k + 1 + i] == b && entries[k..][i + 1] == b;
  }

  /** The slot still has what was logged for its entry. */
  lemma SlotHolds(j: Job, v: View, sealed: View, k: nat)
    requires JobOk(j) && HomesWritten(j.l, j.entries, sealed, Core(j, v), k) && LogClean(j.l, sealed)
    requires k < |j.entries| && RecoversTo(j.l, sealed.disk, j.logical) && |v.disk| == |j.base.disk| == |j.logical|
    ensures j.l.start + 1 + k < |v.mem| && v.mem[j.l.start + 1 + k] == j.logical[j.entries[k]]
  {
    hide Refines, RecoversTo, HomesWritten, ValidHeader, HeaderIs, Distinct;
    SlotKept(j, v, sealed, k);
    SlotNames(j.l, sealed.disk, j.entries, j.logical, k);
  }

  lemma SlotKept(j: Job, v: View, sealed: View, k: nat)
    requires HomesWritten(j.l, j.entries, sealed, Core(j, v), k) && LogClean(j.l, sealed) && k < |j.entries|
    requires EntriesOk(j.l, j.entries, |j.base.disk|) && |v.disk| == |j.base.disk|
    ensures HeaderIs(j.l, sealed.disk, j.entries) && j.l.start + 1 + k < |sealed.disk| == |v.mem| == |v.disk|
    ensures v.mem[j.l.start + 1 + k] == sealed.disk[j.l.start + 1 + k]
  {
    hide Installed;
    var slot := j.l.start + 1 + k;
    assert j.l.Holds(slot) && slot !in j.entries[..k];
  }

  lemma SlotNames(l: Layout, d: Image, entries: seq<nat>, logical: Image, k: nat)
    requires HeaderIs(l, d, entries) && Distinct(entries) && RecoversTo(l, d, logical) && k < |entries|
    requires EntriesOk(l, entries, |d|)
    ensures l.start + 1 + k < |d| == |logical| && d[l.start + 1 + k] == logical[entries[k]]
  {
    EntriesNamed(l, d, entries);
    InstalledLast(l, d, |entries|, k);
    assert Recover(l, d)[entries[k]] == logical[entries[k]];
  }

  lemma EntriesNamed(l: Layout, d: Image, entries: seq<nat>)
    requires HeaderIs(l, d, entries) && Distinct(entries)
    ensures forall i: nat :: i < |entries| ==> HeaderEntry(l, d, i) == entries[i]
    ensures forall i: nat, k: nat :: k < i < |entries| ==> HeaderEntry(l, d, i) != HeaderEntry(l, d, k)
  {
  }

  /** Distinct entries each end up with their own slot's contents. */
  lemma {:induction false} InstalledLast(l: Layout, d: Image, n: nat, k: nat)
    requires ValidHeader(l, d) && k < n <= HeaderCount(l, d)
    requires forall i: nat :: k < i < n ==> HeaderEntry(l, d, i) != HeaderEntry(l, d, k)
    ensures Installed(l, d, n)[HeaderEntry(l, d, k)] == d[l.start + 1 + k]
  {
    if k < n - 1 {
      InstalledLast(l, d, n - 1, k);
    }
  }

  lemma ClearKeepsInv(j: Job, s: State)
    requires Inv(j, s) && Enabled(j, s, Clear)
    ensures Inv(j, Apply(j, s, Clear))
  {
    hide HeaderOf, HomesWritten, Refines, RecoversTo;
    InstalledClean(j.l, j.entries, j.logical, s.phase.sealed, Core(j, s.v));
    assert j.l.Holds(j.l.start);
  }

  lemma ReaderKeepsInv(j: Job, s: State, step: Step)
    requires Inv(j, s) && Enabled(j, s, step) && (step.Acquire? || step.Release?)
    ensures Inv(j, Apply(j, s, step))
  {
    hide SlotsFilled, HomesWritten, Refines, RecoversTo;
    assert Core(j, Apply(j, s, step).v) == Core(j, s.v);
  }

  lemma StepKeepsInv(j: Job, s: State, step: Step)
    requires Inv(j, s) && Enabled(j, s, step)
    ensures Inv(j, Apply(j, s, step))
  {
    hide Inv, Enabled, Apply;
    match step
    case Copy => CopyKeepsInv(j, s);
    case Seal => SealKeepsInv(j, s);
    case Install => InstallKeepsInv(j, s);
    case Clear => ClearKeepsInv(j, s);
    case Acquire(_) => ReaderKeepsInv(j, s, step);
    case Release(_) => ReaderKeepsInv(j, s, step);
  }

  // ----- every interleaving -----

  datatype Run = Begin | Then(before: Run, step: Step)

  ghost predicate Legal(j: Job, s: State, run: Run)
    decreases run, 0
  {
    run.Begin? || (Legal(j, s, run.before) && Enabled(j, Exec(j, s, run.before), run.step))
  }

  ghost function Exec(j: Job, s: State, run: Run): State
    requires Legal(j, s, run)
    decreases run, 1
  {
    if run.Begin? then s else Apply(j, Exec(j, s, run.before), run.step)
  }

  lemma {:induction false} RunKeepsInv(j: Job, s: State, run: Run)
    requires Inv(j, s) && Legal(j, s, run)
    ensures Inv(j, Exec(j, s, run))
  {
    hide Inv, Enabled, Apply;
    if run.Then? {
      RunKeepsInv(j, s, run.before);
      StepKeepsInv(j, Exec(j, s, run.before), run.step);
    }
  }

  /** Whatever readers do between commit's rounds: every image the disk holds before the
      header write recovers to what it held at the start, every one from then on to the
      block array; a reader that gets a block finds the block array's contents; and when
      commit is done the cache is the block array with an empty log. */
  lemma RunSafe(l: Layout, entries: seq<nat>, logical: Image, v: View, run: Run)
    requires Startable(l, entries, logical, v)
    requires Legal(JobOf(l, entries, logical, v), State(v, Copying(0)), run)
    ensures var s := Exec(JobOf(l, entries, logical, v), State(v, Copying(0)), run);
      && s.v.Sized() && |s.v.disk| == |v.disk| == |logical|
      && RecoversTo(l, s.v.disk, if s.phase.Copying? then v.disk else logical)
      && (forall b: nat :: b < |v.disk| && !l.Holds(b) && !s.v.locks[b] ==> s.v.mem[b] == logical[b])
      && (s.phase.Done? ==>
            Refines(l, [], logical, s.v) && HeaderCount(l, s.v.disk) == 0 && SameHome(l, s.v.disk, logical))
  {
    hide Exec, Startable, Inv, Enabled, Room;
    var j, s0 := JobOf(l, entries, logical, v), State(v, Copying(0));
    StartInv(l, entries, logical, v);
    RunKeepsInv(j, s0, run);
    InvMeans(j, Exec(j, s0, run));
  }

  lemma InvMeans(j: Job, s: State)
    requires Inv(j, s)
    ensures s.v.Sized() && |s.v.disk| == |j.base.disk| == |j.logical|
    ensures RecoversTo(j.l, s.v.disk, if s.phase.Copying? then j.base.disk else j.logical)
    ensures forall b: nat :: b < |s.v.disk| && !j.l.Holds(b) && !s.v.locks[b] ==> s.v.mem[b] == j.logical[b]
    ensures s.phase.Done? ==> Refines(j.l, [], j.logical, s.v) && HeaderCount(j.l, s.v.disk) == 0
    ensures s.phase.Done? ==> SameHome(j.l, s.v.disk, j.logical)
  {
    match s.phase
    case Copying(k) => CrashBeforeHeader(j.l, j.entries, j.base, Core(j, s.v), k);
    case Installing(sealed, k) => CrashAfterHeader(j.l, j.entries, sealed, Core(j, s.v), k);
    case Done => EmptyLogRecovers(j.l, s.v.disk);
  }

  /** Commit waits for nothing but a buffer to get free and a reader to let go. */
  lemma OnlyWaits(l: Layout, entries: seq<nat>, logical: Image, v: View, run: Run)
    requires Startable(l, entries, logical, v)
    requires Legal(JobOf(l, entries, logical, v), State(v, Copying(0)), run)
    ensures var j := JobOf(l, entries, logical, v);
      var s := Exec(j, State(v, Copying(0)), run);
      || s.phase.Done? || !Room(s.v)
      || (exists step: Step :: (step.Copy? || step.Seal? || step.Install? || step.Clear?) && Enabled(j, s, step))
      || (exists b :: b in entries && Enabled(j, s, Release(b)))
  {
    hide Exec, Startable, Inv, Enabled, Room;
    var j, s0 := JobOf(l, entries, logical, v), State(v, Copying(0));
    StartInv(l, entries, logical, v);
    RunKeepsInv(j, s0, run);
    if !Exec(j, s0, run).phase.Done? && Room(Exec(j, s0, run).v) {
      NextStep(j, Exec(j, s0, run));
    }
  }

  lemma NextStep(j: Job, s: State)
    requires Inv(j, s) && !s.phase.Done? && Room(s.v)
    ensures || (exists step: Step :: (step.Copy? || step.Seal? || step.Install? || step.Clear?) && Enabled(j, s, step))
            || (exists b :: b in j.entries && Enabled(j, s, Release(b)))
  {
    var k, n := s.phase.k, |j.entries|;
    assert k <= n;
    if k == n {
      assert Enabled(j, s, if s.phase.Copying? then Seal else Clear);
    } else {
      var b := j.entries[k];
      assert b in Pins(j, s.phase);
      if s.v.locks[b] {
        assert Enabled(j, s, Release(b));
      } else {
        assert Enabled(j, s, if s.phase.Copying? then Copy else Install);
      }
    }
  }
}
