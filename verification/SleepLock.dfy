/**
 Sleep locks over sleep and wakeup: any number of processes take and release
 one sleep lock, each statement that touches shared state being a step, and
 steps of different processes interleaving in any order. The environment may
 lock any process and, as kill does, make it runnable.
 */
module SleepLock {

  /** Where a process is, named for what it does next. Those from Test on hold
      the inner spinlock, except where said otherwise. */
  datatype Pc =
    | Idle              // not using the lock
    | Want              // acquire(&lk->lk), first or after sleeping
    | Test              // while (lk->locked)
    | LockSelf          // in sleep: acquire(&p->lock)
    | Unlock            // in sleep: release(lk); p->lock is held too
    | GoToSleep         // chan and state set; only p->lock is held
    | Switch            // sched(); only p->lock is held
    | Off               // not running
    | Tidy              // back from sched with p->lock only
    | Leave             // locked and pid are set: release(&lk->lk)
    | Holding           // has the sleep lock; no spinlock is held
    | WantRelease       // acquire(&lk->lk); no spinlock is held
    | Clear             // locked = 0, pid = 0
    | Scan(i: nat)      // in wakeup: on to process i, or release when there is none
    | Check(i: nat)     // in wakeup: look at process i, whose lock is held too

  datatype Owner = Nobody | Proc(p: nat) | Other

  /** `asleep` is state == SLEEPING with chan == lk; `pid` names the holder, n standing for no one. */
  datatype State = State(n: nat, pcs: seq<Pc>, asleep: seq<bool>, plock: seq<Owner>, inner: Owner, locked: bool,
                         pid: nat)

  datatype Action = Run(p: nat) | Lock(p: nat) | Free(p: nat, wake: bool)

  function Initial(n: nat): State {
    State(n, seq(n, i => Idle), seq(n, i => false), seq(n, i => Nobody), Nobody, false, n)
  }

  predicate Sized(s: State) {
    |s.pcs| == |s.asleep| == |s.plock| == s.n
  }

  /** Spinlocks are free when acquired; a process taken off the processor comes
      back once runnable; the environment frees what it locked. */
  predicate Enabled(s: State, a: Action) {
    && Sized(s) && a.p < s.n
    && match a
       case Lock(p) => s.plock[p] == Nobody
       case Free(p, wake) => s.plock[p] == Other
       case Run(p) =>
         match s.pcs[p]
         case Want => s.inner == Nobody
         case WantRelease => s.inner == Nobody
         case LockSelf => s.plock[p] == Nobody
         case Off => !s.asleep[p] && s.plock[p] == Nobody
         case Scan(i) => i < s.n && i != p ==> s.plock[i] == Nobody
         case _ => true
  }

  function At(s: State, p: nat, pc: Pc): State
    requires p < |s.pcs|
  {
    s.(pcs := s.pcs[p := pc])
  }

  function Apply(s: State, a: Action): State
    requires Enabled(s, a)
  {
    match a
    case Lock(p) => s.(plock := s.plock[p := Other])
    case Free(p, wake) => s.(plock := s.plock[p := Nobody], asleep := if wake then s.asleep[p := false] else s.asleep)
    case Run(p) =>
      match s.pcs[p]
      case Idle => At(s, p, Want)
      case Want => At(s.(inner := Proc(p)), p, Test)
      case Test => if s.locked then At(s, p, LockSelf) else At(s.(locked := true, pid := p), p, Leave)
      case LockSelf => At(s.(plock := s.plock[p := Proc(p)]), p, Unlock)
      case Unlock => At(s.(inner := Nobody), p, GoToSleep)
      case GoToSleep => At(s.(asleep := s.asleep[p := true]), p, Switch)
      case Switch => At(s.(plock := s.plock[p := Nobody]), p, Off)
      case Off => At(s.(plock := s.plock[p := Proc(p)]), p, Tidy)
      case Tidy => At(s.(plock := s.plock[p := Nobody]), p, Want)
      case Leave => At(s.(inner := Nobody), p, Holding)
      case Holding => At(s, p, WantRelease)
      case WantRelease => At(s.(inner := Proc(p)), p, Clear)
      case Clear => At(s.(locked := false, pid := s.n), p, Scan(0))
      case Scan(i) =>
        if i >= s.n then At(s.(inner := Nobody), p, Idle)
        else if i == p then At(s, p, Scan(i + 1))
        else At(s.(plock := s.plock[i := Proc(p)]), p, Check(i))
      case Check(i) =>
        if i < s.n then At(s.(asleep := s.asleep[i := false], plock := s.plock[i := Nobody]), p, Scan(i + 1)) else s
  }

  // ----- the invariant -----

  predicate HoldsInner(pc: Pc) {
    pc.Test? || pc.LockSelf? || pc.Unlock? || pc.Leave? || pc.Clear? || pc.Scan? || pc.Check?
  }

  /** The process is the lock's holder. */
  predicate HasLock(pc: Pc) {
    pc.Leave? || pc.Holding? || pc.WantRelease? || pc.Clear?
  }

  predicate HoldsOwn(pc: Pc) {
    pc.Unlock? || pc.GoToSleep? || pc.Switch? || pc.Tidy?
  }

  /** Process p is where it has the lock of process x. */
  predicate Takes(pcs: seq<Pc>, p: nat, x: nat)
    requires p < |pcs|
  {
    if p == x then HoldsOwn(pcs[p]) else pcs[p] == Check(x)
  }

  /** Who holds which spinlock. */
  ghost predicate SpinlocksOk(n: nat, pcs: seq<Pc>, plock: seq<Owner>, inner: Owner)
    requires |pcs| == |plock| == n
  {
    && (forall p: nat :: p < n ==> (HoldsInner(pcs[p]) <==> inner == Proc(p)))
    && inner != Other && (inner.Proc? ==> inner.p < n)
    && (forall p: nat :: p < n && HoldsOwn(pcs[p]) ==> plock[p] == Proc(p))
    && (forall p: nat :: p < n && pcs[p].Check? ==> pcs[p].i < n && pcs[p].i != p && plock[pcs[p].i] == Proc(p))
  }

  /** No process holds another's lock, or its own, but where it says so. */
  ghost predicate TakenOk(n: nat, pcs: seq<Pc>, plock: seq<Owner>)
    requires |pcs| == |plock| == n
  {
    forall x: nat :: x < n && plock[x].Proc? ==> plock[x].p < n && Takes(pcs, plock[x].p, x)
  }

  /** Exactly the process named by pid has the sleep lock, if it is locked. */
  ghost predicate HolderOk(n: nat, pcs: seq<Pc>, locked: bool, pid: nat)
    requires |pcs| == n
  {
    && (locked <==> pid < n) && pid <= n
    && (forall p: nat :: p < n ==> (HasLock(pcs[p]) <==> pid == p))
  }

  /** The wakeup under way, if any, has yet to look at process p. */
  ghost predicate ToCome(pcs: seq<Pc>, inner: Owner, p: nat) {
    inner.Proc? && inner.p < |pcs| && (pcs[inner.p].Scan? || pcs[inner.p].Check?) && pcs[inner.p].i <= p
  }

  /** Processes decide to sleep under the inner lock while the lock is taken, and
      once it is not, a wakeup is on its way to each that is asleep or about to be. */
  ghost predicate SleepersOk(n: nat, pcs: seq<Pc>, asleep: seq<bool>, inner: Owner, locked: bool)
    requires |pcs| == |asleep| == n
  {
    && (forall p: nat :: p < n && asleep[p] ==> pcs[p].Switch? || pcs[p].Off?)
    && (forall p: nat :: p < n && (pcs[p].LockSelf? || pcs[p].Unlock?) ==> locked)
    && (forall p: nat :: p < n && (pcs[p].GoToSleep? || asleep[p]) ==> locked || ToCome(pcs, inner, p))
  }

  ghost predicate Inv(s: State) {
    && Sized(s)
    && SpinlocksOk(s.n, s.pcs, s.plock, s.inner)
    && TakenOk(s.n, s.pcs, s.plock)
    && HolderOk(s.n, s.pcs, s.locked, s.pid)
    && SleepersOk(s.n, s.pcs, s.asleep, s.inner, s.locked)
  }

  /** Process p moves on, taking or dropping spinlocks that no one else holds. */
  lemma SpinlocksMoved(n: nat, pcs: seq<Pc>, plock: seq<Owner>, inner: Owner, p: nat, pc: Pc, x: nat, o: Owner,
                       inner': Owner)
    requires |pcs| == |plock| == n && p < n && x < n && SpinlocksOk(n, pcs, plock, inner)
    requires inner' == inner || (inner in {Nobody, Proc(p)} && inner' in {Nobody, Proc(p)})
    requires o == plock[x] || plock[x] in {Nobody, Proc(p)}
    requires HoldsInner(pc) <==> inner' == Proc(p)
    requires HoldsOwn(pc) ==> plock[x := o][p] == Proc(p)
    requires pc.Check? ==> pc.i < n && pc.i != p && plock[x := o][pc.i] == Proc(p)
    ensures SpinlocksOk(n, pcs[p := pc], plock[x := o], inner')
  {
  }

  lemma TakenMoved(n: nat, pcs: seq<Pc>, plock: seq<Owner>, p: nat, pc: Pc, x: nat, o: Owner)
    requires |pcs| == |plock| == n && p < n && x < n && TakenOk(n, pcs, plock)
    requires o == plock[x] || o == Nobody || (o == Proc(p) && if p == x then HoldsOwn(pc) else pc == Check(x))
    requires HoldsOwn(pcs[p]) ==> HoldsOwn(pc) || (x == p && o == Nobody)
    requires pcs[p].Check? ==> pc == pcs[p] || (x == pcs[p].i && o == Nobody)
    ensures TakenOk(n, pcs[p := pc], plock[x := o])
  {
  }

  lemma HolderMoved(n: nat, pcs: seq<Pc>, locked: bool, pid: nat, p: nat, pc: Pc, locked': bool, pid': nat)
    requires |pcs| == n && p < n && HolderOk(n, pcs, locked, pid)
    requires if HasLock(pc) == HasLock(pcs[p]) then locked' == locked && pid' == pid
             else if HasLock(pc) then !locked && locked' && pid' == p
             else !locked' && pid' == n
    ensures HolderOk(n, pcs[p := pc], locked', pid')
  {
  }

  /** Process p moves on, and if the lock is free a wakeup is still to come for every sleeper. */
  lemma SleepersMoved(n: nat, pcs: seq<Pc>, asleep: seq<bool>, inner: Owner, locked: bool, p: nat, pc: Pc,
                      inner': Owner, locked': bool)
    requires |pcs| == |asleep| == n && p < n && SleepersOk(n, pcs, asleep, inner, locked)
    requires asleep[p] ==> pc.Switch? || pc.Off?
    requires pc.LockSelf? || pc.Unlock? || pc.GoToSleep? ==>
               locked' || (pc.GoToSleep? && ToCome(pcs[p := pc], inner', p))
    requires locked' || !locked || forall q: nat :: q < n && q != p ==> !(pcs[q].LockSelf? || pcs[q].Unlock?)
    requires !locked' && asleep[p] ==> ToCome(pcs[p := pc], inner', p)
    requires !locked' ==>
               forall q: nat :: q < n && q != p && (pcs[q].GoToSleep? || asleep[q]) ==> ToCome(pcs[p := pc], inner', q)
    ensures SleepersOk(n, pcs[p := pc], asleep, inner', locked')
  {
  }

  lemma AcquireKeepsInv(s: State, p: nat)
    requires Inv(s) && Enabled(s, Run(p)) && (s.pcs[p].Idle? || s.pcs[p].Want? || s.pcs[p].Test? || s.pcs[p].Leave?)
    ensures Inv(Apply(s, Run(p)))
  {
    var s' := Apply(s, Run(p));
    assert HoldsInner(s.pcs[p]) <==> s.inner == Proc(p);
    SpinlocksMoved(s.n, s.pcs, s.plock, s.inner, p, s'.pcs[p], p, s.plock[p], s'.inner);
    TakenMoved(s.n, s.pcs, s.plock, p, s'.pcs[p], p, s.plock[p]);
    HolderMoved(s.n, s.pcs, s.locked, s.pid, p, s'.pcs[p], s'.locked, s'.pid);
    hide SpinlocksOk, HolderOk, TakenOk;
    SleepersMoved(s.n, s.pcs, s.asleep, s.inner, s.locked, p, s'.pcs[p], s'.inner, s'.locked);
  }

  lemma SleepKeepsInv(s: State, p: nat)
    requires Inv(s) && Enabled(s, Run(p)) && (s.pcs[p].LockSelf? || s.pcs[p].Unlock? || s.pcs[p].Switch?)
    ensures Inv(Apply(s, Run(p)))
  {
    var s' := Apply(s, Run(p));
    assert HoldsInner(s.pcs[p]) <==> s.inner == Proc(p);
    assert HoldsOwn(s.pcs[p]) ==> s.plock[p] == Proc(p);
    SpinlocksMoved(s.n, s.pcs, s.plock, s.inner, p, s'.pcs[p], p, s'.plock[p], s'.inner);
    TakenMoved(s.n, s.pcs, s.plock, p, s'.pcs[p], p, s'.plock[p]);
    HolderMoved(s.n, s.pcs, s.locked, s.pid, p, s'.pcs[p], s'.locked, s'.pid);
    hide SpinlocksOk, HolderOk, TakenOk;
    SleepersMoved(s.n, s.pcs, s.asleep, s.inner, s.locked, p, s'.pcs[p], s'.inner, s'.locked);
  }

  /** Going to sleep, and coming back. */
  lemma SwitchKeepsInv(s: State, p: nat)
    requires Inv(s) && Enabled(s, Run(p)) && (s.pcs[p].GoToSleep? || s.pcs[p].Off? || s.pcs[p].Tidy?)
    ensures Inv(Apply(s, Run(p)))
  {
    var s' := Apply(s, Run(p));
    assert HoldsInner(s.pcs[p]) <==> s.inner == Proc(p);
    assert HoldsOwn(s.pcs[p]) ==> s.plock[p] == Proc(p);
    SpinlocksMoved(s.n, s.pcs, s.plock, s.inner, p, s'.pcs[p], p, s'.plock[p], s'.inner);
    TakenMoved(s.n, s.pcs, s.plock, p, s'.pcs[p], p, s'.plock[p]);
    HolderMoved(s.n, s.pcs, s.locked, s.pid, p, s'.pcs[p], s'.locked, s'.pid);
    hide SpinlocksOk, HolderOk, TakenOk;
    if !s.pcs[p].GoToSleep? {
      SleepersMoved(s.n, s.pcs, s.asleep, s.inner, s.locked, p, s'.pcs[p], s'.inner, s'.locked);
    }
  }

  lemma ReleaseKeepsInv(s: State, p: nat)
    requires Inv(s) && Enabled(s, Run(p)) && (s.pcs[p].Holding? || s.pcs[p].WantRelease? || s.pcs[p].Clear?)
    ensures Inv(Apply(s, Run(p)))
  {
    var s' := Apply(s, Run(p));
    assert HoldsInner(s.pcs[p]) <==> s.inner == Proc(p);
    assert (HasLock(s.pcs[p]) <==> s.pid == p) && s.locked;
    assert s.pcs[p].Clear? ==> forall q: nat :: q < s.n && q != p ==> !HoldsInner(s.pcs[q]);
    SpinlocksMoved(s.n, s.pcs, s.plock, s.inner, p, s'.pcs[p], p, s.plock[p], s'.inner);
    TakenMoved(s.n, s.pcs, s.plock, p, s'.pcs[p], p, s.plock[p]);
    HolderMoved(s.n, s.pcs, s.locked, s.pid, p, s'.pcs[p], s'.locked, s'.pid);
    hide SpinlocksOk, HolderOk, TakenOk;
    SleepersMoved(s.n, s.pcs, s.asleep, s.inner, s.locked, p, s'.pcs[p], s'.inner, s'.locked);
  }

  /** wakeup moving on from process i leaves no sleeper behind there. */
  lemma WakeupKeepsInv(s: State, p: nat)
    requires Inv(s) && Enabled(s, Run(p)) && (s.pcs[p].Scan? || s.pcs[p].Check?)
    ensures Inv(Apply(s, Run(p)))
  {
    var s' := Apply(s, Run(p));
    var i := s.pcs[p].i;
    assert HoldsInner(s.pcs[p]) <==> s.inner == Proc(p);
    assert s.pcs[p].Check? ==> i < s.n && i != p && s.plock[i] == Proc(p);
    assert i < s.n && HoldsOwn(s.pcs[i]) ==> s.plock[i] == Proc(i);
    SpinlocksMoved(s.n, s.pcs, s.plock, s.inner, p, s'.pcs[p], if i < s.n then i else p,
                   s'.plock[if i < s.n then i else p], s'.inner);
    TakenMoved(s.n, s.pcs, s.plock, p, s'.pcs[p], if i < s.n then i else p,
               s'.plock[if i < s.n then i else p]);
    HolderMoved(s.n, s.pcs, s.locked, s.pid, p, s'.pcs[p], s'.locked, s'.pid);
    hide SpinlocksOk, HolderOk, TakenOk;
    var asleep := s'.asleep;
    SleepersWoken(s, i);
    SleepersMoved(s.n, s.pcs, asleep, s.inner, s.locked, p, s'.pcs[p], s'.inner, s'.locked);
  }

  lemma SleepersWoken(s: State, i: nat)
    requires Sized(s) && SleepersOk(s.n, s.pcs, s.asleep, s.inner, s.locked)
    ensures i < s.n ==> SleepersOk(s.n, s.pcs, s.asleep[i := false], s.inner, s.locked)
  {
  }

  lemma EnvironmentKeepsInv(s: State, a: Action)
    requires Inv(s) && Enabled(s, a) && !a.Run?
    ensures Inv(Apply(s, a))
  {
    SleepersWoken(s, a.p);
    hide HolderOk, SleepersOk;
  }

  lemma StepKeepsInv(s: State, a: Action)
    requires Inv(s) && Enabled(s, a)
    ensures Inv(Apply(s, a))
  {
    hide Inv;
    if !a.Run? {
      EnvironmentKeepsInv(s, a);
    } else {
      match s.pcs[a.p]
      case Idle | Want | Test | Leave => AcquireKeepsInv(s, a.p);
      case LockSelf | Unlock | Switch => SleepKeepsInv(s, a.p);
      case GoToSleep | Off | Tidy => SwitchKeepsInv(s, a.p);
      case Holding | WantRelease | Clear => ReleaseKeepsInv(s, a.p);
      case Scan(_) => WakeupKeepsInv(s, a.p);
      case Check(_) => WakeupKeepsInv(s, a.p);
    }
  }

  // ----- runs -----

  ghost predicate Legal(s: State, run: seq<Action>)
    decreases |run|
  {
    run == [] || (Enabled(s, run[0]) && Legal(Apply(s, run[0]), run[1..]))
  }

  function Exec(s: State, run: seq<Action>): State
    requires Legal(s, run)
    decreases |run|
  {
    if run == [] then s else Exec(Apply(s, run[0]), run[1..])
  }

  lemma {:induction false} RunKeepsInv(s: State, run: seq<Action>)
    requires Inv(s) && Legal(s, run)
    ensures Inv(Exec(s, run)) && Exec(s, run).n == s.n
    decreases |run|
  {
    hide Inv;
    if run != [] {
      StepKeepsInv(s, run[0]);
      RunKeepsInv(Apply(s, run[0]), run[1..]);
    }
  }

  /** holdingsleep */
  predicate HoldingSleep(s: State, p: nat) {
    s.locked && s.pid == p
  }

  /** In every run, at most one process has the sleep lock, and holdingsleep says
      which; and whenever the inner lock is free and the sleep lock is not taken,
      no process is asleep on it or about to be. */
  lemma RunSafe(n: nat, run: seq<Action>)
    requires Legal(Initial(n), run)
    ensures var s := Exec(Initial(n), run);
      && Sized(s) && s.n == n
      && (forall p: nat, q: nat :: p < n && q < n && HasLock(s.pcs[p]) && HasLock(s.pcs[q]) ==> p == q)
      && (forall p: nat :: p < n ==> (HoldingSleep(s, p) <==> HasLock(s.pcs[p])))
      && (s.inner == Nobody && !s.locked ==>
            forall p: nat :: p < n ==> !s.asleep[p] && !s.pcs[p].GoToSleep? && !s.pcs[p].LockSelf?)
  {
    assert Inv(Initial(n));
    RunKeepsInv(Initial(n), run);
    hide HasLock, Exec;
  }
}
