/**
 What requests to the disk transfer. The device goes by the descriptors alone: it
 follows a chain from its head, takes the request from the header, and moves a
 block only the way the data descriptor allows (section 2.6.5 of Virtio 1.1).
 */
module VirtioTransfer {
  import Blocks
  import opened Virtio

  type Contents = map<nat, Blocks.Block>

  function At(m: Contents, k: nat): Blocks.Block {
    if k in m then m[k] else Blocks.ZeroBlock()
  }

  /** The rings and descriptors, the buffers in memory, and the sectors of the disk. */
  datatype World = World(d: Disk, mem: Contents, media: Contents)

  datatype Event =
    | Io(step: Step)
    | Fill(buf: nat, data: Blocks.Block) // whoever has the buffer changes it

  /** The chain at `h` is one the device can serve: a header of 16 bytes to read, then the data,
      then one byte it may write, for the status. */
  predicate Readable(desc: seq<Desc>, h: nat)
    requires |desc| == NUM && h < NUM
  {
    var head := desc[h];
    && head.addr.Op? && head.addr.i < NUM && head.len == 16 && !head.write && head.more && head.next < NUM
    && var data := desc[head.next];
       && data.addr.Data? && data.len == 1024 && data.more && data.next < NUM
       && var last := desc[data.next];
          last.addr == Status(h) && last.len == 1 && last.write && !last.more
  }

  /** Serving the chain at `h`: a block to the disk from a buffer the device may read, or
      from the disk to a buffer it may write. */
  function Served(w: World, h: nat): World
    requires |w.d.desc| == |w.d.ops| == NUM && h < NUM
  {
    if !Readable(w.d.desc, h) then w
    else
      var req, data := w.d.ops[w.d.desc[h].addr.i], w.d.desc[w.d.desc[h].next];
      if req.write then
        if data.write then w else w.(media := w.media[req.sector := At(w.mem, data.addr.buf)])
      else
        if data.write then w.(mem := w.mem[data.addr.buf := At(w.media, req.sector)]) else w
  }

  ghost predicate CanHappen(w: World, e: Event)
    requires Ok(w.d)
  {
    match e
    case Io(step) => Enabled(w.d, step)
    case Fill(buf, _) => Unused(w.d.chains, buf)
  }

  ghost function After(w: World, e: Event): World
    requires Ok(w.d) && CanHappen(w, e)
  {
    match e
    case Fill(buf, data) => w.(mem := w.mem[buf := data])
    case Io(step) =>
      StepDefined(w.d, step);
      (if step.Complete? then Served(w, step.h) else w).(d := Apply(w.d, step))
  }

  lemma AfterOk(w: World, e: Event)
    requires Ok(w.d) && CanHappen(w, e)
    ensures Ok(After(w, e).d)
  {
    if e.Io? {
      StepOk(w.d, e.step);
    }
  }

  /** What a request asks for is what the device does. */
  lemma ServedIs(w: World, h: nat)
    requires Ok(w.d) && h in w.d.chains
    ensures h < NUM
    ensures var c := w.d.chains[h];
      Served(w, h) == if c.req.write then w.(media := w.media[c.req.sector := At(w.mem, c.buf)])
                      else w.(mem := w.mem[c.buf := At(w.media, c.req.sector)])
  {
    assert ChainFormed(w.d.desc, w.d.info, w.d.ops, h, w.d.chains[h]);
  }

  // ----- requests under way -----

  ghost predicate Possible(w: World, run: seq<Event>)
    requires Ok(w.d)
    decreases |run|
  {
    run == [] || (CanHappen(w, run[0]) && (AfterOk(w, run[0]); Possible(After(w, run[0]), run[1..])))
  }

  ghost function End(w: World, run: seq<Event>): (w': World)
    requires Ok(w.d) && Possible(w, run)
    ensures Ok(w'.d)
    decreases |run|
  {
    if run == [] then w else AfterOk(w, run[0]); End(After(w, run[0]), run[1..])
  }

  predicate Done(c: Chain) {
    c.phase == Completed || c.phase == Drained
  }

  lemma Untouched(d: Disk, g: nat, h: nat)
    requires Ok(d) && g < NUM && d.free[g] && h in d.chains
    ensures g != h
  {
    InUse(d.free, d.owner, d.chains, h);
  }

  lemma ChainKept(d: Disk, h: nat, step: Step)
    requires Ok(d) && h in d.chains && Enabled(d, step) && step != Finish(h)
    requires step == Complete(h) ==> Done(d.chains[h])
    ensures var d', c := Apply(d, step), d.chains[h];
      h in d'.chains && d'.chains[h] == c.(phase := d'.chains[h].phase) && (Done(c) ==> Done(d'.chains[h]))
  {
    hide Ok;
    StepDefined(d, step);
    if step.Start? {
      Untouched(d, step.h, h);
    } else if step.Take? {
      TakenOk(d);
    }
  }

  /** Until its end a request keeps its buffer, and nothing changes that but serving it. */
  lemma OneKept(w: World, h: nat, e: Event)
    requires Ok(w.d) && h in w.d.chains && CanHappen(w, e) && e != Io(Finish(h))
    requires e == Io(Complete(h)) ==> Done(w.d.chains[h])
    ensures var w', c := After(w, e), w.d.chains[h];
      && h in w'.d.chains && w'.d.chains[h] == c.(phase := w'.d.chains[h].phase)
      && (Done(c) ==> Done(w'.d.chains[h])) && At(w'.mem, c.buf) == At(w.mem, c.buf)
  {
    hide Ok, Apply, Served;
    if e.Io? {
      StepDefined(w.d, e.step);
      ChainKept(w.d, h, e.step);
      if e.step.Complete? {
        ServedIs(w, e.step.h);
        OwnBuffer(w.d, e.step.h, h);
      }
    }
  }

  lemma OwnBuffer(d: Disk, g: nat, h: nat)
    requires Ok(d) && g in d.chains && h in d.chains && g != h
    ensures d.chains[g].buf != d.chains[h].buf
  {
  }

  predicate Without(run: seq<Event>, e: Event) {
    forall k :: 0 <= k < |run| ==> run[k] != e
  }

  lemma {:induction false} Kept(w: World, h: nat, run: seq<Event>)
    requires Ok(w.d) && h in w.d.chains && Possible(w, run) && Without(run, Io(Finish(h)))
    requires Done(w.d.chains[h]) || Without(run, Io(Complete(h)))
    ensures var w', c := End(w, run), w.d.chains[h];
      && h in w'.d.chains && w'.d.chains[h] == c.(phase := w'.d.chains[h].phase)
      && (Done(c) ==> Done(w'.d.chains[h])) && At(w'.mem, c.buf) == At(w.mem, c.buf)
    decreases |run|
  {
    hide Ok, CanHappen, After, At;
    if run != [] {
      assert run[0] != Io(Finish(h));
      OneKept(w, h, run[0]);
      AfterOk(w, run[0]);
      Kept(After(w, run[0]), h, run[1..]);
    }
  }

  /** A request to write puts on the disk what the buffer held when it was made, whatever
      other requests are served and buffers changed in between. */
  lemma WriteStores(w: World, h: nat, m: nat, s: nat, buf: nat, sector: nat, run: seq<Event>)
    requires Ok(w.d) && Enabled(w.d, Start(h, m, s, buf, Req(true, sector)))
    requires var w1 := After(w, Io(Start(h, m, s, buf, Req(true, sector))));
      && Ok(w1.d) && Possible(w1, run) && Without(run, Io(Finish(h))) && Without(run, Io(Complete(h)))
      && CanHappen(End(w1, run), Io(Complete(h)))
    ensures var w1 := After(w, Io(Start(h, m, s, buf, Req(true, sector))));
      var w2 := End(w1, run);
      After(w2, Io(Complete(h))).media == w2.media[sector := At(w.mem, buf)]
  {
    var w1 := After(w, Io(Start(h, m, s, buf, Req(true, sector))));
    Kept(w1, h, run);
    ServedIs(End(w1, run), h);
  }

  /** A request to read leaves in the buffer, until the request ends, what was on the disk
      when it was served. */
  lemma ReadReturns(w: World, h: nat, run: seq<Event>)
    requires Ok(w.d) && Enabled(w.d, Complete(h)) && !w.d.chains[h].req.write
    requires Ok(After(w, Io(Complete(h))).d) && Possible(After(w, Io(Complete(h))), run)
    requires Without(run, Io(Finish(h)))
    ensures var w' := End(After(w, Io(Complete(h))), run);
      At(w'.mem, w.d.chains[h].buf) == At(w.media, w.d.chains[h].req.sector)
  {
    ServedIs(w, h);
    Kept(After(w, Io(Complete(h))), h, run);
  }

  // ----- every request can end -----

  function StagesLeft(phase: Phase): nat {
    match phase
    case Submitted => 3
    case Taken => 2
    case Completed => 1
    case Drained => 0
  }

  /** The entries before that of chain `h` in the ring it waits in. */
  ghost function Ahead(d: Disk, h: nat): int
    requires h in d.chains
  {
    if h in d.availAt then d.availAt[h] - d.taken else if h in d.usedAt then d.usedAt[h] - d.drained else 0
  }

  /** The device's next step, the handler's or the driver's, whichever the request waits for. */
  function NextFor(h: nat, phase: Phase): Step {
    match phase
    case Submitted => Take
    case Taken => Complete(h)
    case Completed => Drain
    case Drained => Finish(h)
  }

  lemma NextHappens(d: Disk, h: nat)
    requires Ok(d) && h in d.chains
    ensures Enabled(d, NextFor(h, d.chains[h].phase)) && Ahead(d, h) >= 0
  {
    hide Owned, Formed;
  }

  lemma NextHelps(d: Disk, h: nat)
    requires Ok(d) && h in d.chains && d.chains[h].phase != Drained && Enabled(d, NextFor(h, d.chains[h].phase))
    ensures var d', c := Apply(d, NextFor(h, d.chains[h].phase)), d.chains[h];
      && h in d'.chains && d'.chains[h] == c.(phase := d'.chains[h].phase)
      && (StagesLeft(d'.chains[h].phase) < StagesLeft(c.phase)
          || (d'.chains[h].phase == c.phase && Ahead(d', h) < Ahead(d, h)))
  {
    hide Owned, Formed;
    StepDefined(d, NextFor(h, d.chains[h].phase));
  }

  lemma LastHelps(d: Disk, h: nat)
    requires Ok(d) && h in d.chains && Enabled(d, Finish(h))
    ensures var d', c := Apply(d, Finish(h)), d.chains[h];
      h !in d'.chains && |d'.free| == NUM && h < NUM && c.data < NUM && c.status < NUM
      && d'.free[h] && d'.free[c.data] && d'.free[c.status]
  {
    hide RingHolds, Formed, Buffers, InPhase;
    StepDefined(d, Finish(h));
    InUse(d.free, d.owner, d.chains, h);
  }

  /** From any state a request under way can be brought to its end, with no new request in
      between, and its three descriptors are free then. */
  lemma {:induction false} RequestEnds(d: Disk, h: nat) returns (run: seq<Step>)
    requires Ok(d) && h in d.chains
    ensures Legal(d, run) && (forall k :: 0 <= k < |run| ==> !run[k].Start?)
    ensures var d', c := Exec(d, run), d.chains[h];
      h !in d'.chains && |d'.free| == NUM && h < NUM && c.data < NUM && c.status < NUM
      && d'.free[h] && d'.free[c.data] && d'.free[c.status]
    decreases StagesLeft(d.chains[h].phase), Ahead(d, h)
  {
    hide Ok, Enabled, Apply, Ahead;
    var step := NextFor(h, d.chains[h].phase);
    NextHappens(d, h);
    StepOk(d, step);
    if d.chains[h].phase == Drained {
      LastHelps(d, h);
      run := [step];
      assert run[1..] == [];
    } else {
      NextHelps(d, h);
      NextHappens(Apply(d, step), h);
      var more := RequestEnds(Apply(d, step), h);
      run := [step] + more;
      assert run[1..] == more;
    }
  }
}
