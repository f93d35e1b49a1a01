/**
 Lottery scheduling: one pass over the process table adds up the tickets of
 the runnable processes, a second finds the process that holds the winning
 ticket, or an earlier arrival with as many tickets further on.
 */
module Lottery {
  import opened Collections
  import opened Process
  import opened Random

  const INT_MAX := 0x7fff_ffff

  datatype Proc = Proc(state: ProcState, tickets: nat, startTime: int)

  /** The tickets of the runnable processes among the first `k`. */
  function Sum(procs: seq<Proc>, k: nat): (s: nat)
    requires k <= |procs|
  {
    if k == 0 then 0 else Sum(procs, k - 1) + if procs[k - 1].state == Runnable then procs[k - 1].tickets else 0
  }

  /** The tickets of the runnable processes that have `t` each. */
  function Share(procs: seq<Proc>, k: nat, t: nat): (s: nat)
    requires k <= |procs|
  {
    if k == 0 then 0
    else Share(procs, k - 1, t) + if procs[k - 1].state == Runnable && procs[k - 1].tickets == t then t else 0
  }

  /** Process `i` holds ticket `w`. */
  predicate Holds(procs: seq<Proc>, i: nat, w: nat) {
    i < |procs| && procs[i].state == Runnable && Sum(procs, i) <= w < Sum(procs, i + 1)
  }

  /** `c` is as good as `f`: runnable, no earlier in the table, with as many tickets. */
  predicate Rival(procs: seq<Proc>, f: nat, c: nat) {
    f <= c < |procs| && f < |procs| && procs[c].state == Runnable && procs[c].tickets == procs[f].tickets
  }

  /** The process to run for winning ticket `w`: of the holder's rivals, the one
      that started first, the one first in the table if several did. */
  ghost predicate Wins(procs: seq<Proc>, w: nat, c: nat) {
    exists f: nat :: Holds(procs, f, w) && Best(procs, f, c, |procs|)
  }

  ghost predicate Best(procs: seq<Proc>, f: nat, c: nat, k: nat) {
    && Rival(procs, f, c) && c < k <= |procs|
    && (forall i: nat :: i < k && Rival(procs, f, i) ==> procs[c].startTime <= procs[i].startTime)
    && (forall i: nat :: i < c && Rival(procs, f, i) ==> procs[c].startTime < procs[i].startTime)
  }

  lemma {:induction false} SumMonotone(procs: seq<Proc>, j: nat, k: nat)
    requires j <= k <= |procs|
    ensures Sum(procs, j) <= Sum(procs, k)
  {
    if j < k {
      SumMonotone(procs, j, k - 1);
    }
  }

  /** Every ticket below the total is held by exactly one process. */
  lemma {:induction false} HolderExists(procs: seq<Proc>, w: nat, k: nat) returns (f: nat)
    requires k <= |procs| && w < Sum(procs, k)
    ensures Holds(procs, f, w) && f < k
  {
    if w < Sum(procs, k - 1) {
      f := HolderExists(procs, w, k - 1);
    } else {
      f := k - 1;
    }
  }

  lemma HolderUnique(procs: seq<Proc>, w: nat, f: nat, g: nat)
    requires Holds(procs, f, w) && Holds(procs, g, w)
    ensures f == g
  {
    if f < g {
      SumMonotone(procs, f + 1, g);
    } else if g < f {
      SumMonotone(procs, g + 1, f);
    }
  }

  lemma WinnerUnique(procs: seq<Proc>, w: nat, c: nat, d: nat)
    requires Wins(procs, w, c) && Wins(procs, w, d)
    ensures c == d
  {
    var f: nat :| Holds(procs, f, w) && Best(procs, f, c, |procs|);
    var g: nat :| Holds(procs, g, w) && Best(procs, g, d, |procs|);
    HolderUnique(procs, w, f, g);
  }

  /** A process can win exactly when it can run, has a ticket, and no process further on in the table
      with as many tickets started earlier. One of which that is not so never runs,
      however the tickets fall. */
  lemma CanWinIff(procs: seq<Proc>, c: nat)
    requires c < |procs|
    ensures (exists w: nat :: Wins(procs, w, c))
       <==> && procs[c].state == Runnable && procs[c].tickets > 0
            && forall d: nat ::
                 c < d < |procs| && procs[d].state == Runnable && procs[d].tickets == procs[c].tickets ==>
                   procs[c].startTime <= procs[d].startTime
  {
    if w: nat :| Wins(procs, w, c) {
      var f: nat :| Holds(procs, f, w) && Best(procs, f, c, |procs|);
      assert procs[f].tickets > 0;
      forall d: nat | c < d < |procs| && procs[d].state == Runnable && procs[d].tickets == procs[c].tickets
        ensures procs[c].startTime <= procs[d].startTime
      {
        assert Rival(procs, f, d);
      }
    }
    if && procs[c].state == Runnable && procs[c].tickets > 0
       && forall d: nat :: c < d < |procs| && procs[d].state == Runnable && procs[d].tickets == procs[c].tickets ==>
            procs[c].startTime <= procs[d].startTime
    {
      assert Holds(procs, c, Sum(procs, c)) && Best(procs, c, c, |procs|);
      assert Wins(procs, Sum(procs, c), c);
    }
  }

  // ----- shares -----

  /** The winning tickets below `n` that run a process with `t` tickets. */
  ghost function Winners(procs: seq<Proc>, picks: seq<nat>, n: nat, t: nat): set<nat>
    requires n <= |picks| && forall w :: 0 <= w < |picks| ==> picks[w] < |procs|
  {
    set w: nat | w < n && procs[picks[w]].tickets == t
  }

  lemma {:induction false} SharesUpTo(procs: seq<Proc>, picks: seq<nat>, k: nat, t: nat)
    requires k <= |procs| && Sum(procs, k) <= |picks| && forall w: nat :: w < |picks| ==> Wins(procs, w, picks[w])
    requires forall w :: 0 <= w < |picks| ==> picks[w] < |procs|
    ensures |Winners(procs, picks, Sum(procs, k), t)| == Share(procs, k, t)
  {
    if k > 0 {
      SharesUpTo(procs, picks, k - 1, t);
      var lo, hi := Sum(procs, k - 1), Sum(procs, k);
      forall w: nat | lo <= w < hi ensures procs[picks[w]].tickets == procs[k - 1].tickets {
        var f: nat :| Holds(procs, f, w) && Best(procs, f, picks[w], |procs|);
        HolderUnique(procs, w, f, k - 1);
      }
      var range := Range(lo, hi);
      if procs[k - 1].state == Runnable && procs[k - 1].tickets == t {
        assert Winners(procs, picks, hi, t) == Winners(procs, picks, lo, t) + range;
      } else {
        assert Winners(procs, picks, hi, t) == Winners(procs, picks, lo, t);
      }
    }
  }

  /** Of all winning tickets, those that run a process with t tickets are as many
      as the tickets held by runnable processes that have t. */
  lemma LotteryShares(procs: seq<Proc>, picks: seq<nat>, t: nat)
    requires |picks| == Sum(procs, |procs|) && forall w: nat :: w < |picks| ==> Wins(procs, w, picks[w])
    ensures forall w :: 0 <= w < |picks| ==> picks[w] < |procs| && procs[picks[w]].state == Runnable
    ensures |Winners(procs, picks, |picks|, t)| == Share(procs, |procs|, t)
  {
    forall w: nat | w < |picks| ensures picks[w] < |procs| && procs[picks[w]].state == Runnable {
      assert Wins(procs, w, picks[w]);
    }
    SharesUpTo(procs, picks, |procs|, t);
  }

  /** From state `x` of the generator, the `n`-th draw among `total` tickets is `w`. */
  predicate Draws(x: nat, n: nat, total: nat, w: nat)
    requires total > 0
  {
    n > 0 && Value(Seed(x, n)) % total == w
  }

  ghost predicate CanDraw(x: nat, total: nat, w: nat)
    requires total > 0
  {
    exists n: nat :: Draws(x, n, total, w)
  }

  /** From every state, every ticket is drawn sooner or later just when there are
      no more of them than values of rand. */
  lemma DrawReachesAll(x: nat, total: nat)
    requires total > 0 && x < ULONG_RANGE
    ensures (forall w: nat :: w < total ==> CanDraw(x, total, w)) <==> total <= RAND_RANGE
  {
    hide Seed, Value;
    if total <= RAND_RANGE {
      forall w: nat | w < total ensures CanDraw(x, total, w) {
        var n := RandReaches(x, w);
        Small(w, total);
        assert Draws(x, n, total, w);
      }
    } else {
      forall n: nat ensures !Draws(x, n, total, RAND_RANGE) {
        ValueBound(Seed(x, n));
        Small(Value(Seed(x, n)), total);
      }
      assert !CanDraw(x, total, RAND_RANGE);
    }
  }

  lemma Small(r: nat, total: nat)
    requires r < total
    ensures r % total == r
  {
  }

  class ProcTable {
    const procs: array<Proc>
    const held: array<bool>    // the process locks the scheduler holds

    constructor (n: nat)
      ensures fresh(procs) && fresh(held) && procs.Length == held.Length == n && NoneHeld()
    {
      procs := new Proc[n](i => Proc(Unused, 0, 0));
      held := new bool[n](i => false);
    }

    ghost predicate NoneHeld()
      reads held
    {
      procs.Length == held.Length && forall i :: 0 <= i < held.Length ==> !held[i]
    }

    method Acquire(i: nat)
      requires i < held.Length && !held[i]
      modifies held
      ensures held[..] == old(held[..])[i := true]
    {
      held[i] := true;
    }

    method Release(i: nat)
      requires i < held.Length && held[i]
      modifies held
      ensures held[..] == old(held[..])[i := false]
    {
      held[i] := false;
    }

    /** The first pass. */
    method TotalTickets() returns (total: nat)
      requires NoneHeld() && Sum(procs[..], procs.Length) <= INT_MAX
      modifies held
      ensures NoneHeld() && total == Sum(procs[..], procs.Length)
    {
      total := 0;
      for p := 0 to procs.Length
        invariant NoneHeld() && total == Sum(procs[..], p)
      {
        Acquire(p);
        if procs[p].state == Runnable {
          total := total + procs[p].tickets;
        }
        Release(p);
      }
    }

    /** The second pass, which keeps the lock of the process chosen and no other. */
    method Choose(winner: nat) returns (chosen: nat)
      requires NoneHeld() && winner < Sum(procs[..], procs.Length) <= INT_MAX
      modifies held
      ensures Wins(procs[..], winner, chosen) && forall i: nat :: i < held.Length ==> (held[i] <==> i == chosen)
    {
      ghost var ps := procs[..];
      ghost var f := HolderExists(ps, winner, procs.Length);
      var found, current := false, 0;
      chosen := 0;
      for p := 0 to procs.Length
        invariant current == Sum(ps, p) && found == (p > f)
        invariant found ==> Best(ps, f, chosen, p)
        invariant forall i: nat :: i < held.Length ==> (held[i] <==> found && i == chosen)
      {
        Acquire(p);
        if p < f {
          SumMonotone(ps, p + 1, f);
        } else {
          SumMonotone(ps, f + 1, p + 1);
        }
        if procs[p].state == Runnable {
          current := current + procs[p].tickets;
          if current > winner
             && (!found || (procs[chosen].tickets == procs[p].tickets
                            && procs[p].startTime < procs[chosen].startTime)) {
            if found {
              Release(chosen);
            }
            found, chosen := true, p;
          } else {
            Release(p);
          }
        } else {
          Release(p);
        }
      }
    }

    /** One round of the scheduler, up to the switch: `r` is what rand returns. */
    method Schedule(r: nat) returns (chosen: int)
      requires NoneHeld() && Sum(procs[..], procs.Length) <= INT_MAX
      modifies procs, held
      ensures old(Sum(procs[..], procs.Length)) == 0 ==> chosen == -1 && NoneHeld() && procs[..] == old(procs[..])
      ensures old(Sum(procs[..], procs.Length)) > 0 ==>
                && 0 <= chosen < procs.Length && Wins(old(procs[..]), r % old(Sum(procs[..], procs.Length)), chosen)
                && procs[..] == old(procs[..])[chosen := old(procs[chosen]).(state := Running)]
                && forall i: nat :: i < held.Length ==> (held[i] <==> i == chosen)
    {
      var total := TotalTickets();
      if total == 0 {
        return -1;
      }
      chosen := Choose(r % total);
      procs[chosen] := procs[chosen].(state := Running);
    }
  }
}
