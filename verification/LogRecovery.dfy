/**
 The redo log as it lies on the disk, and what recovery makes of any disk
 image a crash can leave behind. The log region is one header block followed
 by size - 1 slots; the header's first word counts the committed slots and
 the following words name the home block of each.
 */
module LogRecovery {
  import opened Blocks

  const MAXOPBLOCKS := 10
  const LOGSIZE := MAXOPBLOCKS * 3
  const NBUF := MAXOPBLOCKS * 3

  type Image = seq<Block>

  datatype Layout = Layout(start: nat, size: nat) {
    /** The blocks from the header to the last slot. */
    predicate Holds(b: nat) {
      start <= b < start + size
    }

    predicate FitsOn(d: Image) {
      1 <= size && start + size <= |d|
    }
  }

  function HeaderCount(l: Layout, d: Image): nat
    requires l.FitsOn(d)
  {
    Word(d[l.start], 0)
  }

  function HeaderEntry(l: Layout, d: Image, i: nat): nat
    requires l.FitsOn(d) && i < LOGSIZE
  {
    Word(d[l.start], 1 + i)
  }

  /** A header recovery can follow: it fits the region and names only home blocks. */
  predicate ValidHeader(l: Layout, d: Image) {
    && l.FitsOn(d)
    && HeaderCount(l, d) <= LOGSIZE
    && HeaderCount(l, d) < l.size
    && forall i: nat :: i < HeaderCount(l, d) ==>
         HeaderEntry(l, d, i) < |d| && !l.Holds(HeaderEntry(l, d, i))
  }

  /** The image after the first `k` iterations of install_trans. */
  function Installed(l: Layout, d: Image, k: nat): (r: Image)
    requires ValidHeader(l, d) && k <= HeaderCount(l, d)
    ensures |r| == |d|
  {
    if k == 0 then d
    else Installed(l, d, k - 1)[HeaderEntry(l, d, k - 1) := d[l.start + k]]
  }

  function Cleared(l: Layout, d: Image): (r: Image)
    requires l.FitsOn(d)
  {
    d[l.start := PutWord(d[l.start], 0, 0)]
  }

  /** What recover_from_log leaves on the disk. */
  function Recover(l: Layout, d: Image): (r: Image)
    requires ValidHeader(l, d)
    ensures |r| == |d|
  {
    Cleared(l, Installed(l, d, HeaderCount(l, d)))
  }

  predicate SameHome(l: Layout, d: Image, e: Image) {
    |d| == |e| && forall b: nat :: b < |d| && !l.Holds(b) ==> d[b] == e[b]
  }

  predicate SameLog(l: Layout, d: Image, e: Image) {
    |d| == |e| && forall b: nat :: b < |d| && l.Holds(b) ==> d[b] == e[b]
  }

  /** Rebooting on `d` brings back exactly the home blocks of `h`. */
  predicate RecoversTo(l: Layout, d: Image, h: Image) {
    ValidHeader(l, d) && SameHome(l, Recover(l, d), h)
  }

  /** The machine may stop with `e` on the disk while recovering from `d`. */
  ghost predicate StopsAt(l: Layout, d: Image, e: Image)
    requires ValidHeader(l, d)
  {
    || (exists k: nat :: k <= HeaderCount(l, d) && e == Installed(l, d, k))
    || e == Recover(l, d)
  }

  // ----- installation -----

  lemma {:induction false} InstalledFrame(l: Layout, d: Image, k: nat, b: nat)
    requires ValidHeader(l, d) && k <= HeaderCount(l, d) && b < |d|
    requires forall i: nat :: i < k ==> HeaderEntry(l, d, i) != b
    ensures Installed(l, d, k)[b] == d[b]
  {
    if k > 0 {
      InstalledFrame(l, d, k - 1, b);
    }
  }

  lemma InstalledKeepsLog(l: Layout, d: Image, k: nat)
    requires ValidHeader(l, d) && k <= HeaderCount(l, d)
    ensures SameLog(l, d, Installed(l, d, k))
    ensures ValidHeader(l, Installed(l, d, k))
  {
    var e := Installed(l, d, k);
    forall b: nat | b < |d| && l.Holds(b) ensures d[b] == e[b] {
      InstalledFrame(l, d, k, b);
    }
    assert l.Holds(l.start) && e[l.start] == d[l.start];
    assert forall i: nat :: i < HeaderCount(l, e) ==> HeaderEntry(l, e, i) == HeaderEntry(l, d, i);
  }

  /** Where an entry names `b`, the outcome depends on the log alone. */
  lemma {:induction false} InstalledSameLog(l: Layout, d: Image, e: Image, k: nat, b: nat)
    requires ValidHeader(l, d) && ValidHeader(l, e) && SameLog(l, d, e)
    requires k <= HeaderCount(l, d) && b < |d| && HeaderCount(l, e) == HeaderCount(l, d)
    requires d[b] == e[b] || exists i: nat :: i < k && HeaderEntry(l, d, i) == b
    ensures Installed(l, d, k)[b] == Installed(l, e, k)[b]
  {
    assert l.Holds(l.start) && d[l.start] == e[l.start];
    if k > 0 {
      assert l.Holds(l.start + k);
      if HeaderEntry(l, d, k - 1) != b {
        InstalledSameLog(l, d, e, k - 1, b);
      }
    }
  }

  /** A half-finished installation still recovers to the same home blocks. */
  lemma ReinstallIdempotent(l: Layout, d: Image, k: nat)
    requires ValidHeader(l, d) && k <= HeaderCount(l, d)
    ensures RecoversTo(l, Installed(l, d, k), Recover(l, d))
  {
    var e, n := Installed(l, d, k), HeaderCount(l, d);
    InstalledKeepsLog(l, d, k);
    assert l.Holds(l.start) && d[l.start] == e[l.start];
    forall b: nat | b < |d| && !l.Holds(b) ensures Recover(l, e)[b] == Recover(l, d)[b] {
      if forall i: nat :: i < n ==> HeaderEntry(l, d, i) != b {
        InstalledFrame(l, d, k, b);
      }
      InstalledSameLog(l, d, e, n, b);
    }
  }

  /** An image whose header counts no slots stands for its own home blocks. */
  lemma EmptyLogRecovers(l: Layout, d: Image)
    requires l.FitsOn(d) && HeaderCount(l, d) == 0
    ensures RecoversTo(l, d, d)
  {
  }

  /** An image whose slots hold the entries' blocks of `h`, and which agrees
      with `h` elsewhere, recovers to `h`. */
  lemma SealedRecovers(l: Layout, d: Image, h: Image)
    requires ValidHeader(l, d) && |h| == |d|
    requires forall i: nat :: i < HeaderCount(l, d) ==> d[l.start + 1 + i] == h[HeaderEntry(l, d, i)]
    requires forall b: nat :: b < |d| && !l.Holds(b) && d[b] != h[b] ==>
               exists i: nat :: i < HeaderCount(l, d) && HeaderEntry(l, d, i) == b
    ensures RecoversTo(l, d, h)
  {
    var n := HeaderCount(l, d);
    forall b: nat | b < |d| && !l.Holds(b) ensures Recover(l, d)[b] == h[b] {
      if exists i: nat :: i < n && HeaderEntry(l, d, i) == b {
        InstalledEntry(l, d, h, n, b);
      } else {
        InstalledFrame(l, d, n, b);
      }
    }
  }

  lemma {:induction false} InstalledEntry(l: Layout, d: Image, h: Image, k: nat, b: nat)
    requires ValidHeader(l, d) && |h| == |d| && k <= HeaderCount(l, d) && b < |d|
    requires forall i: nat :: i < HeaderCount(l, d) ==> d[l.start + 1 + i] == h[HeaderEntry(l, d, i)]
    requires exists i: nat :: i < k && HeaderEntry(l, d, i) == b
    ensures Installed(l, d, k)[b] == h[b]
  {
    if HeaderEntry(l, d, k - 1) == b {
      assert d[l.start + 1 + (k - 1)] == h[b];
    } else {
      InstalledEntry(l, d, h, k - 1, b);
    }
  }

  lemma StopRecovers(l: Layout, d: Image, e: Image, h: Image)
    requires RecoversTo(l, d, h) && StopsAt(l, d, e)
    ensures RecoversTo(l, e, h)
  {
    if e == Recover(l, d) {
      InstalledKeepsLog(l, d, HeaderCount(l, d));
      EmptyLogRecovers(l, e);
    } else {
      var k: nat :| k <= HeaderCount(l, d) && e == Installed(l, d, k);
      ReinstallIdempotent(l, d, k);
    }
  }

  /** Recovery may itself be cut short any number of times: every image along
      the chain of reboots still recovers to the home blocks the first would. */
  lemma {:induction false} RepeatedCrashesRecover(l: Layout, reboots: seq<Image>, h: Image)
    requires |reboots| > 0 && RecoversTo(l, reboots[0], h)
    requires forall i: nat :: i + 1 < |reboots| ==>
               ValidHeader(l, reboots[i]) ==> StopsAt(l, reboots[i], reboots[i + 1])
    ensures RecoversTo(l, reboots[|reboots| - 1], h)
  {
    if |reboots| > 1 {
      var init := reboots[..|reboots| - 1];
      RepeatedCrashesRecover(l, init, h);
      StopRecovers(l, init[|init| - 1], reboots[|reboots| - 1], h);
    }
  }
}
