/** The on-disk log: a header block naming home blocks, then their new contents. */
module LogDisk {
  import opened Params
  import opened Blocks

  predicate InLog(c: Config, x: int) {
    c.start <= x < c.start + c.size
  }

  /** A block outside the log area. */
  predicate Home(c: Config, x: int) {
    0 <= x < c.disksize && !InLog(c, x)
  }

  /** The log area has a header block, lies on the disk, and a header fits in a block. */
  predicate WfConfig(c: Config) {
    && 1 <= c.size
    && c.start + c.size <= c.disksize
    && c.logsize + 1 < WORDS
  }

  /** The log block with the contents of the i-th logged block. */
  function Slot(c: Config, i: nat): nat {
    c.start + i + 1
  }

  /** struct logheader, as read_head reads it; nothing when it cannot be a header. */
  function HeadOf(b: Block): seq<nat> {
    if 0 <= b[0] < WORDS && forall i :: 1 <= i < 1 + b[0] ==> b[i] >= 0 then b[1..1 + b[0]] else []
  }

  /** The block is a header with exactly these entries. */
  predicate IsHead(b: Block, h: seq<nat>) {
    b[0] == |h| && HeadOf(b) == h
  }

  /** write_head: n and its entries are stored, the rest of the block stays. */
  function PutHead(b: Block, lh: seq<nat>): (r: Block)
    requires |lh| < WORDS
    ensures IsHead(r, lh)
    ensures forall i :: |lh| < i < WORDS ==> r[i] == b[i]
  {
    var r := [|lh|] + lh + b[1 + |lh|..];
    assert r[1..1 + |lh|] == lh;
    assert forall i :: 1 <= i < 1 + |lh| ==> r[i] == lh[i - 1];
    r
  }

  function Header(c: Config, d: Disk): seq<nat>
    requires c.start < |d|
  {
    HeadOf(d[c.start])
  }

  /** A header that commit may have written: its blocks fit in the log area. */
  predicate WfHead(c: Config, h: seq<nat>) {
    && |h| <= c.logsize && |h| <= c.size - 1
    && (forall i :: 0 <= i < |h| ==> Home(c, h[i]))
    && (forall i, j :: 0 <= i < j < |h| ==> h[i] != h[j])
  }

  predicate WfDisk(c: Config, d: Disk) {
    WfConfig(c) && |d| == c.disksize && IsHead(d[c.start], Header(c, d)) && WfHead(c, Header(c, d))
  }

  /** install_trans after n rounds of its loop. */
  function Install(c: Config, d: Disk, h: seq<nat>, n: nat): (r: Disk)
    requires WfConfig(c) && |d| == c.disksize && WfHead(c, h) && n <= |h|
    ensures |r| == |d|
  {
    if n == 0 then d else Install(c, d, h, n - 1)[h[n - 1] := d[Slot(c, n - 1)]]
  }

  /** The disk after each of the first n rounds. */
  function InstallTrace(c: Config, d: Disk, h: seq<nat>, n: nat): (r: seq<Disk>)
    requires WfConfig(c) && |d| == c.disksize && WfHead(c, h) && n <= |h|
    ensures |r| == n && forall k :: 0 <= k < n ==> r[k] == Install(c, d, h, k + 1)
  {
    if n == 0 then [] else InstallTrace(c, d, h, n - 1) + [Install(c, d, h, n)]
  }

  /** recover_from_log. */
  function Recover(c: Config, d: Disk): (r: Disk)
    requires WfDisk(c, d)
    ensures |r| == |d|
  {
    Install(c, d, Header(c, d), |Header(c, d)|)[c.start := PutHead(d[c.start], [])]
  }

  /** Committed contents v: in the log for the blocks the header names, at home for the others. */
  ghost predicate Durable(c: Config, d: Disk, v: Disk)
    requires WfDisk(c, d) && |v| == |d|
  {
    var h := Header(c, d);
    && (forall i :: 0 <= i < |h| ==> d[Slot(c, i)] == v[h[i]])
    && (forall x :: Home(c, x) && x !in h ==> d[x] == v[x])
  }

  lemma {:induction false} InstallAt(c: Config, d: Disk, h: seq<nat>, n: nat)
    requires WfConfig(c) && |d| == c.disksize && WfHead(c, h) && n <= |h|
    ensures forall i :: 0 <= i < n ==> Install(c, d, h, n)[h[i]] == d[Slot(c, i)]
    ensures forall x :: 0 <= x < |d| && x !in h[..n] ==> Install(c, d, h, n)[x] == d[x]
  {
    if n > 0 {
      InstallAt(c, d, h, n - 1);
      assert h[..n] == h[..n - 1] + [h[n - 1]];
    }
  }

  /** Recovery finds exactly the committed contents. */
  lemma RecoverDurable(c: Config, d: Disk, v: Disk)
    requires WfDisk(c, d) && |v| == |d|
    ensures Durable(c, d, v) <==> forall x :: Home(c, x) ==> Recover(c, d)[x] == v[x]
  {
    var h := Header(c, d);
    InstallAt(c, d, h, |h|);
    assert h[..|h|] == h;
    var r := Recover(c, d);
    assert forall i :: 0 <= i < |h| ==> r[h[i]] == d[Slot(c, i)];
    assert forall x :: Home(c, x) && x !in h ==> r[x] == d[x];
    if forall x :: Home(c, x) ==> r[x] == v[x] {
      assert Durable(c, d, v);
    }
  }

  /** Recovery is idempotent: a recovered disk has an empty log and recovers to itself. */
  lemma RecoverTwice(c: Config, d: Disk)
    requires WfDisk(c, d)
    ensures Header(c, Recover(c, d)) == [] && WfDisk(c, Recover(c, d))
    ensures Recover(c, Recover(c, d)) == Recover(c, d)
  {
    var r := Recover(c, d);
    var b := r[c.start];
    assert IsHead(b, []);
    assert PutHead(b, []) == b;
  }

  // ---- the disks a commit leaves on its way ----

  /** write_log after n rounds: the log blocks hold the contents v of the logged blocks. */
  function LogWritten(c: Config, d: Disk, h: seq<nat>, v: Disk, n: nat): (r: Disk)
    requires WfConfig(c) && |d| == |v| == c.disksize && WfHead(c, h) && n <= |h|
    ensures |r| == |d|
  {
    if n == 0 then d else LogWritten(c, d, h, v, n - 1)[Slot(c, n - 1) := v[h[n - 1]]]
  }

  /** The disk after each of the first n rounds. */
  function LogTrace(c: Config, d: Disk, h: seq<nat>, v: Disk, n: nat): (r: seq<Disk>)
    requires WfConfig(c) && |d| == |v| == c.disksize && WfHead(c, h) && n <= |h|
    ensures |r| == n && forall k :: 0 <= k < n ==> r[k] == LogWritten(c, d, h, v, k + 1)
  {
    if n == 0 then [] else LogTrace(c, d, h, v, n - 1) + [LogWritten(c, d, h, v, n)]
  }

  lemma {:induction false} LogWrittenAt(c: Config, d: Disk, h: seq<nat>, v: Disk, n: nat, i: nat)
    requires WfConfig(c) && |d| == |v| == c.disksize && WfHead(c, h) && i < n <= |h|
    ensures LogWritten(c, d, h, v, n)[Slot(c, i)] == v[h[i]]
  {
    if i < n - 1 { LogWrittenAt(c, d, h, v, n - 1, i); }
  }

  lemma {:induction false} LogWrittenElsewhere(c: Config, d: Disk, h: seq<nat>, v: Disk, n: nat, x: nat)
    requires WfConfig(c) && |d| == |v| == c.disksize && WfHead(c, h) && n <= |h|
    requires x < |d| && (x == c.start || !InLog(c, x))
    ensures LogWritten(c, d, h, v, n)[x] == d[x]
  {
    if n > 0 { LogWrittenElsewhere(c, d, h, v, n - 1, x); }
  }

  /** The disk after write_head stored the header h. */
  function WithHead(c: Config, d: Disk, h: seq<nat>): Disk
    requires WfConfig(c) && |d| == c.disksize && |h| <= c.logsize
  {
    d[c.start := PutHead(d[c.start], h)]
  }

  /** The disk after the k-th of the 2n + 2 writes of a commit, counted from 0. */
  function CommitDisk(c: Config, d: Disk, h: seq<nat>, v: Disk, k: nat): (r: Disk)
    requires WfConfig(c) && |d| == |v| == c.disksize && WfHead(c, h) && k < 2 * |h| + 2
    ensures |r| == |d|
  {
    var n := |h|;
    if k < n then LogWritten(c, d, h, v, k + 1)
    else
      var logged := WithHead(c, LogWritten(c, d, h, v, n), h);
      if k <= 2 * n then Install(c, logged, h, k - n)
      else WithHead(c, Install(c, logged, h, n), [])
  }

  /** Installing from a disk whose log is committed only brings blocks home. */
  lemma InstallIsDurable(c: Config, d: Disk, v: Disk, n: nat)
    requires WfDisk(c, d) && |v| == |d| && Durable(c, d, v) && n <= |Header(c, d)|
    ensures WfDisk(c, Install(c, d, Header(c, d), n)) && Durable(c, Install(c, d, Header(c, d), n), v)
    ensures Header(c, Install(c, d, Header(c, d), n)) == Header(c, d)
    ensures n == |Header(c, d)| ==> forall x :: Home(c, x) ==> Install(c, d, Header(c, d), n)[x] == v[x]
  {
    var h := Header(c, d);
    var r := Install(c, d, h, n);
    InstallAt(c, d, h, n);
    assert InLog(c, c.start) && c.start !in h[..n];
    assert r[c.start] == d[c.start];
    forall i | 0 <= i < |h|
      ensures r[Slot(c, i)] == v[h[i]]
    {
      assert InLog(c, Slot(c, i)) && Slot(c, i) !in h[..n];
    }
    forall x | Home(c, x) && x !in h
      ensures r[x] == v[x]
    {
      assert x !in h[..n];
    }
    if n == |h| {
      assert h[..n] == h;
    }
  }

  /** With an empty log the committed contents are at home. */
  lemma EmptyLogDurable(c: Config, d: Disk, v: Disk)
    requires WfConfig(c) && |d| == |v| == c.disksize && IsHead(d[c.start], [])
    requires forall x :: Home(c, x) ==> d[x] == v[x]
    ensures WfDisk(c, d) && Durable(c, d, v)
  {
  }

  /** The commit point: log blocks and header are on disk. */
  lemma LoggedIsDurable(c: Config, d: Disk, h: seq<nat>, v: Disk, w: Disk, r: Disk)
    requires WfConfig(c) && |d| == |v| == c.disksize && WfHead(c, h)
    requires forall x :: Home(c, x) && x !in h ==> d[x] == v[x]
    requires w == LogWritten(c, d, h, v, |h|) && r == WithHead(c, w, h)
    ensures WfDisk(c, r) && Header(c, r) == h && Durable(c, r, v)
  {
    hide HeadOf, PutHead, LogWritten;
    assert r[c.start] == PutHead(w[c.start], h);
    forall i | 0 <= i < |h|
      ensures r[Slot(c, i)] == v[h[i]]
    {
      LogWrittenAt(c, d, h, v, |h|, i);
    }
    forall x | Home(c, x) && x !in h
      ensures r[x] == v[x]
    {
      LogWrittenElsewhere(c, d, h, v, |h|, x);
    }
  }

  /**
   Crash atomicity of one commit. d has an empty log, v differs from it only in
   the logged blocks h. After each of the commit's writes the disk recovers to
   d's home blocks if the header has not been written, and to v's if it has.
   */
  lemma CommitIsAtomic(c: Config, d: Disk, h: seq<nat>, v: Disk, k: nat)
    requires WfConfig(c) && |d| == |v| == c.disksize && WfHead(c, h) && k < 2 * |h| + 2
    requires IsHead(d[c.start], []) && forall x :: Home(c, x) && x !in h ==> d[x] == v[x]
    ensures WfDisk(c, CommitDisk(c, d, h, v, k))
    ensures forall x :: Home(c, x) ==> Recover(c, CommitDisk(c, d, h, v, k))[x] == if k < |h| then d[x] else v[x]
    ensures k == 2 * |h| + 1 ==> Header(c, CommitDisk(c, d, h, v, k)) == []
                                 && forall x :: Home(c, x) ==> CommitDisk(c, d, h, v, k)[x] == v[x]
  {
    hide Durable, Recover, Install, LogWritten, HeadOf, PutHead;
    var n := |h|;
    var r := CommitDisk(c, d, h, v, k);
    if k < n {
      LogWrittenElsewhere(c, d, h, v, k + 1, c.start);
      forall x | Home(c, x)
        ensures r[x] == d[x]
      {
        LogWrittenElsewhere(c, d, h, v, k + 1, x);
      }
      EmptyLogDurable(c, r, d);
      RecoverDurable(c, r, d);
    } else {
      var w := LogWritten(c, d, h, v, n);
      var logged := WithHead(c, w, h);
      LoggedIsDurable(c, d, h, v, w, logged);
      InstallIsDurable(c, logged, v, if k <= 2 * n then k - n else n);
      if k > 2 * n {
        assert r[c.start] == PutHead(Install(c, logged, h, n)[c.start], []);
        forall x | Home(c, x)
          ensures r[x] == v[x]
        {
          assert x != c.start by { assert InLog(c, c.start); }
        }
        EmptyLogDurable(c, r, v);
      }
      RecoverDurable(c, r, v);
    }
  }

  /** All the disks of a commit, in order. */
  function CommitTrace(c: Config, d: Disk, h: seq<nat>, v: Disk): seq<Disk>
    requires WfConfig(c) && |d| == |v| == c.disksize && WfHead(c, h)
  {
    var logged := WithHead(c, LogWritten(c, d, h, v, |h|), h);
    LogTrace(c, d, h, v, |h|) + [logged] + InstallTrace(c, logged, h, |h|) + [WithHead(c, Install(c, logged, h, |h|), [])]
  }

  lemma CommitTraceIs(c: Config, d: Disk, h: seq<nat>, v: Disk, k: nat)
    requires WfConfig(c) && |d| == |v| == c.disksize && WfHead(c, h) && k < 2 * |h| + 2
    ensures |CommitTrace(c, d, h, v)| == 2 * |h| + 2
    ensures CommitTrace(c, d, h, v)[k] == CommitDisk(c, d, h, v, k)
  {
    hide PutHead, HeadOf;
    var n := |h|;
    var logged := WithHead(c, LogWritten(c, d, h, v, n), h);
    var a, b := LogTrace(c, d, h, v, n), InstallTrace(c, logged, h, n);
    var t := CommitTrace(c, d, h, v);
    if k < n {
      assert t[k] == a[k];
    } else if k == n {
      assert t[k] == logged;
    } else if k <= 2 * n {
      assert t[k] == b[k - n - 1];
    }
  }

  /** Every disk a recovery passes through recovers to the same home blocks. */
  lemma RecoveryStaysDurable(c: Config, d: Disk, k: nat)
    requires WfDisk(c, d) && k <= |Header(c, d)|
    ensures WfDisk(c, Install(c, d, Header(c, d), k))
    ensures forall x :: Home(c, x) ==> Recover(c, Install(c, d, Header(c, d), k))[x] == Recover(c, d)[x]
  {
    hide HeadOf, PutHead, WfHead;
    var v := Recover(c, d);
    RecoverDurable(c, d, v);
    InstallIsDurable(c, d, v, k);
    RecoverDurable(c, Install(c, d, Header(c, d), k), v);
  }

  lemma RecoverIsInstallThenClear(c: Config, d: Disk)
    requires WfDisk(c, d)
    ensures WithHead(c, Install(c, d, Header(c, d), |Header(c, d)|), []) == Recover(c, d)
  {
    hide HeadOf, PutHead;
    InstallAt(c, d, Header(c, d), |Header(c, d)|);
    assert InLog(c, c.start) && c.start !in Header(c, d)[..|Header(c, d)|];
  }
}
