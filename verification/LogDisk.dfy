/** The redo log as it lies on disk: the header and log blocks, what recovery
    makes of any disk image, and the images a crash can leave behind.
    A block is its 256 little words; every bwrite is one atomic step. */
module LogDisk {
  import opened Params

  const BWORDS: nat := 256

  /** Where the log is: its header block, its length with the header, the disk's length. */
  datatype Geo = Geo(start: int, size: int, total: int)

  predicate InLog(g: Geo, b: int) { g.start <= b < g.start + g.size }

  ghost predicate DiskOk(g: Geo, d: Disk) {
    && 0 <= g.start && 1 <= g.size && g.start + g.size <= g.total
    && forall b | 0 <= b < g.total :: b in d && |d[b]| == BWORDS
  }

  /** A block list log_write can have built. */
  ghost predicate Loggable(g: Geo, bs: seq<int>) {
    && |bs| <= LOGSIZE && |bs| <= g.size - 1
    && (forall i | 0 <= i < |bs| :: 0 <= bs[i] < g.total && !InLog(g, bs[i]))
    && (forall i, j | 0 <= i < j < |bs| :: bs[i] != bs[j])
  }

  lemma LoggableAt(g: Geo, bs: seq<int>, i: nat)
    requires Loggable(g, bs) && i < |bs|
    ensures 0 <= bs[i] < g.total && !InLog(g, bs[i]) && i + 1 < g.size
  {
  }

  /** The on-disk header holds `bs`. */
  ghost predicate HeadIs(g: Geo, d: Disk, bs: seq<int>)
    requires DiskOk(g, d)
  {
    |bs| <= LOGSIZE && d[g.start][0] == |bs| && d[g.start][1..|bs| + 1] == bs
  }

  /** write_head overwrites the count and the first entries; the rest of the block stays. */
  function Encode(old_: Block, bs: seq<int>): (b: Block)
    requires |bs| <= LOGSIZE && |old_| == BWORDS
    ensures |b| == BWORDS && b[0] == |bs| && b[1..|bs| + 1] == bs
  {
    [|bs|] + bs + old_[|bs| + 1..]
  }

  function PutHead(g: Geo, d: Disk, bs: seq<int>): Disk
    requires DiskOk(g, d) && |bs| <= LOGSIZE
  {
    d[g.start := Encode(d[g.start], bs)]
  }

  /** install_trans, the first `k` blocks: log block i+1 to its home. */
  function Install(g: Geo, d: Disk, bs: seq<int>, k: nat): (d': Disk)
    requires DiskOk(g, d) && Loggable(g, bs) && k <= |bs|
    ensures DiskOk(g, d')
  {
    if k == 0 then d
    else
      var d1 := Install(g, d, bs, k - 1);
      d1[bs[k - 1] := d1[g.start + k]]
  }

  lemma InstallStep(g: Geo, d: Disk, bs: seq<int>, k: nat)
    requires DiskOk(g, d) && Loggable(g, bs) && k < |bs|
    ensures Install(g, d, bs, k + 1) == Install(g, d, bs, k)[bs[k] := Install(g, d, bs, k)[g.start + 1 + k]]
  {
  }

  lemma {:induction false} InstallOther(g: Geo, d: Disk, bs: seq<int>, k: nat, b: int)
    requires DiskOk(g, d) && Loggable(g, bs) && k <= |bs| && 0 <= b < g.total && b !in bs
    ensures Install(g, d, bs, k)[b] == d[b]
  {
    if k > 0 { InstallOther(g, d, bs, k - 1, b); }
  }

  lemma {:induction false} InstallHome(g: Geo, d: Disk, bs: seq<int>, k: nat, i: nat)
    requires DiskOk(g, d) && Loggable(g, bs) && k <= |bs| && i < |bs|
    ensures Install(g, d, bs, k)[bs[i]] == if i < k then d[g.start + 1 + i] else d[bs[i]]
  {
    if k > 0 {
      InstallHome(g, d, bs, k - 1, i);
      InstallOther(g, d, bs, k - 1, g.start + k);
    }
  }

  /** The cache holds a whole block for every logged block number. */
  ghost predicate Cached(bs: seq<int>, cache: map<int, Block>) {
    forall i | 0 <= i < |bs| :: bs[i] in cache && |cache[bs[i]]| == BWORDS
  }

  /** write_log, the first `k` blocks: cached copy i to log block i+1. */
  function Append(g: Geo, d: Disk, bs: seq<int>, cache: map<int, Block>, k: nat): (d': Disk)
    requires DiskOk(g, d) && Loggable(g, bs) && k <= |bs| && Cached(bs, cache)
    ensures DiskOk(g, d')
  {
    if k == 0 then d else Append(g, d, bs, cache, k - 1)[g.start + k := cache[bs[k - 1]]]
  }

  lemma {:induction false} AppendAt(g: Geo, d: Disk, bs: seq<int>, cache: map<int, Block>, k: nat, b: int)
    requires DiskOk(g, d) && Loggable(g, bs) && k <= |bs| && Cached(bs, cache) && 0 <= b < g.total
    ensures Append(g, d, bs, cache, k)[b] == if g.start < b <= g.start + k then cache[bs[b - g.start - 1]] else d[b]
  {
    if k > 0 { AppendAt(g, d, bs, cache, k - 1, b); }
  }

  /** The disk after `k` of the writes of recover_from_log. */
  function RecoverAfter(g: Geo, d: Disk, bs: seq<int>, k: nat): (d': Disk)
    requires DiskOk(g, d) && Loggable(g, bs) && k <= |bs| + 1
    ensures DiskOk(g, d')
  {
    if k <= |bs| then Install(g, d, bs, k) else PutHead(g, Install(g, d, bs, |bs|), [])
  }

  /** The disk after `k` of the writes of commit. */
  function CommitAfter(g: Geo, d: Disk, bs: seq<int>, cache: map<int, Block>, k: nat): (d': Disk)
    requires DiskOk(g, d) && Loggable(g, bs) && k <= 2 * |bs| + 2
    requires Cached(bs, cache)
    ensures DiskOk(g, d')
  {
    if k <= |bs| then Append(g, d, bs, cache, k)
    else RecoverAfter(g, PutHead(g, Append(g, d, bs, cache, |bs|), bs), bs, k - |bs| - 1)
  }

  /** Two images agree on every block outside the log. */
  ghost predicate SameHome(g: Geo, d: Disk, d': Disk)
    requires DiskOk(g, d) && DiskOk(g, d')
  {
    forall b | 0 <= b < g.total && !InLog(g, b) :: d[b] == d'[b]
  }

  /** `d'` is `d` with every logged block at its cached value. */
  ghost predicate NewHome(g: Geo, d: Disk, bs: seq<int>, cache: map<int, Block>, d': Disk)
    requires DiskOk(g, d) && DiskOk(g, d')
  {
    && (forall b | 0 <= b < g.total && !InLog(g, b) && b !in bs :: d'[b] == d[b])
    && (forall b | b in bs && 0 <= b < g.total :: b in cache && d'[b] == cache[b])
  }

  /** The header a valid image carries. */
  ghost function HeadOf(g: Geo, d: Disk): seq<int>
    requires DiskOk(g, d) && 0 <= d[g.start][0] <= LOGSIZE
  {
    d[g.start][1..d[g.start][0] + 1]
  }

  ghost predicate Bootable(g: Geo, d: Disk) {
    DiskOk(g, d) && 0 <= d[g.start][0] <= LOGSIZE && Loggable(g, HeadOf(g, d))
  }

  /** What a complete run of recover_from_log leaves. */
  ghost function Recovered(g: Geo, d: Disk): (d': Disk)
    requires Bootable(g, d)
    ensures DiskOk(g, d')
  {
    RecoverAfter(g, d, HeadOf(g, d), |HeadOf(g, d)| + 1)
  }

  /** A sequence of boots, each crashing after some number of recovery writes. */
  ghost function Boots(g: Geo, d: Disk, crashes: seq<nat>): (d': Disk)
    requires Bootable(g, d)
    ensures Bootable(g, d')
    decreases |crashes|
  {
    if crashes == [] then d
    else
      var bs := HeadOf(g, d);
      var k := if crashes[0] <= |bs| + 1 then crashes[0] else |bs| + 1;
      CrashBootable(g, d, k);
      Boots(g, RecoverAfter(g, d, bs, k), crashes[1..])
  }

  /** A crash inside recovery leaves the header as it was, or cleared. */
  lemma CrashBootable(g: Geo, d: Disk, k: nat)
    requires Bootable(g, d) && k <= |HeadOf(g, d)| + 1
    ensures var d' := RecoverAfter(g, d, HeadOf(g, d), k);
      Bootable(g, d') && HeadOf(g, d') == if k <= |HeadOf(g, d)| then HeadOf(g, d) else []
  {
    var bs := HeadOf(g, d);
    InstallOther(g, d, bs, if k <= |bs| then k else |bs|, g.start);
  }

  lemma RecoveredAt(g: Geo, d: Disk, b: int, i: nat)
    requires Bootable(g, d) && 0 <= b < g.total && !InLog(g, b)
    ensures var bs := HeadOf(g, d);
      && (b !in bs ==> Recovered(g, d)[b] == d[b])
      && (i < |bs| && bs[i] == b ==> Recovered(g, d)[b] == d[g.start + 1 + i])
  {
    var bs := HeadOf(g, d);
    if b !in bs { InstallOther(g, d, bs, |bs|, b); }
    if i < |bs| && bs[i] == b { InstallHome(g, d, bs, |bs|, i); }
  }

  /** Either way the log still holds every block, and recovering again gives the same homes. */
  lemma CrashInRecovery(g: Geo, d: Disk, k: nat)
    requires Bootable(g, d) && k <= |HeadOf(g, d)| + 1
    ensures var d' := RecoverAfter(g, d, HeadOf(g, d), k);
      Bootable(g, d') && SameHome(g, Recovered(g, d'), Recovered(g, d))
  {
    CrashBootable(g, d, k);
    var bs := HeadOf(g, d);
    forall b | 0 <= b < g.total && !InLog(g, b)
      ensures Recovered(g, RecoverAfter(g, d, bs, k))[b] == Recovered(g, d)[b]
    {
      CrashBlock(g, d, k, b);
    }
  }

  lemma CrashBlock(g: Geo, d: Disk, k: nat, b: int)
    requires Bootable(g, d) && k <= |HeadOf(g, d)| + 1 && 0 <= b < g.total && !InLog(g, b)
    requires Bootable(g, RecoverAfter(g, d, HeadOf(g, d), k))
    ensures Recovered(g, RecoverAfter(g, d, HeadOf(g, d), k))[b] == Recovered(g, d)[b]
  {
    CrashBootable(g, d, k);
    var bs := HeadOf(g, d);
    if k <= |bs| {
      if i :| 0 <= i < |bs| && bs[i] == b {
        CrashHome(g, d, k, i);
      } else {
        RecoveredAt(g, d, b, 0);
        RecoveredAt(g, RecoverAfter(g, d, bs, k), b, 0);
        InstallOther(g, d, bs, k, b);
      }
    }
  }

  lemma CrashHome(g: Geo, d: Disk, k: nat, i: nat)
    requires Bootable(g, d) && k <= |HeadOf(g, d)| && i < |HeadOf(g, d)|
    requires Bootable(g, Install(g, d, HeadOf(g, d), k)) && HeadOf(g, Install(g, d, HeadOf(g, d), k)) == HeadOf(g, d)
    ensures Recovered(g, Install(g, d, HeadOf(g, d), k))[HeadOf(g, d)[i]] == Recovered(g, d)[HeadOf(g, d)[i]]
  {
    var bs := HeadOf(g, d);
    RecoveredAt(g, d, bs[i], i);
    RecoveredAt(g, Install(g, d, bs, k), bs[i], i);
    InstallOther(g, d, bs, k, g.start + 1 + i);
  }

  lemma {:induction false} CrashesInRecovery(g: Geo, d: Disk, crashes: seq<nat>)
    requires Bootable(g, d)
    ensures SameHome(g, Recovered(g, Boots(g, d, crashes)), Recovered(g, d))
    decreases |crashes|
  {
    if crashes != [] {
      var bs := HeadOf(g, d);
      var k := if crashes[0] <= |bs| + 1 then crashes[0] else |bs| + 1;
      CrashInRecovery(g, d, k);
      CrashesInRecovery(g, RecoverAfter(g, d, bs, k), crashes[1..]);
    }
  }

  /** Crash atomicity of commit: after any number of its writes and any crashes while
      recovering, the homes are all old before the header write and all new after it. */
  lemma CommitAtomic(g: Geo, d: Disk, bs: seq<int>, cache: map<int, Block>, k: nat, crashes: seq<nat>)
    requires DiskOk(g, d) && HeadIs(g, d, []) && Loggable(g, bs) && k <= 2 * |bs| + 2
    requires Cached(bs, cache)
    ensures var d' := CommitAfter(g, d, bs, cache, k);
      && Bootable(g, d')
      && var r := Recovered(g, Boots(g, d', crashes));
         && HeadIs(g, r, [])
         && if k <= |bs| then SameHome(g, r, d) else NewHome(g, d, bs, cache, r)
  {
    CommitImage(g, d, bs, cache, k);
    CrashesInRecovery(g, CommitAfter(g, d, bs, cache, k), crashes);
  }

  lemma CommitImage(g: Geo, d: Disk, bs: seq<int>, cache: map<int, Block>, k: nat)
    requires DiskOk(g, d) && HeadIs(g, d, []) && Loggable(g, bs) && k <= 2 * |bs| + 2
    requires Cached(bs, cache)
    ensures var d' := CommitAfter(g, d, bs, cache, k);
      && Bootable(g, d')
      && if k <= |bs| then SameHome(g, Recovered(g, d'), d) else NewHome(g, d, bs, cache, Recovered(g, d'))
  {
    hide Append, Install, Recovered, HeadOf, Encode;
    if k <= |bs| {
      UncommittedHome(g, d, bs, cache, k);
    } else {
      LoggedHome(g, d, bs, cache);
      CrashInRecovery(g, Committed(g, d, bs, cache), k - |bs| - 1);
    }
  }

  /** Recovering before the header write. */
  lemma UncommittedHome(g: Geo, d: Disk, bs: seq<int>, cache: map<int, Block>, k: nat)
    requires DiskOk(g, d) && HeadIs(g, d, []) && Loggable(g, bs) && k <= |bs| && Cached(bs, cache)
    ensures var d' := Append(g, d, bs, cache, k); Bootable(g, d') && SameHome(g, Recovered(g, d'), d)
  {
    var d' := Append(g, d, bs, cache, k);
    AppendAt(g, d, bs, cache, k, g.start);
    assert HeadOf(g, d') == [];
    forall b | 0 <= b < g.total && !InLog(g, b) ensures Recovered(g, d')[b] == d[b] {
      RecoveredAt(g, d', b, 0);
      AppendAt(g, d, bs, cache, k, b);
    }
  }

  ghost function Committed(g: Geo, d: Disk, bs: seq<int>, cache: map<int, Block>): (d2: Disk)
    requires DiskOk(g, d) && Loggable(g, bs) && Cached(bs, cache)
    ensures Bootable(g, d2) && HeadOf(g, d2) == bs
  {
    var d2 := PutHead(g, Append(g, d, bs, cache, |bs|), bs);
    assert d2[g.start][1..|bs| + 1] == bs;
    d2
  }

  lemma LoggedBlock(g: Geo, d: Disk, bs: seq<int>, cache: map<int, Block>, i: nat)
    requires DiskOk(g, d) && Loggable(g, bs) && Cached(bs, cache) && i < |bs|
    ensures Recovered(g, Committed(g, d, bs, cache))[bs[i]] == cache[bs[i]]
  {
    RecoveredAt(g, Committed(g, d, bs, cache), bs[i], i);
    AppendAt(g, d, bs, cache, |bs|, g.start + 1 + i);
  }

  lemma UnloggedBlock(g: Geo, d: Disk, bs: seq<int>, cache: map<int, Block>, b: int)
    requires DiskOk(g, d) && Loggable(g, bs) && Cached(bs, cache) && 0 <= b < g.total && !InLog(g, b) && b !in bs
    ensures Recovered(g, Committed(g, d, bs, cache))[b] == d[b]
  {
    RecoveredAt(g, Committed(g, d, bs, cache), b, 0);
    AppendAt(g, d, bs, cache, |bs|, b);
  }

  /** Installing never disturbs the log copies. */
  lemma LogKept(g: Geo, d: Disk, bs: seq<int>, cache: map<int, Block>, k: nat, i: nat)
    requires DiskOk(g, d) && Loggable(g, bs) && Cached(bs, cache) && k <= |bs| && i < |bs|
    ensures Install(g, Committed(g, d, bs, cache), bs, k)[g.start + 1 + i] == cache[bs[i]]
  {
    hide Install, Append;
    LoggableAt(g, bs, i);
    InstallOther(g, Committed(g, d, bs, cache), bs, k, g.start + 1 + i);
    AppendAt(g, d, bs, cache, |bs|, g.start + 1 + i);
  }

  /** Recovering right after the header write. */
  lemma LoggedHome(g: Geo, d: Disk, bs: seq<int>, cache: map<int, Block>)
    requires DiskOk(g, d) && Loggable(g, bs) && Cached(bs, cache)
    ensures NewHome(g, d, bs, cache, Recovered(g, Committed(g, d, bs, cache)))
  {
    forall b | 0 <= b < g.total && !InLog(g, b) && b !in bs
      ensures Recovered(g, Committed(g, d, bs, cache))[b] == d[b]
    {
      UnloggedBlock(g, d, bs, cache, b);
    }
    forall b | b in bs && 0 <= b < g.total
      ensures b in cache && Recovered(g, Committed(g, d, bs, cache))[b] == cache[b]
    {
      var i :| 0 <= i < |bs| && bs[i] == b;
      LoggedBlock(g, d, bs, cache, i);
    }
  }

  // ---- the images each loop passes through ----

  ghost function Installs(g: Geo, d: Disk, bs: seq<int>, k: nat): (ds: seq<Disk>)
    requires DiskOk(g, d) && Loggable(g, bs) && k <= |bs|
    ensures |ds| == k
  {
    if k == 0 then [] else Installs(g, d, bs, k - 1) + [Install(g, d, bs, k)]
  }

  ghost function Appends(g: Geo, d: Disk, bs: seq<int>, cache: map<int, Block>, k: nat): (ds: seq<Disk>)
    requires DiskOk(g, d) && Loggable(g, bs) && Cached(bs, cache) && k <= |bs|
    ensures |ds| == k
  {
    if k == 0 then [] else Appends(g, d, bs, cache, k - 1) + [Append(g, d, bs, cache, k)]
  }

  ghost function RecoverTrace(g: Geo, d: Disk, bs: seq<int>): seq<Disk>
    requires DiskOk(g, d) && Loggable(g, bs)
  {
    Installs(g, d, bs, |bs|) + [RecoverAfter(g, d, bs, |bs| + 1)]
  }

  ghost function CommitTrace(g: Geo, d: Disk, bs: seq<int>, cache: map<int, Block>): seq<Disk>
    requires DiskOk(g, d) && Loggable(g, bs) && Cached(bs, cache)
  {
    Appends(g, d, bs, cache, |bs|) + [Committed(g, d, bs, cache)] + RecoverTrace(g, Committed(g, d, bs, cache), bs)
  }

  lemma {:induction false} InstallsAt(g: Geo, d: Disk, bs: seq<int>, k: nat, i: nat)
    requires DiskOk(g, d) && Loggable(g, bs) && i < k <= |bs|
    ensures Installs(g, d, bs, k)[i] == Install(g, d, bs, i + 1)
  {
    if i < k - 1 { InstallsAt(g, d, bs, k - 1, i); }
  }

  lemma {:induction false} AppendsAt(g: Geo, d: Disk, bs: seq<int>, cache: map<int, Block>, k: nat, i: nat)
    requires DiskOk(g, d) && Loggable(g, bs) && Cached(bs, cache) && i < k <= |bs|
    ensures Appends(g, d, bs, cache, k)[i] == Append(g, d, bs, cache, i + 1)
  {
    if i < k - 1 { AppendsAt(g, d, bs, cache, k - 1, i); }
  }

  /** Image `k` of a recovery, counting writes. */
  lemma RecoverTraceAt(g: Geo, d: Disk, bs: seq<int>, k: nat)
    requires DiskOk(g, d) && Loggable(g, bs) && k <= |bs|
    ensures |RecoverTrace(g, d, bs)| == |bs| + 1 && RecoverTrace(g, d, bs)[k] == RecoverAfter(g, d, bs, k + 1)
  {
    if k < |bs| { InstallsAt(g, d, bs, |bs|, k); }
  }

  /** Image `k` of a commit, counting writes. */
  lemma CommitTraceAt(g: Geo, d: Disk, bs: seq<int>, cache: map<int, Block>, k: nat)
    requires DiskOk(g, d) && Loggable(g, bs) && Cached(bs, cache) && k < 2 * |bs| + 2
    ensures |CommitTrace(g, d, bs, cache)| == 2 * |bs| + 2
    ensures CommitTrace(g, d, bs, cache)[k] == CommitAfter(g, d, bs, cache, k + 1)
  {
    RecoverTraceAt(g, Committed(g, d, bs, cache), bs, if k <= |bs| then 0 else k - |bs| - 1);
    if k < |bs| { AppendsAt(g, d, bs, cache, |bs|, k); }
  }

  /** Crash atomicity for the disk trace a commit leaves: stop after any of its writes, reboot with
      any crashes, and the homes are all old until the header write and all new from it on. */
  lemma TraceAtomic(g: Geo, d: Disk, bs: seq<int>, cache: map<int, Block>, k: nat, crashes: seq<nat>)
    requires DiskOk(g, d) && HeadIs(g, d, []) && Loggable(g, bs) && Cached(bs, cache)
    requires k < |CommitTrace(g, d, bs, cache)|
    ensures var d' := CommitTrace(g, d, bs, cache)[k];
      && Bootable(g, d')
      && var r := Recovered(g, Boots(g, d', crashes));
         && HeadIs(g, r, [])
         && if k < |bs| then SameHome(g, r, d) else NewHome(g, d, bs, cache, r)
  {
    CommitTraceAt(g, d, bs, cache, 0);
    CommitTraceAt(g, d, bs, cache, k);
    CommitAtomic(g, d, bs, cache, k + 1, crashes);
  }

  /** The in-memory log header and the disk under it; `trace` remembers the image after every bwrite. */
  class Log {
    const g: Geo
    var disk: Disk
    var cache: map<int, Block>    // the pinned buffers
    var n: nat
    var block: array<int>
    ghost var trace: seq<Disk>

    ghost predicate Valid()
      reads this, block
    {
      DiskOk(g, disk) && block.Length == LOGSIZE && n <= LOGSIZE
    }

    ghost function Blocks(): seq<int>
      reads this, block
      requires Valid()
    {
      block[..n]
    }

    method Bwrite(b: int, data: Block)
      requires Valid() && 0 <= b < g.total && |data| == BWORDS
      modifies this`disk, this`trace
      ensures Valid() && disk == old(disk)[b := data] && trace == old(trace) + [disk]
    {
      disk := disk[b := data];
      trace := trace + [disk];
    }

    method ReadHead()
      requires Valid() && Bootable(g, disk)
      modifies this`n, block
      ensures Valid() && Blocks() == HeadOf(g, disk)
    {
      var lh := disk[g.start];
      n := lh[0];
      var i := 0;
      while i < n
        invariant 0 <= i <= n && n == lh[0] && block[..i] == lh[1..i + 1]
      {
        block[i] := lh[i + 1];
        i := i + 1;
      }
    }

    method WriteHead()
      requires Valid()
      modifies this`disk, this`trace
      ensures Valid() && disk == PutHead(g, old(disk), Blocks()) && trace == old(trace) + [disk]
    {
      var hb := disk[g.start];
      hb := hb[0 := n];
      var i := 0;
      while i < n
        invariant 0 <= i <= n && |hb| == BWORDS && hb[0] == n
        invariant hb[1..i + 1] == block[..i] && hb[i + 1..] == disk[g.start][i + 1..]
      {
        hb := hb[i + 1 := block[i]];
        i := i + 1;
      }
      assert hb == Encode(disk[g.start], Blocks());
      Bwrite(g.start, hb);
    }

    /** install_trans: every image on the way is the recovery image of that many blocks. */
    method InstallTrans()
      requires Valid() && Loggable(g, Blocks())
      modifies this`disk, this`trace
      ensures Valid() && disk == Install(g, old(disk), Blocks(), n)
      ensures trace == old(trace) + Installs(g, old(disk), Blocks(), n)
    {
      hide Loggable;
      var tail := 0;
      while tail < n
        invariant 0 <= tail <= n && Valid() && disk == Install(g, old(disk), Blocks(), tail)
        invariant trace == old(trace) + Installs(g, old(disk), Blocks(), tail)
      {
        LoggableAt(g, Blocks(), tail);
        assert Blocks()[tail] == block[tail];
        var lbuf := disk[g.start + tail + 1];
        Bwrite(block[tail], lbuf);
        tail := tail + 1;
      }
    }

    /** write_log: the pinned buffers to the log blocks. */
    method WriteLog()
      requires Valid() && Loggable(g, Blocks()) && Cached(Blocks(), cache)
      modifies this`disk, this`trace
      ensures Valid() && disk == Append(g, old(disk), Blocks(), cache, n)
      ensures trace == old(trace) + Appends(g, old(disk), Blocks(), cache, n)
    {
      hide Loggable;
      var tail := 0;
      while tail < n
        invariant 0 <= tail <= n && Valid() && disk == Append(g, old(disk), Blocks(), cache, tail)
        invariant trace == old(trace) + Appends(g, old(disk), Blocks(), cache, tail)
      {
        LoggableAt(g, Blocks(), tail);
        assert Blocks()[tail] == block[tail];
        Bwrite(g.start + tail + 1, cache[block[tail]]);
        tail := tail + 1;
      }
    }

    /** recover_from_log, from any image a crash can leave. */
    method RecoverFromLog()
      requires Valid() && Bootable(g, disk)
      modifies this`disk, this`trace, this`n, block
      ensures Valid() && n == 0 && disk == Recovered(g, old(disk))
      ensures trace == old(trace) + RecoverTrace(g, old(disk), HeadOf(g, old(disk)))
    {
      hide Loggable, Install, Installs, Encode;
      ReadHead();
      ghost var bs := Blocks();
      InstallTrans();
      n := 0;
      WriteHead();
      assert Blocks() == [];
    }

    /** commit: the images it passes through are those TraceAtomic speaks about. */
    method Commit()
      requires Valid() && Loggable(g, Blocks()) && Cached(Blocks(), cache)
      modifies this`disk, this`trace, this`n
      ensures Valid() && n == 0
      ensures var bs := old(Blocks());
        if bs == [] then disk == old(disk) && trace == old(trace)
        else
          && disk == CommitAfter(g, old(disk), bs, cache, 2 * |bs| + 2)
          && trace == old(trace) + CommitTrace(g, old(disk), bs, cache)
    {
      hide Loggable, Cached, Install, Installs, Append, Appends, Encode;
      ghost var bs := Blocks();
      if n > 0 {
        WriteLog();
        WriteHead();
        assert disk == Committed(g, old(disk), bs, cache);
        InstallTrans();
        n := 0;
        WriteHead();
        assert Blocks() == [];
      }
    }
  }
}
