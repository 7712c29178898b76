/** Buffer cache and log running together: any number of threads take, lock, fill, modify, log
    and release buffers while one of them commits.  Buffer data is protected by its sleep
    lock, so a copy into a locked buffer and the bwrite after it are one step. */
module LogSystem {
  import opened Option
  import opened Params
  import opened LogDisk

  /** struct buf; `users` are the threads that took it with bget and have not released it,
      `dirty` says that its holder changed the data and has not logged it yet. */
  datatype Buf = Buf(key: Option<int>, valid: bool, refcnt: nat, data: Block,
                     holder: Option<nat>, users: set<nat>, dirty: bool)

  /** One outstanding FS system call and the distinct blocks it has logged. */
  datatype Op = Op(tid: nat, blocks: set<int>)

  datatype Phase =
    | NoCommit                    // commit is not running
    | Logging(k: nat)             // write_log has copied k blocks
    | Installing(k: nat)          // install_trans has copied and unpinned k blocks
    | Clearing(bs: seq<int>)      // lh.n is 0 again, the header on disk still holds bs
    | Finished                    // commit is over, committing is still set

  /** `logical` is the last logged content of every home block, `base` the disk when the
      running commit began, `image` the homes a crash now would come back with. */
  datatype State = State(g: Geo, disk: Disk, bufs: seq<Buf>, lh: seq<int>, ops: seq<Op>,
                         committer: Option<nat>, phase: Phase, logical: Disk, base: Disk, image: Disk)

  datatype Step =
    | Begin(t: nat)
    | End(o: nat)
    | Get(t: nat, b: int, i: nat)
    | Lock(t: nat, i: nat)
    | Fill(t: nat, i: nat)
    | Modify(t: nat, i: nat, data: Block)
    | LogWrite(o: nat, i: nat)
    | Unlock(t: nat, i: nat)
    | Drop(t: nat, i: nat)
    | WriteLogBlock(dst: nat, src: nat)
    | CommitHead(h: nat)
    | InstallBlock(src: nat, dst: nat)
    | ForgetBlocks
    | ClearHead(h: nat)
    | Finish

  /** The blocks that hold a pin. */
  function Pinned(s: State): seq<int> {
    if s.phase.Installing? && s.phase.k <= |s.lh| then s.lh[s.phase.k..] else s.lh
  }

  ghost predicate InOps(ops: seq<Op>, t: nat) { exists o :: 0 <= o < |ops| && ops[o].tid == t }

  function Content(s: State, b: int): Block
    requires b in s.disk && b in s.logical
  {
    if InLog(s.g, b) then s.disk[b] else s.logical[b]
  }

  // ---- the steps ----

  /** Thread `t` holds buffer `i`, valid, for block `b`. */
  predicate Holds(s: State, t: nat, i: nat, b: int) {
    && i < |s.bufs| && s.bufs[i].holder == Some(t)
    && s.bufs[i].valid && s.bufs[i].key == Some(b) && |s.bufs[i].data| == BWORDS
  }

  predicate Committer(s: State, t: nat) { s.committer == Some(t) }

  /** log_write's panic guard (kernel/log.c:220). */
  predicate LogFull(s: State) { |s.lh| >= LOGSIZE || |s.lh| >= s.g.size - 1 }

  /** begin_op, once it does not have to sleep. */
  ghost predicate CanBegin(s: State, t: nat) {
    s.committer == None && |s.lh| + (|s.ops| + 1) * MAXOPBLOCKS <= LOGSIZE && !InOps(s.ops, t)
  }

  ghost function DoBegin(s: State, t: nat): State { s.(ops := s.ops + [Op(t, {})]) }

  /** end_op; the caller has logged or released everything it changed. */
  ghost predicate CanEnd(s: State, o: nat) {
    && o < |s.ops| && s.committer == None
    && forall i | 0 <= i < |s.bufs| :: s.bufs[i].holder == Some(s.ops[o].tid) ==> !s.bufs[i].dirty
  }

  ghost function DoEnd(s: State, o: nat): State
    requires CanEnd(s, o)
  {
    var s' := s.(ops := s.ops[..o] + s.ops[o + 1..]);
    if |s.ops| > 1 then s'
    else s'.(committer := Some(s.ops[o].tid), base := s.disk, phase := if s.lh == [] then Finished else Logging(0))
  }

  /** bget: the cached buffer of `b`, or an unreferenced one when `b` is not cached.
      Only the committer touches the log region. */
  ghost predicate CanGet(s: State, t: nat, b: int, i: nat) {
    && 0 <= b < s.g.total && i < |s.bufs| && t !in s.bufs[i].users && (InLog(s.g, b) ==> Committer(s, t))
    && (s.bufs[i].key == Some(b) || (s.bufs[i].refcnt == 0 && forall j | 0 <= j < |s.bufs| :: s.bufs[j].key != Some(b)))
  }

  ghost function DoGet(s: State, t: nat, b: int, i: nat): State
    requires CanGet(s, t, b, i)
  {
    var x := s.bufs[i];
    if x.key == Some(b) then SetBuf(s, i, x.(refcnt := x.refcnt + 1, users := x.users + {t}))
    else SetBuf(s, i, Buf(Some(b), false, 1, x.data, None, {t}, false))
  }

  /** acquiresleep on the buffer. */
  ghost predicate CanLock(s: State, t: nat, i: nat) {
    i < |s.bufs| && t in s.bufs[i].users && s.bufs[i].holder == None
  }

  ghost function DoLock(s: State, t: nat, i: nat): State
    requires CanLock(s, t, i)
  {
    SetBuf(s, i, s.bufs[i].(holder := Some(t)))
  }

  /** bread's disk read. */
  ghost predicate CanFill(s: State, t: nat, i: nat) {
    && i < |s.bufs| && s.bufs[i].holder == Some(t) && !s.bufs[i].valid
    && s.bufs[i].key.Some? && s.bufs[i].key.value in s.disk
  }

  ghost function DoFill(s: State, t: nat, i: nat): State
    requires CanFill(s, t, i)
  {
    SetBuf(s, i, s.bufs[i].(data := s.disk[s.bufs[i].key.value], valid := true))
  }

  /** The holder changes the data, inside a call. */
  ghost predicate CanModify(s: State, t: nat, i: nat, data: Block) {
    && i < |s.bufs| && s.bufs[i].holder == Some(t) && s.bufs[i].valid && InOps(s.ops, t) && |data| == BWORDS
    && s.bufs[i].key.Some? && !InLog(s.g, s.bufs[i].key.value)
  }

  ghost function DoModify(s: State, t: nat, i: nat, data: Block): State
    requires CanModify(s, t, i, data)
  {
    SetBuf(s, i, s.bufs[i].(data := data, dirty := true))
  }

  /** log_write past its panics, by a call that keeps to MAXOPBLOCKS distinct blocks. */
  ghost predicate CanLog(s: State, o: nat, i: nat) {
    && o < |s.ops| && i < |s.bufs| && s.bufs[i].key.Some? && Holds(s, s.ops[o].tid, i, s.bufs[i].key.value)
    && !InLog(s.g, s.bufs[i].key.value) && !LogFull(s)
    && |s.ops[o].blocks + {s.bufs[i].key.value}| <= MAXOPBLOCKS
  }

  ghost function DoLog(s: State, o: nat, i: nat): State
    requires CanLog(s, o, i)
  {
    var x, b := s.bufs[i], s.bufs[i].key.value;
    var s1 := s.(ops := s.ops[o := s.ops[o].(blocks := s.ops[o].blocks + {b})], logical := s.logical[b := x.data]);
    if b in s.lh then SetBuf(s1, i, x.(dirty := false))
    else SetBuf(s1.(lh := s.lh + [b]), i, x.(dirty := false, refcnt := x.refcnt + 1))
  }

  /** The first half of brelse, releasesleep, only of a buffer whose changes are logged. */
  ghost predicate CanUnlock(s: State, t: nat, i: nat) {
    i < |s.bufs| && s.bufs[i].holder == Some(t) && !s.bufs[i].dirty
  }

  ghost function DoUnlock(s: State, t: nat, i: nat): State
    requires CanUnlock(s, t, i)
  {
    SetBuf(s, i, s.bufs[i].(holder := None))
  }

  /** The second half of brelse, the reference; by now another thread may hold the buffer. */
  ghost predicate CanDrop(s: State, t: nat, i: nat) {
    i < |s.bufs| && t in s.bufs[i].users && s.bufs[i].holder != Some(t) && s.bufs[i].refcnt > 0
  }

  ghost function DoDrop(s: State, t: nat, i: nat): State
    requires CanDrop(s, t, i)
  {
    SetBuf(s, i, s.bufs[i].(users := s.bufs[i].users - {t}, refcnt := s.bufs[i].refcnt - 1))
  }

  /** write_log, one block: memmove and bwrite of the log buffer. */
  ghost predicate CanWriteLog(s: State, dst: nat, src: nat) {
    && s.phase.Logging? && s.phase.k < |s.lh| && s.committer.Some?
    && Holds(s, s.committer.value, dst, s.g.start + 1 + s.phase.k) && Holds(s, s.committer.value, src, s.lh[s.phase.k])
  }

  ghost function DoWriteLog(s: State, dst: nat, src: nat): State
    requires CanWriteLog(s, dst, src)
  {
    var data := s.bufs[src].data;
    SetBuf(s, dst, s.bufs[dst].(data := data)).(disk := s.disk[s.g.start + 1 + s.phase.k := data],
                                                phase := Logging(s.phase.k + 1))
  }

  /** The first write_head: the transaction commits. */
  ghost predicate CanCommitHead(s: State, h: nat) {
    s.phase == Logging(|s.lh|) && |s.lh| <= LOGSIZE && s.committer.Some? && Holds(s, s.committer.value, h, s.g.start)
  }

  ghost function DoCommitHead(s: State, h: nat): State
    requires CanCommitHead(s, h)
  {
    var data := Encode(s.bufs[h].data, s.lh);
    SetBuf(s, h, s.bufs[h].(data := data)).(disk := s.disk[s.g.start := data], phase := Installing(0),
                                            image := s.logical)
  }

  /** install_trans, one block: memmove, bwrite of the home buffer, bunpin. */
  ghost predicate CanInstall(s: State, src: nat, dst: nat) {
    && s.phase.Installing? && s.phase.k < |s.lh| && s.committer.Some?
    && Holds(s, s.committer.value, src, s.g.start + 1 + s.phase.k) && Holds(s, s.committer.value, dst, s.lh[s.phase.k])
    && s.bufs[dst].refcnt > 0
  }

  ghost function DoInstall(s: State, src: nat, dst: nat): State
    requires CanInstall(s, src, dst)
  {
    var data := s.bufs[src].data;
    SetBuf(s, dst, s.bufs[dst].(data := data, refcnt := s.bufs[dst].refcnt - 1))
      .(disk := s.disk[s.lh[s.phase.k] := data], phase := Installing(s.phase.k + 1))
  }

  /** log.lh.n = 0. */
  ghost predicate CanForget(s: State) { s.phase == Installing(|s.lh|) }

  ghost function DoForget(s: State): State { s.(lh := [], phase := Clearing(s.lh)) }

  /** The second write_head: the log is empty again. */
  ghost predicate CanClearHead(s: State, h: nat) {
    s.phase.Clearing? && s.committer.Some? && Holds(s, s.committer.value, h, s.g.start)
  }

  ghost function DoClearHead(s: State, h: nat): State
    requires CanClearHead(s, h)
  {
    var data := Encode(s.bufs[h].data, []);
    SetBuf(s, h, s.bufs[h].(data := data)).(disk := s.disk[s.g.start := data], phase := Finished)
  }

  /** log.committing = 0. */
  ghost predicate CanFinish(s: State) { s.phase == Finished }

  ghost function DoFinish(s: State): State { s.(committer := None, phase := NoCommit) }

  ghost predicate Enabled(s: State, st: Step) {
    match st
    case Begin(t) => CanBegin(s, t)
    case End(o) => CanEnd(s, o)
    case Get(t, b, i) => CanGet(s, t, b, i)
    case Lock(t, i) => CanLock(s, t, i)
    case Fill(t, i) => CanFill(s, t, i)
    case Modify(t, i, data) => CanModify(s, t, i, data)
    case LogWrite(o, i) => CanLog(s, o, i)
    case Unlock(t, i) => CanUnlock(s, t, i)
    case Drop(t, i) => CanDrop(s, t, i)
    case WriteLogBlock(dst, src) => CanWriteLog(s, dst, src)
    case CommitHead(h) => CanCommitHead(s, h)
    case InstallBlock(src, dst) => CanInstall(s, src, dst)
    case ForgetBlocks => CanForget(s)
    case ClearHead(h) => CanClearHead(s, h)
    case Finish => CanFinish(s)
  }

  ghost function Apply(s: State, st: Step): State
    requires Enabled(s, st)
  {
    match st
    case Begin(t) => DoBegin(s, t)
    case End(o) => DoEnd(s, o)
    case Get(t, b, i) => DoGet(s, t, b, i)
    case Lock(t, i) => DoLock(s, t, i)
    case Fill(t, i) => DoFill(s, t, i)
    case Modify(t, i, data) => DoModify(s, t, i, data)
    case LogWrite(o, i) => DoLog(s, o, i)
    case Unlock(t, i) => DoUnlock(s, t, i)
    case Drop(t, i) => DoDrop(s, t, i)
    case WriteLogBlock(dst, src) => DoWriteLog(s, dst, src)
    case CommitHead(h) => DoCommitHead(s, h)
    case InstallBlock(src, dst) => DoInstall(s, src, dst)
    case ForgetBlocks => DoForget(s)
    case ClearHead(h) => DoClearHead(s, h)
    case Finish => DoFinish(s)
  }

  function SetBuf(s: State, i: nat, x: Buf): State
    requires i < |s.bufs|
  {
    s.(bufs := s.bufs[i := x])
  }

  // ---- the invariant ----

  /** Blocks every outstanding call may still log. */
  function Unspent(ops: seq<Op>): int {
    if ops == [] then 0 else MAXOPBLOCKS - |ops[0].blocks| + Unspent(ops[1..])
  }

  ghost predicate BufOk(s: State, i: nat)
    requires i < |s.bufs| && DiskOk(s.g, s.disk) && DiskOk(s.g, s.logical)
  {
    var x := s.bufs[i];
    && x.refcnt == |x.users| + (if x.key.Some? && x.key.value in Pinned(s) then 1 else 0)
    && (x.holder.Some? ==> x.holder.value in x.users)
    && (x.users != {} || x.valid ==> x.key.Some?)
    && (x.key.Some? ==> 0 <= x.key.value < s.g.total)
    && (x.dirty ==> x.valid && x.holder.Some? && !InLog(s.g, x.key.value) && InOps(s.ops, x.holder.value))
    && (x.valid ==> |x.data| == BWORDS)
    && (x.valid && !x.dirty ==> x.data == Content(s, x.key.value))
  }

  ghost predicate CacheInv(s: State)
    requires DiskOk(s.g, s.disk) && DiskOk(s.g, s.logical)
  {
    && (forall i | 0 <= i < |s.bufs| :: BufOk(s, i))
    && (forall i, j | 0 <= i < j < |s.bufs| && s.bufs[i].key.Some? :: s.bufs[i].key != s.bufs[j].key)
    && (forall p | p in Pinned(s) :: exists i :: 0 <= i < |s.bufs| && s.bufs[i].key == Some(p) && s.bufs[i].valid)
  }

  ghost predicate OpsInv(s: State) {
    && Loggable(s.g, s.lh) && |s.lh| + Unspent(s.ops) <= LOGSIZE
    && (forall o | 0 <= o < |s.ops| :: |s.ops[o].blocks| <= MAXOPBLOCKS && forall b | b in s.ops[o].blocks :: b in s.lh)
    && (forall o, o' | 0 <= o < o' < |s.ops| :: s.ops[o].tid != s.ops[o'].tid)
    && (s.committer.Some? ==> s.ops == [])
    && (s.committer == None <==> s.phase.NoCommit?)
  }

  ghost predicate DiskInv(s: State)
    requires DiskOk(s.g, s.disk) && DiskOk(s.g, s.logical) && Loggable(s.g, s.lh)
  {
    && (forall b | 0 <= b < s.g.total && !InLog(s.g, b) && b !in Pinned(s) :: s.disk[b] == s.logical[b])
    && DiskOk(s.g, s.image)
    && match s.phase
       case NoCommit => HeadIs(s.g, s.disk, []) && SameHome(s.g, s.disk, s.image)
       case Finished => HeadIs(s.g, s.disk, []) && SameHome(s.g, s.disk, s.image) && s.lh == []
       case Logging(k) =>
         && DiskOk(s.g, s.base) && HeadIs(s.g, s.base, []) && SameHome(s.g, s.base, s.image)
         && k <= |s.lh| && s.disk == Append(s.g, s.base, s.lh, s.logical, k)
       case Installing(k) =>
         && DiskOk(s.g, s.base) && HeadIs(s.g, s.base, []) && SameHome(s.g, s.logical, s.image)
         && NewHome(s.g, s.base, s.lh, s.logical, s.logical)
         && k <= |s.lh| && s.disk == Install(s.g, Committed(s.g, s.base, s.lh, s.logical), s.lh, k)
       case Clearing(bs) =>
         && DiskOk(s.g, s.base) && HeadIs(s.g, s.base, []) && SameHome(s.g, s.logical, s.image)
         && s.lh == [] && Loggable(s.g, bs) && NewHome(s.g, s.base, bs, s.logical, s.logical)
         && s.disk == Install(s.g, Committed(s.g, s.base, bs, s.logical), bs, |bs|)
  }

  ghost predicate Inv(s: State) {
    DiskOk(s.g, s.disk) && DiskOk(s.g, s.logical) && OpsInv(s) && CacheInv(s) && DiskInv(s)
  }

  // ---- one buffer changes, the rest of the state does not ----

  /** Replacing buffer `i` by one that is still in order keeps the cache in order. */
  lemma SetBufInv(s: State, i: nat, x: Buf)
    requires DiskOk(s.g, s.disk) && DiskOk(s.g, s.logical) && CacheInv(s) && i < |s.bufs|
    requires BufOk(SetBuf(s, i, x), i)
    requires x.key.Some? ==> forall j | 0 <= j < |s.bufs| && j != i :: s.bufs[j].key != x.key
    requires s.bufs[i].key.Some? && s.bufs[i].key.value in Pinned(s) && s.bufs[i].valid ==>
      x.key == s.bufs[i].key && x.valid
    ensures CacheInv(SetBuf(s, i, x))
  {
    var s' := SetBuf(s, i, x);
    assert Pinned(s') == Pinned(s);
    forall j | 0 <= j < |s'.bufs| ensures BufOk(s', j) {
      if j != i { BufFrame(s, s', j); }
    }
    forall p | p in Pinned(s') ensures exists j :: 0 <= j < |s'.bufs| && s'.bufs[j].key == Some(p) && s'.bufs[j].valid {
      var j :| 0 <= j < |s.bufs| && s.bufs[j].key == Some(p) && s.bufs[j].valid;
      assert s'.bufs[j].key == Some(p) && s'.bufs[j].valid;
    }
  }

  /** A buffer does not notice changes elsewhere. */
  lemma BufFrame(s: State, s': State, i: nat)
    requires DiskOk(s.g, s.disk) && DiskOk(s.g, s.logical) && DiskOk(s'.g, s'.disk) && DiskOk(s'.g, s'.logical)
    requires i < |s.bufs| && i < |s'.bufs| && s'.bufs[i] == s.bufs[i] && s'.g == s.g && BufOk(s, i)
    requires var x := s.bufs[i];
      && (x.key.Some? && 0 <= x.key.value < s.g.total ==>
          && (x.key.value in Pinned(s') <==> x.key.value in Pinned(s))
          && (x.valid && !x.dirty ==> Content(s', x.key.value) == Content(s, x.key.value)))
      && (x.dirty && x.holder.Some? && InOps(s.ops, x.holder.value) ==> InOps(s'.ops, x.holder.value))
    ensures BufOk(s', i)
  {
  }

  /** The log and the disk do not depend on the buffers. */
  lemma OnlyBufs(s: State, i: nat, x: Buf)
    requires DiskOk(s.g, s.disk) && DiskOk(s.g, s.logical) && OpsInv(s) && DiskInv(s) && i < |s.bufs|
    ensures OpsInv(SetBuf(s, i, x)) && DiskInv(SetBuf(s, i, x))
  {
    assert Pinned(SetBuf(s, i, x)) == Pinned(s);
  }

  lemma BufStep(s: State, i: nat, x: Buf)
    requires Inv(s) && i < |s.bufs| && BufOk(SetBuf(s, i, x), i)
    requires x.key == s.bufs[i].key || forall j | 0 <= j < |s.bufs| :: s.bufs[j].key != x.key
    requires s.bufs[i].key.Some? && s.bufs[i].key.value in Pinned(s) && s.bufs[i].valid ==>
      x.key == s.bufs[i].key && x.valid
    ensures Inv(SetBuf(s, i, x))
  {
    OnlyBufs(s, i, x);
    assert s.bufs[i].key.Some? ==> forall j | 0 <= j < |s.bufs| && j != i :: s.bufs[j].key != s.bufs[i].key;
    SetBufInv(s, i, x);
  }

  lemma GetInv(s: State, t: nat, b: int, i: nat)
    requires Inv(s) && CanGet(s, t, b, i)
    ensures Inv(DoGet(s, t, b, i))
  {
    hide OpsInv, DiskInv;
    var x := s.bufs[i];
    assert BufOk(s, i);
    var s' := DoGet(s, t, b, i);
    assert Pinned(s') == Pinned(s);
    assert x.key == Some(b) || b !in Pinned(s);
    assert |x.users + {t}| == |x.users| + 1;
    BufStep(s, i, s'.bufs[i]);
  }

  lemma LockInv(s: State, t: nat, i: nat)
    requires Inv(s) && CanLock(s, t, i)
    ensures Inv(DoLock(s, t, i))
  {
    hide OpsInv, DiskInv;
    assert BufOk(s, i);
    assert Pinned(DoLock(s, t, i)) == Pinned(s);
    BufStep(s, i, DoLock(s, t, i).bufs[i]);
  }

  /** A pinned block is already cached and valid, so a fill reads an up-to-date disk block. */
  lemma FillInv(s: State, t: nat, i: nat)
    requires Inv(s) && CanFill(s, t, i)
    ensures Inv(DoFill(s, t, i))
  {
    hide OpsInv;
    assert BufOk(s, i);
    var s', b := DoFill(s, t, i), s.bufs[i].key.value;
    assert Pinned(s') == Pinned(s);
    assert forall j | 0 <= j < |s.bufs| && s.bufs[j].key == Some(b) :: j == i;
    assert b !in Pinned(s);
    BufStep(s, i, s'.bufs[i]);
  }

  lemma ModifyInv(s: State, t: nat, i: nat, data: Block)
    requires Inv(s) && CanModify(s, t, i, data)
    ensures Inv(DoModify(s, t, i, data))
  {
    hide OpsInv, DiskInv;
    assert BufOk(s, i);
    assert Pinned(DoModify(s, t, i, data)) == Pinned(s);
    assert InOps(DoModify(s, t, i, data).ops, t);
    BufStep(s, i, DoModify(s, t, i, data).bufs[i]);
  }

  lemma UnlockInv(s: State, t: nat, i: nat)
    requires Inv(s) && CanUnlock(s, t, i)
    ensures Inv(DoUnlock(s, t, i))
  {
    hide OpsInv, DiskInv;
    assert BufOk(s, i);
    assert Pinned(DoUnlock(s, t, i)) == Pinned(s);
    BufStep(s, i, DoUnlock(s, t, i).bufs[i]);
  }

  /** brelse of a buffer changed and not logged, as writei does when its source ends inside a block. */
  ghost function Released(s: State, i: nat): State
    requires i < |s.bufs|
  {
    SetBuf(s, i, s.bufs[i].(holder := None, dirty := false))
  }

  /** It keeps the invariant exactly when the data is still what was last logged: else the cache disagrees with the log
      and the disk. */
  lemma DirtyUnlock(s: State, t: nat, i: nat)
    requires Inv(s) && i < |s.bufs| && s.bufs[i].holder == Some(t) && s.bufs[i].dirty
    ensures s.bufs[i].key.Some? && s.bufs[i].key.value in s.disk && s.bufs[i].key.value in s.logical
    ensures Inv(Released(s, i)) <==> s.bufs[i].data == Content(s, s.bufs[i].key.value)
  {
    hide OpsInv, DiskInv;
    assert BufOk(s, i);
    var s' := Released(s, i);
    assert Pinned(s') == Pinned(s);
    if s.bufs[i].data == Content(s, s.bufs[i].key.value) {
      BufStep(s, i, s'.bufs[i]);
    } else {
      assert !BufOk(s', i);
    }
  }

  /** From every state in which a call may change a buffer, changing it and releasing it unlogged does so. */
  lemma ModifyUnlogged(s: State, t: nat, i: nat, data: Block)
    requires Inv(s) && CanModify(s, t, i, data)
    ensures s.bufs[i].key.value in s.disk && s.bufs[i].key.value in s.logical
    ensures Inv(Released(DoModify(s, t, i, data), i)) <==> data == Content(s, s.bufs[i].key.value)
  {
    ModifyInv(s, t, i, data);
    DirtyUnlock(DoModify(s, t, i, data), t, i);
  }

  lemma DropInv(s: State, t: nat, i: nat)
    requires Inv(s) && CanDrop(s, t, i)
    ensures Inv(DoDrop(s, t, i))
  {
    hide OpsInv, DiskInv;
    assert BufOk(s, i);
    assert |s.bufs[i].users - {t}| == |s.bufs[i].users| - 1;
    assert Pinned(DoDrop(s, t, i)) == Pinned(s);
    BufStep(s, i, DoDrop(s, t, i).bufs[i]);
  }

  // ---- operations begin and end ----

  lemma {:induction false} UnspentAppend(ops: seq<Op>, op: Op)
    ensures Unspent(ops + [op]) == Unspent(ops) + MAXOPBLOCKS - |op.blocks|
  {
    if ops != [] {
      assert (ops + [op])[1..] == ops[1..] + [op];
      UnspentAppend(ops[1..], op);
    }
  }

  lemma {:induction false} UnspentBounds(ops: seq<Op>)
    requires forall o | 0 <= o < |ops| :: |ops[o].blocks| <= MAXOPBLOCKS
    ensures 0 <= Unspent(ops) <= |ops| * MAXOPBLOCKS
  {
    if ops != [] { UnspentBounds(ops[1..]); }
  }

  lemma {:induction false} UnspentUpdate(ops: seq<Op>, o: nat, op: Op)
    requires o < |ops|
    ensures Unspent(ops[o := op]) == Unspent(ops) + |ops[o].blocks| - |op.blocks|
  {
    if o == 0 {
      assert ops[0 := op][1..] == ops[1..];
    } else {
      assert ops[o := op][1..] == ops[1..][o - 1 := op];
      UnspentUpdate(ops[1..], o - 1, op);
    }
  }

  lemma {:induction false} UnspentRemove(ops: seq<Op>, o: nat)
    requires o < |ops|
    ensures Unspent(ops[..o] + ops[o + 1..]) == Unspent(ops) - (MAXOPBLOCKS - |ops[o].blocks|)
  {
    if o == 0 {
      assert ops[..0] + ops[1..] == ops[1..];
    } else {
      assert (ops[..o] + ops[o + 1..])[1..] == ops[1..][..o - 1] + ops[1..][o..];
      UnspentRemove(ops[1..], o - 1);
    }
  }

  /** The cache only sees which threads are in an operation. */
  lemma OnlyOps(s: State, s': State)
    requires DiskOk(s.g, s.disk) && DiskOk(s.g, s.logical) && CacheInv(s)
    requires s'.g == s.g && s'.disk == s.disk && s'.logical == s.logical && s'.bufs == s.bufs && Pinned(s') == Pinned(s)
    requires forall i | 0 <= i < |s.bufs| && s.bufs[i].dirty && s.bufs[i].holder.Some? ::
      InOps(s.ops, s.bufs[i].holder.value) ==> InOps(s'.ops, s.bufs[i].holder.value)
    ensures CacheInv(s')
  {
    forall i | 0 <= i < |s'.bufs| ensures BufOk(s', i) { BufFrame(s, s', i); }
  }

  lemma BeginInv(s: State, t: nat)
    requires Inv(s) && CanBegin(s, t)
    ensures Inv(DoBegin(s, t))
  {
    var s' := DoBegin(s, t);
    assert DiskInv(s') && Pinned(s') == Pinned(s);
    assert OpsInv(s') by {
      UnspentAppend(s.ops, Op(t, {}));
      UnspentBounds(s.ops);
    }
    assert CacheInv(s') by {
      hide OpsInv, DiskInv;
      forall u | InOps(s.ops, u) ensures InOps(s'.ops, u) {
        var o :| 0 <= o < |s.ops| && s.ops[o].tid == u;
        assert s'.ops[o].tid == u;
      }
      OnlyOps(s, s');
    }
  }

  lemma EndOps(s: State, s': State, o: nat)
    requires OpsInv(s) && o < |s.ops| && s.committer == None && s'.ops == s.ops[..o] + s.ops[o + 1..]
    requires s'.g == s.g && s'.lh == s.lh && (s'.committer == None <==> s'.phase.NoCommit?)
    requires s'.committer.Some? ==> s'.ops == []
    ensures OpsInv(s')
  {
    hide Unspent, Loggable;
    UnspentRemove(s.ops, o);
    forall k | 0 <= k < |s'.ops| ensures s'.ops[k] == s.ops[if k < o then k else k + 1] {}
  }

  lemma EndCache(s: State, s': State, o: nat)
    requires DiskOk(s.g, s.disk) && DiskOk(s.g, s.logical) && CacheInv(s) && CanEnd(s, o)
    requires s'.g == s.g && s'.disk == s.disk && s'.logical == s.logical && s'.bufs == s.bufs && Pinned(s') == Pinned(s)
    requires s'.ops == s.ops[..o] + s.ops[o + 1..]
    ensures CacheInv(s')
  {
    forall u | InOps(s.ops, u) && u != s.ops[o].tid ensures InOps(s'.ops, u) {
      var k :| 0 <= k < |s.ops| && s.ops[k].tid == u;
      assert s'.ops[if k < o then k else k - 1].tid == u;
    }
    OnlyOps(s, s');
  }

  lemma EndDisk(s: State, s': State)
    requires DiskOk(s.g, s.disk) && DiskOk(s.g, s.logical) && Loggable(s.g, s.lh) && DiskInv(s) && s.phase == NoCommit
    requires s'.g == s.g && s'.disk == s.disk && s'.logical == s.logical && s'.image == s.image && s'.lh == s.lh
    requires s'.phase == NoCommit || (s'.base == s.disk && s'.phase == if s.lh == [] then Finished else Logging(0))
    ensures DiskInv(s')
  {
    hide Loggable, DiskOk;
  }

  lemma EndInv(s: State, o: nat)
    requires Inv(s) && CanEnd(s, o)
    ensures Inv(DoEnd(s, o))
  {
    hide CacheInv, DiskInv;
    var s' := DoEnd(s, o);
    assert Pinned(s') == Pinned(s) == s.lh;
    EndOps(s, s', o);
    EndDisk(s, s');
    hide OpsInv;
    EndCache(s, s', o);
  }

  // ---- log_write ----

  lemma LogOps(s: State, s': State, o: nat, b: int)
    requires OpsInv(s) && o < |s.ops| && 0 <= b < s.g.total && !InLog(s.g, b) && !LogFull(s)
    requires |s.ops[o].blocks + {b}| <= MAXOPBLOCKS
    requires s' == s.(lh := s'.lh, ops := s.ops[o := s.ops[o].(blocks := s.ops[o].blocks + {b})], logical := s'.logical,
                      bufs := s'.bufs)
    requires s'.lh == if b in s.lh then s.lh else s.lh + [b]
    ensures OpsInv(s')
  {
    hide Unspent;
    UnspentUpdate(s.ops, o, s'.ops[o]);
    assert b in s.ops[o].blocks ==> s.ops[o].blocks + {b} == s.ops[o].blocks;
    assert Loggable(s.g, s'.lh);
    hide Loggable;
    assert forall k | 0 <= k < |s'.ops| && k != o :: s'.ops[k] == s.ops[k];
  }

  /** Apart from block `b`, pins, contents and running operations are as before. */
  ghost predicate Elsewhere(s: State, s': State, b: int)
    requires DiskOk(s.g, s.disk) && DiskOk(s.g, s.logical) && DiskOk(s'.g, s'.disk) && DiskOk(s'.g, s'.logical)
    requires s'.g == s.g
  {
    && (forall c | c != b :: c in Pinned(s') <==> c in Pinned(s))
    && (forall c | c != b && 0 <= c < s.g.total :: Content(s', c) == Content(s, c))
    && (forall u | InOps(s.ops, u) :: InOps(s'.ops, u))
  }

  /** A step that touches one buffer and its block. */
  lemma CacheChange(s: State, s': State, i: nat)
    requires DiskOk(s.g, s.disk) && DiskOk(s.g, s.logical) && DiskOk(s'.g, s'.disk) && DiskOk(s'.g, s'.logical)
    requires s'.g == s.g
    requires CacheInv(s) && i < |s.bufs| && |s'.bufs| == |s.bufs| && s'.bufs == s.bufs[i := s'.bufs[i]]
    requires s.bufs[i].key.Some? && s'.bufs[i].key == s.bufs[i].key && s'.bufs[i].valid && BufOk(s', i)
    requires Elsewhere(s, s', s.bufs[i].key.value)
    ensures CacheInv(s')
  {
    var b := s.bufs[i].key.value;
    forall j | 0 <= j < |s'.bufs| ensures BufOk(s', j) {
      if j != i { BufFrame(s, s', j); }
    }
    forall p | p in Pinned(s') ensures exists j :: 0 <= j < |s'.bufs| && s'.bufs[j].key == Some(p) && s'.bufs[j].valid {
      if p == b {
        assert s'.bufs[i].key == Some(p) && s'.bufs[i].valid;
      } else {
        var j :| 0 <= j < |s.bufs| && s.bufs[j].key == Some(p) && s.bufs[j].valid;
        assert s'.bufs[j].key == Some(p) && s'.bufs[j].valid;
      }
    }
  }

  lemma LogElsewhere(s: State, s': State, o: nat, b: int, data: Block)
    requires DiskOk(s.g, s.disk) && DiskOk(s.g, s.logical) && o < |s.ops| && 0 <= b < s.g.total && |data| == BWORDS
    requires s.phase == NoCommit
    requires s'.g == s.g && s'.disk == s.disk && s'.phase == s.phase && s'.logical == s.logical[b := data]
    requires s'.lh == (if b in s.lh then s.lh else s.lh + [b])
    requires s'.ops == s.ops[o := s.ops[o].(blocks := s.ops[o].blocks + {b})]
    ensures DiskOk(s.g, s'.logical) && Elsewhere(s, s', b)
  {
    assert Pinned(s) == s.lh && Pinned(s') == s'.lh;
    forall u | InOps(s.ops, u) ensures InOps(s'.ops, u) {
      var k :| 0 <= k < |s.ops| && s.ops[k].tid == u;
      assert s'.ops[k].tid == u;
    }
  }

  lemma LogBuf(s: State, s': State, o: nat, i: nat)
    requires DiskOk(s.g, s.disk) && DiskOk(s.g, s.logical) && i < |s.bufs| && BufOk(s, i)
    requires CanLog(s, o, i) && s' == DoLog(s, o, i) && s.phase == NoCommit && DiskOk(s.g, s'.logical)
    ensures BufOk(s', i)
  {
    hide DiskOk;
    assert Pinned(s) == s.lh && Pinned(s') == s'.lh;
  }

  lemma LogCache(s: State, s': State, o: nat, i: nat)
    requires DiskOk(s.g, s.disk) && DiskOk(s.g, s.logical) && CacheInv(s) && CanLog(s, o, i) && s' == DoLog(s, o, i)
    requires s.phase == NoCommit
    ensures DiskOk(s.g, s'.logical) && CacheInv(s')
  {
    var b := s.bufs[i].key.value;
    assert BufOk(s, i);
    hide CacheInv, Elsewhere, DiskOk;
    LogElsewhere(s, s', o, b, s.bufs[i].data);
    hide BufOk;
    LogBuf(s, s', o, i);
    CacheChange(s, s', i);
  }

  lemma LogWriteInv(s: State, o: nat, i: nat)
    requires Inv(s) && CanLog(s, o, i)
    ensures Inv(DoLog(s, o, i))
  {
    var s', b := DoLog(s, o, i), s.bufs[i].key.value;
    assert s.phase == NoCommit by { hide CacheInv, DiskInv; }
    assert 0 <= b < s.g.total by { hide OpsInv, DiskInv; assert BufOk(s, i); }
    hide CacheInv;
    LogCache(s, s', o, i);
    LogOps(s, s', o, b);
    hide OpsInv, Loggable, SetBuf;
    LoggedLeaves(s, s', b, s.bufs[i].data);
  }

  /** A logged block leaves the blocks that must equal the disk. */
  lemma LoggedLeaves(s: State, s': State, b: int, data: Block)
    requires DiskOk(s.g, s.disk) && DiskOk(s.g, s.logical) && Loggable(s.g, s.lh) && DiskInv(s) && s.phase == NoCommit
    requires DiskOk(s.g, s'.logical) && Loggable(s.g, s'.lh)
    requires s'.g == s.g && s'.disk == s.disk && s'.image == s.image && s'.phase == s.phase
    requires s'.lh == (if b in s.lh then s.lh else s.lh + [b]) && s'.logical == s.logical[b := data]
    ensures DiskInv(s')
  {
  }

  // ---- commit ----

  /** While a commit runs no buffer is dirty. */
  lemma NoneDirty(s: State, i: nat, b: int)
    requires Inv(s) && s.committer.Some? && i < |s.bufs| && s.bufs[i].valid && s.bufs[i].key == Some(b)
    ensures 0 <= b < s.g.total && !s.bufs[i].dirty && s.bufs[i].data == Content(s, b) && |s.bufs[i].data| == BWORDS
  {
    hide DiskInv;
    assert BufOk(s, i);
  }

  /** The committer writes a log-region buffer through to its block. */
  lemma WroteLog(s: State, s': State, i: nat, b: int)
    requires Inv(s) && s.committer.Some? && i < |s.bufs| && s.bufs[i].valid && s.bufs[i].key == Some(b) && InLog(s.g, b)
    requires b in s'.disk && s'.disk == s.disk[b := s'.disk[b]] && |s'.disk[b]| == BWORDS
    requires s'.bufs == s.bufs[i := s.bufs[i].(data := s'.disk[b])]
    requires s'.g == s.g && s'.logical == s.logical && s'.ops == s.ops && Pinned(s') == Pinned(s)
    ensures DiskOk(s.g, s'.disk) && CacheInv(s')
  {
    hide DiskInv, OpsInv;
    NoneDirty(s, i, b);
    assert BufOk(s, i);
    assert BufOk(s', i);
    hide CacheInv;
    assert Elsewhere(s, s', b);
    CacheChange(s, s', i);
  }

  /** write_log copies exactly the last logged value. */
  lemma WriteLogInv(s: State, dst: nat, src: nat)
    requires Inv(s) && CanWriteLog(s, dst, src)
    ensures Inv(DoWriteLog(s, dst, src))
    ensures DoWriteLog(s, dst, src).disk[s.g.start + 1 + s.phase.k] == s.logical[s.lh[s.phase.k]]
  {
    var s', k := DoWriteLog(s, dst, src), s.phase.k;
    LoggableAt(s.g, s.lh, k);
    NoneDirty(s, src, s.lh[k]);
    assert Pinned(s') == Pinned(s);
    WroteLog(s, s', dst, s.g.start + 1 + k);
    assert DiskInv(s') by { hide CacheInv, OpsInv; }
    assert OpsInv(s') by { hide CacheInv, DiskInv; }
  }

  lemma CommitHeadDisk(s: State, s': State)
    requires DiskOk(s.g, s.disk) && DiskOk(s.g, s.logical) && Loggable(s.g, s.lh) && DiskInv(s)
    requires s.phase == Logging(|s.lh|)
    requires DiskOk(s'.g, s'.disk) && s'.disk == PutHead(s.g, s.disk, s.lh)
    requires s'.g == s.g && s'.lh == s.lh && s'.base == s.base && s'.logical == s'.image == s.logical
    requires s'.phase == Installing(0)
    ensures DiskInv(s')
  {
    hide Append, Encode;
    assert Pinned(s') == Pinned(s);
    forall b | 0 <= b < s.g.total && !InLog(s.g, b) && b !in s.lh ensures s.logical[b] == s.base[b] {
      AppendAt(s.g, s.base, s.lh, s.logical, |s.lh|, b);
    }
  }

  lemma CommitHeadInv(s: State, h: nat)
    requires Inv(s) && CanCommitHead(s, h)
    ensures Inv(DoCommitHead(s, h))
  {
    hide CacheInv, DiskInv;
    var s' := DoCommitHead(s, h);
    NoneDirty(s, h, s.g.start);
    assert Pinned(s') == Pinned(s);
    WroteLog(s, s', h, s.g.start);
    CommitHeadDisk(s, s');
  }

  lemma InstallNext(g: Geo, base: Disk, bs: seq<int>, logical: Disk, d: Disk, k: nat)
    requires DiskOk(g, base) && DiskOk(g, logical) && Loggable(g, bs) && Cached(bs, logical) && k < |bs|
    requires d == Install(g, Committed(g, base, bs, logical), bs, k)
    ensures g.start + 1 + k in d && d[g.start + 1 + k] == logical[bs[k]]
    ensures d[bs[k] := logical[bs[k]]] == Install(g, Committed(g, base, bs, logical), bs, k + 1)
  {
    hide Install, Append, Encode, Committed;
    InstallStep(g, Committed(g, base, bs, logical), bs, k);
    LogKept(g, base, bs, logical, k, k);
    LoggableAt(g, bs, k);
  }

  lemma InstallDisk(s: State, s': State, k: nat)
    requires DiskOk(s.g, s.disk) && DiskOk(s.g, s.logical) && Loggable(s.g, s.lh) && DiskInv(s)
    requires s.phase == Installing(k) && k < |s.lh|
    requires s'.disk == s.disk[s.lh[k] := s.disk[s.g.start + 1 + k]]
    requires s'.g == s.g && s'.lh == s.lh && s'.base == s.base && s'.logical == s.logical && s'.image == s.image
    requires s'.phase == Installing(k + 1)
    ensures s.disk[s.g.start + 1 + k] == s.logical[s.lh[k]]
    ensures DiskOk(s'.g, s'.disk) && DiskInv(s')
  {
    hide Install, Append, Encode, Committed, NewHome, SameHome, HeadIs;
    InstallNext(s.g, s.base, s.lh, s.logical, s.disk, k);
    assert Pinned(s) == [s.lh[k]] + Pinned(s');
  }

  lemma InstallCache(s: State, s': State, dst: nat, k: nat)
    requires DiskOk(s.g, s.disk) && DiskOk(s.g, s.logical) && OpsInv(s) && CacheInv(s) && s.phase == Installing(k)
    requires k < |s.lh|
    requires dst < |s.bufs| && Holds(s, s.committer.GetOr(0), dst, s.lh[k]) && !s.bufs[dst].dirty
    requires s.bufs[dst].refcnt > 0
    requires s'.disk == s.disk[s.lh[k] := s.logical[s.lh[k]]] && DiskOk(s.g, s'.disk)
    requires s'.bufs == s.bufs[dst := s.bufs[dst].(data := s.logical[s.lh[k]], refcnt := s.bufs[dst].refcnt - 1)]
    requires s'.g == s.g && s'.lh == s.lh && s'.ops == s.ops && s'.logical == s.logical && s'.phase == Installing(k + 1)
    ensures CacheInv(s')
  {
    var b := s.lh[k];
    assert Pinned(s) == [b] + Pinned(s');
    assert b !in Pinned(s');
    assert BufOk(s, dst);
    assert BufOk(s', dst);
    hide CacheInv;
    assert Elsewhere(s, s', b);
    CacheChange(s, s', dst);
  }

  lemma InstallInv(s: State, src: nat, dst: nat)
    requires Inv(s) && CanInstall(s, src, dst)
    ensures Inv(DoInstall(s, src, dst))
  {
    hide CacheInv, DiskInv;
    var s', k := DoInstall(s, src, dst), s.phase.k;
    NoneDirty(s, src, s.g.start + 1 + k);
    NoneDirty(s, dst, s.lh[k]);
    LoggableAt(s.g, s.lh, k);
    InstallDisk(s, s', k);
    InstallCache(s, s', dst, k);
  }

  lemma ForgetInv(s: State)
    requires Inv(s) && CanForget(s)
    ensures Inv(DoForget(s))
  {
    var s' := DoForget(s);
    assert Pinned(s') == Pinned(s) == [];
    assert OpsInv(s') by { hide CacheInv, DiskInv; UnspentBounds(s.ops); }
    assert DiskInv(s') by { hide CacheInv, OpsInv; }
    assert CacheInv(s') by { hide DiskInv, OpsInv; OnlyOps(s, s'); }
  }

  lemma ClearHeadInv(s: State, h: nat)
    requires Inv(s) && CanClearHead(s, h)
    ensures Inv(DoClearHead(s, h))
  {
    hide CacheInv, DiskInv, Encode;
    var s' := DoClearHead(s, h);
    NoneDirty(s, h, s.g.start);
    ClearHeadDisk(s, s');
    WroteLog(s, s', h, s.g.start);
  }

  lemma ClearHeadDisk(s: State, s': State)
    requires DiskOk(s.g, s.disk) && DiskOk(s.g, s.logical) && Loggable(s.g, s.lh) && DiskInv(s) && s.phase.Clearing?
    requires DiskOk(s'.g, s'.disk) && s'.disk == PutHead(s.g, s.disk, []) && s'.phase == Finished
    requires s'.g == s.g && s'.lh == s.lh && s'.logical == s.logical && s'.image == s.image
    ensures DiskInv(s') && Pinned(s') == Pinned(s) == []
  {
    hide Install, Append, Encode, Committed;
  }

  lemma FinishInv(s: State)
    requires Inv(s) && CanFinish(s)
    ensures Inv(DoFinish(s))
  {
    var s' := DoFinish(s);
    assert Pinned(s') == Pinned(s);
    assert OpsInv(s') by { hide CacheInv, DiskInv; }
    assert DiskInv(s') by { hide CacheInv, OpsInv; }
    assert CacheInv(s') by { hide DiskInv, OpsInv; OnlyOps(s, s'); }
  }

  // ---- whole runs ----

  lemma StepInv(s: State, st: Step)
    requires Inv(s) && Enabled(s, st)
    ensures Inv(Apply(s, st))
  {
    hide Inv, CanBegin, CanEnd, CanGet, CanLock, CanFill, CanModify, CanLog, CanUnlock, CanDrop, CanWriteLog,
         CanCommitHead, CanInstall,
         CanForget, CanClearHead, CanFinish, DoBegin, DoEnd, DoGet, DoLock, DoFill, DoModify, DoLog, DoUnlock, DoDrop,
         DoWriteLog,
         DoCommitHead, DoInstall, DoForget, DoClearHead, DoFinish;
    match st
    case Begin(t) => BeginInv(s, t);
    case End(o) => EndInv(s, o);
    case Get(t, b, i) => GetInv(s, t, b, i);
    case Lock(t, i) => LockInv(s, t, i);
    case Fill(t, i) => FillInv(s, t, i);
    case Modify(t, i, data) => ModifyInv(s, t, i, data);
    case LogWrite(o, i) => LogWriteInv(s, o, i);
    case Unlock(t, i) => UnlockInv(s, t, i);
    case Drop(t, i) => DropInv(s, t, i);
    case WriteLogBlock(dst, src) => WriteLogInv(s, dst, src);
    case CommitHead(h) => CommitHeadInv(s, h);
    case InstallBlock(src, dst) => InstallInv(s, src, dst);
    case ForgetBlocks => ForgetInv(s);
    case ClearHead(h) => ClearHeadInv(s, h);
    case Finish => FinishInv(s);
  }

  /** A buffer nobody uses, as brelse leaves it. */
  ghost predicate Idle(s: State, i: nat)
    requires i < |s.bufs|
  {
    var x := s.bufs[i];
    && x.refcnt == 0 && x.users == {} && x.holder == None && !x.dirty
    && (x.key.Some? ==> 0 <= x.key.value < s.g.total)
    && (x.valid ==> x.key.Some? && x.key.value in s.disk && x.data == s.disk[x.key.value])
  }

  /** The system after recovery: an empty log, nothing running, and in the cache whatever recovery read and wrote. */
  ghost predicate Boot(s: State) {
    && DiskOk(s.g, s.disk) && HeadIs(s.g, s.disk, []) && s.logical == s.disk && s.image == s.disk
    && s.lh == [] && s.ops == [] && s.committer == None && s.phase == NoCommit
    && (forall i | 0 <= i < |s.bufs| :: Idle(s, i))
    && (forall i, j | 0 <= i < j < |s.bufs| && s.bufs[i].key.Some? :: s.bufs[i].key != s.bufs[j].key)
  }

  ghost predicate Runs(s: State, steps: seq<Step>, s': State)
    decreases |steps|
  {
    if steps == [] then s' == s else Enabled(s, steps[0]) && Runs(Apply(s, steps[0]), steps[1..], s')
  }

  lemma BootInv(s: State)
    requires Boot(s)
    ensures Inv(s)
  {
    assert Pinned(s) == [];
    forall i | 0 <= i < |s.bufs| ensures BufOk(s, i) { assert Idle(s, i); }
  }

  lemma {:induction false} RunInv(s: State, steps: seq<Step>, s': State)
    requires Inv(s) && Runs(s, steps, s')
    ensures Inv(s')
    decreases |steps|
  {
    hide Inv, Enabled, Apply;
    if steps != [] {
      StepInv(s, steps[0]);
      RunInv(Apply(s, steps[0]), steps[1..], s');
    }
  }

  // ---- what the invariant says in every reachable state ----

  /** Cache coherence: an unlocked valid buffer is the disk block, unless that block waits in the
      log header, and then it is the last logged value. */
  lemma Coherent(s: State, i: nat)
    requires Inv(s) && i < |s.bufs| && s.bufs[i].valid && s.bufs[i].holder == None
    ensures s.bufs[i].key.Some? && 0 <= s.bufs[i].key.value < s.g.total
    ensures var b := s.bufs[i].key.value;
      s.bufs[i].data == (if b in Pinned(s) then s.logical[b] else s.disk[b]) && (b in Pinned(s) ==> b in s.lh)
  {
    hide OpsInv;
    assert BufOk(s, i);
    assert Loggable(s.g, s.lh) by { PinnedHome(s); }
  }

  lemma PinnedHome(s: State)
    requires Inv(s)
    ensures Loggable(s.g, s.lh) && forall p | p in Pinned(s) :: p in s.lh && !InLog(s.g, p)
  {
    hide CacheInv, DiskInv;
  }

  /** Every block waiting in the header is cached, valid and referenced, so bget never recycles it. */
  lemma PinnedStays(s: State, p: int, t: nat, b: int, i: nat)
    requires Inv(s) && p in Pinned(s) && Enabled(s, Get(t, b, i))
    ensures exists j :: 0 <= j < |s.bufs| && s.bufs[j].key == Some(p) && s.bufs[j].valid && s.bufs[j].refcnt >= 1
    ensures s.bufs[i].key == Some(p) ==> b == p
  {
    hide OpsInv, DiskInv;
    var j :| 0 <= j < |s.bufs| && s.bufs[j].key == Some(p) && s.bufs[j].valid;
    assert BufOk(s, j) && BufOk(s, i);
  }

  /** No two buffers cache the same block. */
  lemma OneBuffer(s: State, i: nat, j: nat)
    requires Inv(s) && i < |s.bufs| && j < |s.bufs| && s.bufs[i].key.Some? && s.bufs[i].key == s.bufs[j].key
    ensures i == j
  {
    hide OpsInv, DiskInv;
  }

  /** Crash safety: whatever the threads were doing, a reboot with any number of crashes inside
      recovery brings back exactly `image`. */
  lemma CrashSafe(s: State, crashes: seq<nat>)
    requires Inv(s)
    ensures Bootable(s.g, s.disk)
    ensures SameHome(s.g, Recovered(s.g, Boots(s.g, s.disk, crashes)), s.image)
  {
    CrashNow(s);
    hide *;
    CrashesInRecovery(s.g, s.disk, crashes);
    SameHomeTrans(s.g, Recovered(s.g, Boots(s.g, s.disk, crashes)), Recovered(s.g, s.disk), s.image);
  }

  lemma SameHomeTrans(g: Geo, a: Disk, b: Disk, c: Disk)
    requires DiskOk(g, a) && DiskOk(g, b) && DiskOk(g, c) && SameHome(g, a, b) && SameHome(g, b, c)
    ensures SameHome(g, a, c)
  {
  }

  lemma CrashNow(s: State)
    requires Inv(s)
    ensures DiskOk(s.g, s.image) && Bootable(s.g, s.disk) && SameHome(s.g, Recovered(s.g, s.disk), s.image)
  {
    hide CacheInv, Install, Append;
    match s.phase
    case NoCommit => QuietHome(s.g, s.disk);
    case Finished => QuietHome(s.g, s.disk);
    case Logging(k) => UncommittedHome(s.g, s.base, s.lh, s.logical, k);
    case Installing(k) => CommittedImage(s.g, s.base, s.lh, s.logical, k);
    case Clearing(bs) => CommittedImage(s.g, s.base, bs, s.logical, |bs|);
  }

  lemma QuietHome(g: Geo, d: Disk)
    requires DiskOk(g, d) && HeadIs(g, d, [])
    ensures Bootable(g, d) && SameHome(g, Recovered(g, d), d)
  {
    UncommittedHome(g, d, [], map[], 0);
  }

  lemma CommittedImage(g: Geo, base: Disk, bs: seq<int>, logical: Disk, k: nat)
    requires DiskOk(g, base) && HeadIs(g, base, []) && Loggable(g, bs) && DiskOk(g, logical) && k <= |bs|
    requires NewHome(g, base, bs, logical, logical)
    ensures var d := Install(g, Committed(g, base, bs, logical), bs, k);
      Bootable(g, d) && SameHome(g, Recovered(g, d), logical)
  {
    hide Install, Append;
    CommitImage(g, base, bs, logical, |bs| + 1 + k);
  }

  /** What a log_write step logs. */
  ghost function Logs(s: State, st: Step): Disk {
    if st.LogWrite? && st.i < |s.bufs| && s.bufs[st.i].key.Some? then map[s.bufs[st.i].key.value := s.bufs[st.i].data]
    else map[]
  }

  lemma LogPoint(s: State, o: nat, i: nat)
    requires CanLog(s, o, i)
    ensures var s' := DoLog(s, o, i);
      s'.image == s.image && s'.g == s.g && s'.logical == s.logical + map[s.bufs[i].key.value := s.bufs[i].data]
  {
    hide Holds, InLog, LogFull;
    var b, data := s.bufs[i].key.value, s.bufs[i].data;
    assert s.logical[b := data] == s.logical + map[b := data];
  }

  lemma QuietPoint(s: State, st: Step)
    requires Enabled(s, st) && !st.LogWrite?
    ensures Apply(s, st).image == (if st.CommitHead? then s.logical else s.image)
    ensures Apply(s, st).logical == s.logical && Apply(s, st).g == s.g
  {
    hide CanBegin, CanEnd, CanGet, CanLock, CanFill, CanModify, CanUnlock, CanDrop, CanWriteLog, CanCommitHead,
         CanInstall,
         CanForget, CanClearHead, CanFinish, CanLog, DoLog, Encode;
  }

  /** `image` moves only at the header write, and then to everything logged so far. */
  lemma CommitPoint(s: State, st: Step)
    requires Enabled(s, st)
    ensures Apply(s, st).image == if st.CommitHead? then s.logical else s.image
    ensures Apply(s, st).logical == s.logical + Logs(s, st) && Apply(s, st).g == s.g
  {
    hide DoLog;
    if st.LogWrite? {
      LogPoint(s, st.o, st.i);
    } else {
      hide Apply, Enabled;
      QuietPoint(s, st);
      assert s.logical + map[] == s.logical;
    }
  }

  /** The homes as the last commit of a run left them, from the log_write calls alone: `now` collects what they log,
      and each write of a full header makes it durable. */
  ghost function Durable(s: State, steps: seq<Step>, now: Disk, kept: Disk): Disk
    decreases |steps|
  {
    if steps == [] || !Enabled(s, steps[0]) then kept
    else
      Durable(Apply(s, steps[0]), steps[1..], now + Logs(s, steps[0]), if steps[0].CommitHead? then now else kept)
  }

  lemma {:induction false} ImageDurable(s: State, steps: seq<Step>, s': State)
    requires Runs(s, steps, s')
    ensures s'.image == Durable(s, steps, s.logical, s.image) && s'.g == s.g
    decreases |steps|
  {
    hide Enabled, Apply, Logs;
    if steps != [] {
      CommitPoint(s, steps[0]);
      ImageDurable(Apply(s, steps[0]), steps[1..], s');
    }
  }

  /** Crash anywhere in any run: recovery, however often it is itself cut short, brings back exactly what the last
      header write of the run made durable, and the booted disk when there was none. */
  lemma CrashDurable(s: State, steps: seq<Step>, s': State, crashes: seq<nat>)
    requires Boot(s) && Runs(s, steps, s')
    ensures s'.g == s.g && Bootable(s.g, s'.disk) && DiskOk(s.g, Durable(s, steps, s.disk, s.disk))
    ensures SameHome(s.g, Recovered(s.g, Boots(s.g, s'.disk, crashes)), Durable(s, steps, s.disk, s.disk))
  {
    BootInv(s);
    ImageDurable(s, steps, s');
    RunInv(s, steps, s');
    CrashNow(s');
    CrashSafe(s', crashes);
  }

  /** A call within its budget finds the log full only when the log region is full, or, for a block that is logged
      already, when every outstanding call has used up its budget: log_write looks at the length before it looks
      for the block. */
  lemma NoPanic(s: State, o: nat, b: int)
    requires Inv(s) && o < |s.ops| && |s.ops[o].blocks + {b}| <= MAXOPBLOCKS
    ensures LogFull(s) <==> |s.lh| == s.g.size - 1 || (|s.lh| == LOGSIZE && b in s.lh)
    ensures |s.lh| == LOGSIZE ==> forall k | 0 <= k < |s.ops| :: |s.ops[k].blocks| == MAXOPBLOCKS
  {
    hide CacheInv, DiskInv;
    if b !in s.lh { SpareBlock(s, o); }
    if |s.lh| == LOGSIZE {
      forall k | 0 <= k < |s.ops| ensures |s.ops[k].blocks| == MAXOPBLOCKS { SpareBlock(s, k); }
    }
  }

  /** What one call may still log fits beside the rest. */
  lemma SpareBlock(s: State, o: nat)
    requires OpsInv(s) && o < |s.ops|
    ensures |s.lh| + MAXOPBLOCKS - |s.ops[o].blocks| <= LOGSIZE && |s.ops[o].blocks| <= MAXOPBLOCKS
  {
    UnspentRemove(s.ops, o);
    var rest := s.ops[..o] + s.ops[o + 1..];
    assert forall k | 0 <= k < |rest| :: rest[k] in s.ops;
    UnspentBounds(rest);
  }

  /** Never a commit while a call is outstanding, and never more reserved than the log holds. */
  lemma Reserved(s: State)
    requires Inv(s)
    ensures s.committer.Some? ==> s.ops == []
    ensures |s.lh| + Unspent(s.ops) <= LOGSIZE && 0 <= Unspent(s.ops)
    ensures forall i, j | 0 <= i < j < |s.lh| :: s.lh[i] != s.lh[j]
  {
    hide CacheInv, DiskInv;
    UnspentBounds(s.ops);
  }

  // ---- runs inside the budgets that reach log_write's panic ----

  /** Every guard of log_write holds but the one on the length. */
  ghost predicate Overflow(s: State, o: nat, i: nat) {
    && o < |s.ops| && i < |s.bufs| && s.bufs[i].key.Some? && Holds(s, s.ops[o].tid, i, s.bufs[i].key.value)
    && !InLog(s.g, s.bufs[i].key.value) && |s.ops[o].blocks + {s.bufs[i].key.value}| <= MAXOPBLOCKS && LogFull(s)
  }

  /** Three calls are running and the first `k` of their blocks are logged, ten to a call. */
  ghost predicate Stage(s: State, k: nat) {
    && DiskOk(s.g, s.disk) && DiskOk(s.g, s.logical) && s.committer == None && s.phase == NoCommit && |s.ops| == 3
    && (forall j | 0 <= j < 3 :: s.ops[j].tid == j && |s.ops[j].blocks| == Used(k, j))
    && (forall j, b | 0 <= j < 3 && b in s.ops[j].blocks :: b in s.lh)
    && |s.lh| == k <= |s.bufs| && (forall m | 0 <= m < k :: s.lh[m] == s.g.start + s.g.size + m)
    && (forall m | 0 <= m < k :: StageBuf(s.bufs[m], s.g.start + s.g.size + m))
    && (forall m | k <= m < |s.bufs| :: s.bufs[m].key == None && s.bufs[m].refcnt == 0 && s.bufs[m].users == {})
    && (10 < k ==> s.lh[10] in s.ops[1].blocks)
  }

  function Used(k: nat, j: nat): nat { if k < 10 * j then 0 else if k - 10 * j < 10 then k - 10 * j else 10 }

  ghost predicate StageBuf(x: Buf, b: int) {
    x.key == Some(b) && x.valid && x.holder == None && x.users == {} && |x.data| == BWORDS
  }

  lemma StageTake(s: State, o: nat, b: int, k: nat) returns (s3: State)
    requires k < |s.bufs| && s.bufs[k].key == None && s.bufs[k].refcnt == 0 && s.bufs[k].users == {}
    requires 0 <= b < s.g.total && b in s.disk && !InLog(s.g, b)
    requires forall j | 0 <= j < |s.bufs| :: s.bufs[j].key != Some(b)
    ensures Runs(s, [Get(o, b, k), Lock(o, k), Fill(o, k)], s3)
    ensures s3 == SetBuf(s, k, Buf(Some(b), true, 1, s.disk[b], Some(o), {o}, false))
  {
    var s1 := DoGet(s, o, b, k);
    var s2 := DoLock(s1, o, k);
    s3 := DoFill(s2, o, k);
    var st := [Get(o, b, k), Lock(o, k), Fill(o, k)];
    assert Runs(s3, st[3..], s3) && Runs(s2, st[2..], s3) && Runs(s1, st[1..], s3);
  }

  lemma StageLog(s: State, o: nat, b: int, k: nat, data: Block) returns (s6: State)
    requires k < |s.bufs| && o < |s.ops| && s.ops[o].tid == o
    requires s.bufs[k] == Buf(Some(b), true, 1, data, Some(o), {o}, false)
    requires !InLog(s.g, b) && !LogFull(s) && b !in s.lh && |data| == BWORDS && |s.ops[o].blocks + {b}| <= MAXOPBLOCKS
    ensures Runs(s, [LogWrite(o, k), Unlock(o, k), Drop(o, k)], s6)
    ensures s6 == s.(lh := s.lh + [b], ops := s.ops[o := Op(o, s.ops[o].blocks + {b})], logical := s.logical[b := data],
                     bufs := s.bufs[k := Buf(Some(b), true, 1, data, None, {}, false)])
  {
    var s4 := DoLog(s, o, k);
    var s5 := DoUnlock(s4, o, k);
    s6 := DoDrop(s5, o, k);
    assert {o} - {o} == {};
    assert s6.bufs == s.bufs[k := Buf(Some(b), true, 1, data, None, {}, false)];
    var st := [LogWrite(o, k), Unlock(o, k), Drop(o, k)];
    assert Runs(s6, st[3..], s6) && Runs(s5, st[2..], s6) && Runs(s4, st[1..], s6);
  }

  lemma StageNext(s: State, s': State, o: nat, b: int, k: nat, x: Buf)
    requires Stage(s, k) && k < |s.bufs| && o == k / 10 < 3 && b == s.g.start + s.g.size + k && 0 <= b < s.g.total
    requires StageBuf(x, b)
    requires s' == s.(lh := s.lh + [b], ops := s.ops[o := Op(o, s.ops[o].blocks + {b})],
                      logical := s.logical[b := s.disk[b]], bufs := s.bufs[k := x])
    ensures Stage(s', k + 1)
  {
    assert b !in s.lh && b !in s.ops[o].blocks;
    assert |s.ops[o].blocks + {b}| == |s.ops[o].blocks| + 1;
    assert DiskOk(s.g, s'.logical);
    hide DiskOk, StageBuf;
    assert forall j, c | 0 <= j < 3 && c in s'.ops[j].blocks :: c in s'.lh;
  }

  lemma StageStep(s: State, k: nat) returns (steps: seq<Step>, s': State)
    requires Stage(s, k) && k < s.g.size - 1 && k < LOGSIZE && k < |s.bufs|
    requires s.g.start + s.g.size + k < s.g.total
    ensures Runs(s, steps, s') && Stage(s', k + 1) && s'.g == s.g && |s'.bufs| == |s.bufs|
  {
    hide Runs;
    var o, b := k / 10, s.g.start + s.g.size + k;
    assert b !in s.lh && |s.ops[o].blocks + {b}| <= |s.ops[o].blocks| + 1;
    var s3 := StageTake(s, o, b, k);
    s' := StageLog(s3, o, b, k, s.disk[b]);
    steps := [Get(o, b, k), Lock(o, k), Fill(o, k)] + [LogWrite(o, k), Unlock(o, k), Drop(o, k)];
    RunsAppend(s, [Get(o, b, k), Lock(o, k), Fill(o, k)], s3, [LogWrite(o, k), Unlock(o, k), Drop(o, k)], s');
    assert s'.bufs == s.bufs[k := s'.bufs[k]];
    StageNext(s, s', o, b, k, s'.bufs[k]);
  }

  lemma {:induction false} RunsAppend(s: State, a: seq<Step>, s1: State, b: seq<Step>, s2: State)
    requires Runs(s, a, s1) && Runs(s1, b, s2)
    ensures Runs(s, a + b, s2)
    decreases |a|
  {
    hide Enabled, Apply;
    if a == [] {
      assert a + b == b;
    } else {
      assert (a + b)[1..] == a[1..] + b;
      RunsAppend(Apply(s, a[0]), a[1..], s1, b, s2);
    }
  }

  lemma {:induction false} StageReach(s: State, k: nat, n: nat) returns (steps: seq<Step>, s': State)
    requires Stage(s, k) && k <= n <= s.g.size - 1 && n <= LOGSIZE && n <= |s.bufs|
    requires s.g.start + s.g.size + n <= s.g.total
    ensures Runs(s, steps, s') && Stage(s', n) && s'.g == s.g && |s'.bufs| == |s.bufs|
    decreases n - k
  {
    hide Stage, Enabled, Apply;
    if k == n {
      steps, s' := [], s;
    } else {
      var a, s1 := StageStep(s, k);
      var b;
      b, s' := StageReach(s1, k + 1, n);
      RunsAppend(s, a, s1, b, s');
      steps := a + b;
    }
  }

  lemma OneStep(s: State, st: Step)
    requires Enabled(s, st)
    ensures Runs(s, [st], Apply(s, st))
  {
    hide Enabled, Apply;
    assert [st][1..] == [] && Runs(Apply(s, st), [], Apply(s, st));
  }

  lemma ThreeBegin(s: State) returns (steps: seq<Step>, s': State)
    requires s.committer == None && s.lh == [] && s.ops == []
    ensures Runs(s, steps, s') && s' == s.(ops := [Op(0, {}), Op(1, {}), Op(2, {})])
  {
    hide Runs;
    var s1 := Apply(s, Begin(0));
    OneStep(s, Begin(0));
    var s2 := Apply(s1, Begin(1));
    OneStep(s1, Begin(1));
    assert s2.ops == [Op(0, {}), Op(1, {})];
    s' := Apply(s2, Begin(2));
    OneStep(s2, Begin(2));
    RunsAppend(s, [Begin(0)], s1, [Begin(1)], s2);
    RunsAppend(s, [Begin(0)] + [Begin(1)], s2, [Begin(2)], s');
    steps := [Begin(0)] + [Begin(1)] + [Begin(2)];
  }

  lemma StageBegin(s: State, n: nat) returns (steps: seq<Step>, s': State)
    requires Boot(s) && (forall i | 0 <= i < |s.bufs| :: s.bufs[i].key == None)
    requires n <= s.g.size - 1 && n <= LOGSIZE && n <= |s.bufs| && s.g.start + s.g.size + n <= s.g.total
    ensures Runs(s, steps, s') && Stage(s', n) && s'.g == s.g && |s'.bufs| == |s.bufs|
  {
    var a, s3 := ThreeBegin(s);
    forall i | 0 <= i < |s.bufs| ensures s.bufs[i].refcnt == 0 && s.bufs[i].users == {} { assert Idle(s, i); }
    assert Stage(s3, 0);
    hide Stage, Runs, Boot;
    var c;
    c, s' := StageReach(s3, 0, n);
    RunsAppend(s, a, s3, c, s');
    steps := a + c;
  }

  /** With a log of at most LOGSIZE blocks (mkfs writes nlog = LOGSIZE), three calls that keep
      their budgets reach a log_write of a new block that panics. */
  lemma PanicReached(s: State) returns (steps: seq<Step>, s': State, o: nat, i: nat)
    requires Boot(s) && (forall i | 0 <= i < |s.bufs| :: s.bufs[i].key == None)
    requires 1 <= s.g.size <= LOGSIZE && s.g.size <= |s.bufs| && s.g.start + 2 * s.g.size <= s.g.total
    ensures Runs(s, steps, s') && Overflow(s', o, i) && s'.bufs[i].key.value !in s'.lh
  {
    var n := s.g.size - 1;
    var a, s1 := StageBegin(s, n);
    var b := s1.g.start + s1.g.size + n;
    o, i := n / 10, n;
    s' := StageTake(s1, o, b, i);
    hide Runs;
    steps := a + [Get(o, b, i), Lock(o, i), Fill(o, i)];
    RunsAppend(s, a, s1, [Get(o, b, i), Lock(o, i), Fill(o, i)], s');
    assert |s'.ops[o].blocks + {b}| <= |s'.ops[o].blocks| + 1;
  }

  /** With a larger log the same three calls, all budgets used, reach it too: the second call
      writes once more a block it has logged already. */
  lemma AbsorbPanics(s: State) returns (steps: seq<Step>, s': State, o: nat, i: nat)
    requires Boot(s) && (forall i | 0 <= i < |s.bufs| :: s.bufs[i].key == None)
    requires LOGSIZE < s.g.size && LOGSIZE <= |s.bufs| && s.g.start + s.g.size + LOGSIZE <= s.g.total
    ensures Runs(s, steps, s') && Overflow(s', o, i) && s'.bufs[i].key.value in s'.ops[o].blocks
  {
    var a, s1 := StageBegin(s, LOGSIZE);
    o, i := 1, 10;
    var b := s1.lh[10];
    assert StageBuf(s1.bufs[10], b);
    var s2 := DoGet(s1, o, b, i);
    s' := DoLock(s2, o, i);
    var st := [Get(o, b, i), Lock(o, i)];
    assert Runs(s', st[2..], s') && Runs(s2, st[1..], s') && Runs(s1, st, s');
    hide Runs;
    steps := a + st;
    RunsAppend(s, a, s1, st, s');
    assert s'.ops[o].blocks + {b} == s'.ops[o].blocks;
  }
}
