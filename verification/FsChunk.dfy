/** filewrite's transactions: one chunk each, each within the budget of one operation. */
module FsChunk {
  import opened Params
  import opened FsDisk
  import opened FsInode
  import opened FsJournal
  import opened FsContent

  /** How many bytes chunk `k` of a write of n bytes has. */
  function Len(n: int, k: nat): int { if n - k * CHUNK > CHUNK then CHUNK else n - k * CHUNK }

  /** One transaction: refused, or a writei of `n1` bytes that logs at most MAXOPBLOCKS blocks. */
  ghost predicate Chunk(sb: Super, s: Snap, s': Snap, i: nat, src: seq<int>, off: nat, n1: int, r: int, w: nat) {
    && Inv(sb, s.d, s.ins, s.owner) && Inv(sb, s'.d, s'.ins, s'.owner) && i < |s.ins| == |s'.ins| && 0 <= n1
    && (r == -1 <==> off > s.ins[i].size || off + n1 > FILEMAX)
    && (r == -1 ==> s' == s.(logged := {}))
    && (r != -1 ==> r >= 0 && Wrote(sb, s.(logged := {}), s', i, src, off, n1, r, w) && |s'.logged| <= MAXOPBLOCKS)
  }

  /** Transaction `k` of a run that reads its part of the source and writes its part of the file after the ones
      before it were written in full. */
  ghost predicate ChunkAt(sb: Super, s: Snap, s': Snap, i: nat, src: seq<int>, off: nat, n: int, rs: seq<int>, k: nat,
                          w: nat)
    requires k < |rs|
  {
    && k * CHUNK < n && k * CHUNK <= |src| && (k > 0 ==> rs[k - 1] == CHUNK)
    && Chunk(sb, s, s', i, src[k * CHUNK..], off + k * CHUNK, Len(n, k), rs[k], w)
  }

  ghost predicate Chunks(sb: Super, snaps: seq<Snap>, i: nat, src: seq<int>, off: nat, n: int, rs: seq<int>,
                         ws: seq<nat>) {
    && |ws| == |rs| && |snaps| == |rs| + 1
    && forall k | 0 <= k < |rs| :: ChunkAt(sb, snaps[k], snaps[k + 1], i, src, off, n, rs, k, ws[k])
  }

  ghost predicate AllFull(n: int, rs: seq<int>) { forall k | 0 <= k < |rs| :: rs[k] == Len(n, k) }

  /** The loop ended where it had to: at n bytes, or with a chunk that was not written in full. */
  ghost predicate AllTried(n: int, rs: seq<int>) {
    |rs| * CHUNK >= n || (rs != [] && rs[|rs| - 1] != Len(n, |rs| - 1))
  }

  lemma NoChunks(sb: Super, s: Snap, i: nat, src: seq<int>, off: nat, n: int)
    ensures Chunks(sb, [s], i, src, off, n, [], []) && AllFull(n, []) && (n <= 0 ==> AllTried(n, []))
  {
  }

  lemma ChunkAtKept(sb: Super, s: Snap, s': Snap, i: nat, src: seq<int>, off: nat, n: int, rs: seq<int>, k: nat, w: nat,
                    r: int)
    requires k < |rs| && ChunkAt(sb, s, s', i, src, off, n, rs, k, w)
    ensures ChunkAt(sb, s, s', i, src, off, n, rs + [r], k, w)
  {
    hide Chunk;
  }

  /** The writei call of one chunk is one more transaction. */
  lemma OneChunk(sb: Super, s: Snap, s': Snap, i: nat, src: seq<int>, off: nat, n1: nat, r: int, w: nat)
    requires Inv(sb, s.d, s.ins, s.owner) && Inv(sb, s'.d, s'.ins, s'.owner) && i < |s.ins| == |s'.ins| && n1 <= CHUNK
    requires r == -1 <==> off > s.ins[i].size || off + n1 > FILEMAX
    requires r == -1 ==> s' == s.(logged := {})
    requires r != -1 ==> r >= 0 && Wrote(sb, s.(logged := {}), s', i, src, off, n1, r, w)
    ensures Chunk(sb, s, s', i, src, off, n1, r, w)
  {
    hide Grows, DataLogged, Stuck, Span, Iblock, Inv, Poked, Inside, Local, CutShort, Ended;
    ChunkFits(off, n1);
    assert s'.logged - {} == s'.logged;
  }

  lemma NextChunk(sb: Super, snaps: seq<Snap>, s: Snap, s': Snap, i: nat, src: seq<int>, off: nat, n: int, rs: seq<int>,
                  ws: seq<nat>, done: nat, n1: int, r: int, w: nat)
    requires Chunks(sb, snaps, i, src, off, n, rs, ws) && snaps[|rs|] == s && AllFull(n, rs)
    requires done == |rs| * CHUNK < n && done <= |src| && n1 == if n - done > CHUNK then CHUNK else n - done
    requires Chunk(sb, s, s', i, src[done..], off + done, n1, r, w)
    ensures Chunks(sb, snaps + [s'], i, src, off, n, rs + [r], ws + [w])
    ensures r == n1 ==>
      AllFull(n, rs + [r]) && (if done + n1 < n then done + n1 == (|rs| + 1) * CHUNK else AllTried(n, rs + [r]))
    ensures r != n1 ==> AllTried(n, rs + [r])
  {
    hide Chunk;
    var rs', ws', snaps' := rs + [r], ws + [w], snaps + [s'];
    forall k | 0 <= k < |rs'| ensures ChunkAt(sb, snaps'[k], snaps'[k + 1], i, src, off, n, rs', k, ws'[k]) {
      if k < |rs| { ChunkAtKept(sb, snaps[k], snaps[k + 1], i, src, off, n, rs, k, ws[k], r); }
    }
  }

  /** One more transaction, seen as a whole: `done` bytes counted before it, `done + r` after. */
  lemma FileNext(sb: Super, s0: Snap, s: Snap, s': Snap, i: nat, src: seq<int>, off: nat, done: nat, n1: int, r: int,
                 w: nat)
    requires FileWrote(sb, s0, s, i, src, off, done, done) && done <= |src|
    requires Chunk(sb, s, s', i, src[done..], off + done, n1, r, w)
    ensures r == -1 ==>
      FileWrote(sb, s0, s', i, src, off, done, done) && (off > s0.ins[i].size || off + done + n1 > FILEMAX)
    ensures r != -1 ==>
      r >= 0 && FileWrote(sb, s0, s', i, src, off, done + r, done + w) && r <= w <= n1 && done + w <= |src|
    ensures r != -1 ==>
      off + done + n1 <= FILEMAX && (r < n1 ==> |src| - done < n1 || Stuck(sb, s'.d, s'.ins, i, off + done + r))
  {
    hide Inv, Wrote, FileWrote, Stuck;
    FileSizes(sb, s0, s, i, src, off, done, done);
    if r == -1 {
      FileSame(sb, s0, s, s', i, src, off, done, done);
    } else {
      FileChunk(sb, s0, s, s', i, src, off, done, n1, r, w);
    }
  }
}
