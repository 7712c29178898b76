/** Files across crashes: filewrite's transactions over the log, and what recovery leaves of the files. */
module FsCrash {
  import opened Params
  import opened FsDisk
  import opened FsInode
  import opened FsJournal
  import opened FsContent
  import opened FsChunk
  import opened FsRun
  import L = LogDisk

  // ---- the file system as the log sees it ----

  const IWORDS: int := 16       // words of a dinode: two of type and links, the size, thirteen addresses

  /** A block of bytes as its 256 words. */
  function Pack(b: Block): (w: Block)
    requires |b| == BSIZE
    ensures |w| == 256
    ensures forall k | 0 <= k < 256 ::
      w[k] == b[4 * k] + 256 * b[4 * k + 1] + 65536 * b[4 * k + 2] + 16777216 * b[4 * k + 3]
  {
    seq(L.BWORDS, k requires 0 <= k < L.BWORDS => Word(b, k))
  }

  /** Block `w` holds inode `i`. */
  ghost predicate InodeAt(w: Block, i: nat, ino: Inode) {
    && |w| == 256 && |ino.addrs| == 13 && w[16 * (i % 16) + 2] == ino.size
    && forall k | 0 <= k < 13 :: w[16 * (i % 16) + 3 + k] == ino.addrs[k]
  }

  /** iupdate: the size and addresses of one inode go into its block. */
  function Iupdate(w: Block, slot: nat, ino: Inode): (w': Block)
    requires |w| == L.BWORDS && slot < IPB && |ino.addrs| == NDIRECT + 1
    ensures |w'| == L.BWORDS
  {
    w[..IWORDS * slot + 2] + [ino.size] + ino.addrs + w[IWORDS * slot + IWORDS..]
  }

  lemma IupdateAt(w: Block, i: nat, ino: Inode, j: nat, other: Inode)
    requires |w| == L.BWORDS && |ino.addrs| == NDIRECT + 1
    ensures InodeAt(Iupdate(w, i % IPB, ino), i, ino)
    ensures i % IPB != j % IPB && InodeAt(w, j, other) ==> InodeAt(Iupdate(w, i % IPB, ino), j, other)
  {
  }

  /** The log lies below the inodes, those below the bitmap, and it takes a whole operation. */
  ghost predicate Geometry(g: L.Geo, sb: Super, inodes: nat) {
    && 0 <= g.start && MAXOPBLOCKS < g.size && g.start + g.size <= sb.inodestart && g.total == sb.size
    && sb.inodestart + inodes / IPB < sb.bmapstart
  }

  lemma InodeBlock(g: L.Geo, sb: Super, inodes: nat, i: nat)
    requires Geometry(g, sb, inodes) && SuperOk(sb) && i < inodes
    ensures !L.InLog(g, Iblock(sb, i)) && 0 <= Iblock(sb, i) < sb.bmapstart < sb.nmeta <= g.total
  {
    InMeta(sb, 0);
  }

  /** Disk `d` holds the bitmap, the inodes and the files of `s`. */
  ghost predicate Holds(g: L.Geo, sb: Super, d: Disk, s: Snap)
    requires Geometry(g, sb, |s.ins|) && DiskOk(sb, s.d) && L.DiskOk(g, d)
  {
    && (forall b | sb.bmapstart <= b < sb.size :: d[b] == Pack(s.d[b]))
    && (forall i | 0 <= i < |s.ins| ::
          0 <= i / 16 + sb.inodestart < g.total && InodeAt(d[i / 16 + sb.inodestart], i, s.ins[i]))
  }

  lemma HoldsHome(g: L.Geo, sb: Super, d: Disk, d': Disk, s: Snap)
    requires Geometry(g, sb, |s.ins|) && DiskOk(sb, s.d) && L.DiskOk(g, d) && L.DiskOk(g, d')
    requires Holds(g, sb, d, s) && L.SameHome(g, d, d')
    ensures Holds(g, sb, d', s)
  {
    forall b | sb.bmapstart <= b < sb.size ensures d'[b] == Pack(s.d[b]) {
      assert !L.InLog(g, b);
    }
    forall i | 0 <= i < |s.ins| ensures InodeAt(d'[Iblock(sb, i)], i, s.ins[i]) { InodeBlock(g, sb, |s.ins|, i); }
  }

  // ---- the commit of one chunk ----

  /** What commit is given: the logged blocks in some order, and their contents in the buffer cache. */
  ghost predicate Commits(g: L.Geo, sb: Super, d: Disk, s: Snap, i: nat, bs: seq<int>, cache: map<int, Block>)
    requires DiskOk(sb, s.d) && InodesOk(s.ins) && i < |s.ins| && L.DiskOk(g, d) && Geometry(g, sb, |s.ins|)
  {
    && (forall b :: b in bs <==> b in s.logged) && (forall j, k | 0 <= j < k < |bs| :: bs[j] != bs[k])
    && (forall b | b in bs :: b in cache && 0 <= b < sb.size &&
          cache[b] == if b == Iblock(sb, i) then Iupdate(d[b], i % IPB, s.ins[i]) else Pack(s.d[b]))
  }

  lemma {:induction false} SeqSet(bs: seq<int>, s: set<int>)
    requires (forall b :: b in bs <==> b in s) && forall j, k | 0 <= j < k < |bs| :: bs[j] != bs[k]
    ensures |bs| == |s|
  {
    if bs == [] {
      assert forall b :: b !in s;
    } else {
      var bs', x := bs[..|bs| - 1], bs[|bs| - 1];
      forall b ensures b in bs' <==> b in s - {x} {
        if b in bs && b != x { assert b in bs'; }
      }
      SeqSet(bs', s - {x});
    }
  }

  /** What a chunk logs. */
  lemma ChunkLogged(sb: Super, s: Snap, s': Snap, i: nat, src: seq<int>, off: nat, n1: int, r: int, w: nat)
    requires Chunk(sb, s, s', i, src, off, n1, r, w)
    ensures |s'.logged| <= MAXOPBLOCKS && (r == -1 ==> s'.logged == {}) && (r != -1 ==> Iblock(sb, i) in s'.logged)
    ensures forall b | b in s'.logged :: b == Iblock(sb, i) || sb.bmapstart <= b < sb.size
    ensures r != -1 ==> r >= 0 && Logs(sb, s.(logged := {}), s', i, off, n1, r)
  {
    hide Inv, Grows, DataLogged, Span, Iblock, Local, CutShort, Poked, Ended, Faulted, Skip;
  }

  /** Such a list can be logged. */
  lemma CommitsOk(g: L.Geo, sb: Super, d: Disk, s: Snap, i: nat, bs: seq<int>, cache: map<int, Block>)
    requires DiskOk(sb, s.d) && InodesOk(s.ins) && i < |s.ins| && L.DiskOk(g, d) && Geometry(g, sb, |s.ins|)
    requires Commits(g, sb, d, s, i, bs, cache) && |s.logged| <= MAXOPBLOCKS
    requires forall b | b in s.logged :: b == Iblock(sb, i) || sb.bmapstart <= b < sb.size
    ensures L.Loggable(g, bs) && L.Cached(bs, cache)
  {
    hide Iblock, Iupdate, Pack;
    SeqSet(bs, s.logged);
    InodeBlock(g, sb, |s.ins|, i);
    LogBelow(g, sb, |s.ins|);
    forall k | 0 <= k < |bs| ensures 0 <= bs[k] < g.total && !L.InLog(g, bs[k]) && |cache[bs[k]]| == L.BWORDS {
      assert bs[k] in s.logged;
    }
  }

  lemma LogBelow(g: L.Geo, sb: Super, inodes: nat)
    requires Geometry(g, sb, inodes)
    ensures g.start + g.size <= sb.bmapstart
  {
  }

  /** What is on disk after a committed chunk: everything but the block in which the source ended, if it is not
      logged. */
  ghost function Survivor(sb: Super, s: Snap, s': Snap, i: nat, off: nat, n: nat, r: nat): (t: Snap)
    requires DiskOk(sb, s.d) && DiskOk(sb, s'.d) && InodesOk(s'.ins) && i < |s'.ins|
    ensures DiskOk(sb, t.d) && t.ins == s'.ins
  {
    var a := Skip(sb, s', i, off, n, r);
    if a in s'.logged || !(0 <= a < sb.size) then s' else s'.(d := s'.d[a := s.d[a]])
  }

  lemma NewHolds(g: L.Geo, sb: Super, d: Disk, d': Disk, s: Snap, s': Snap, i: nat, off: nat, n: nat, r: nat,
                 bs: seq<int>, cache: map<int, Block>)
    requires DiskOk(sb, s.d) && DiskOk(sb, s'.d) && InodesOk(s.ins) && InodesOk(s'.ins) && i < |s.ins| == |s'.ins|
    requires L.DiskOk(g, d) && L.DiskOk(g, d') && Geometry(g, sb, |s.ins|) && Holds(g, sb, d, s)
    requires Commits(g, sb, d, s', i, bs, cache) && L.NewHome(g, d, bs, cache, d')
    requires Logs(sb, s.(logged := {}), s', i, off, n, r) && Iblock(sb, i) in s'.logged
    ensures Holds(g, sb, d', Survivor(sb, s, s', i, off, n, r))
  {
    hide Skip, Faulted, Lookup, InodeAt, Pack, Iupdate;
    LogBelow(g, sb, |s.ins|);
    InodeBlock(g, sb, |s.ins|, i);
    var t := Survivor(sb, s, s', i, off, n, r);
    forall b | sb.bmapstart <= b < sb.size ensures d'[b] == Pack(t.d[b]) {
      assert !L.InLog(g, b);
    }
    forall j | 0 <= j < |s.ins| ensures InodeAt(d'[Iblock(sb, j)], j, t.ins[j]) {
      NewInode(g, sb, d, d', s, s', i, j, bs, cache);
    }
  }

  lemma NewInode(g: L.Geo, sb: Super, d: Disk, d': Disk, s: Snap, s': Snap, i: nat, j: nat, bs: seq<int>,
                 cache: map<int, Block>)
    requires DiskOk(sb, s.d) && DiskOk(sb, s'.d) && InodesOk(s.ins) && InodesOk(s'.ins) && i < |s.ins| == |s'.ins|
    requires L.DiskOk(g, d) && L.DiskOk(g, d') && Geometry(g, sb, |s.ins|) && Holds(g, sb, d, s) && j < |s.ins|
    requires Commits(g, sb, d, s', i, bs, cache) && L.NewHome(g, d, bs, cache, d') && Iblock(sb, i) in s'.logged
    requires forall k | 0 <= k < |s.ins| && k != i :: s'.ins[k] == s.ins[k]
    requires forall b | b in s'.logged :: b == Iblock(sb, i) || sb.bmapstart <= b < sb.size
    ensures InodeAt(d'[Iblock(sb, j)], j, s'.ins[j])
  {
    hide InodeAt, Pack, Iupdate;
    InodeBlock(g, sb, |s.ins|, i);
    InodeBlock(g, sb, |s.ins|, j);
    if Iblock(sb, j) == Iblock(sb, i) {
      IupdateAt(d[Iblock(sb, i)], i, s'.ins[i], j, s'.ins[j]);
      assert j == i || i % IPB != j % IPB;
    }
  }

  /** Where the bytes of the failing round are. */
  lemma FaultWindow(off: nat, n: nat, r: nat, w: nat, x: int)
    requires r < n && Edge(off, n, r) && r <= w < r + Piece(off, n, r)
    ensures var lo := (off + r) / BSIZE * BSIZE;
      && (off <= x && lo <= x < lo + BSIZE ==> off + r <= x)
      && (off + r <= x < off + w ==> lo <= x < lo + BSIZE)
  {
    var bn := (off + r) / BSIZE;
    assert off + r == bn * BSIZE + (off + r) % BSIZE;
  }

  /** Taking the old bytes of that block back leaves the counted bytes. */
  lemma Undone(sb: Super, s: Snap, s': Snap, i: nat, src: seq<int>, off: nat, n: nat, r: nat, w: nat, a: int)
    requires Inv(sb, s.d, s.ins, s.owner) && Inv(sb, s'.d, s'.ins, s'.owner) && i < |s.ins| == |s'.ins|
    requires off + n <= FILEMAX
    requires r < n && Edge(off, n, r) && r <= w < r + Piece(off, n, r) && w <= |src|
    requires Poked(sb, s.d, s.ins, s'.d, s'.ins, i, off, src[..w])
    requires a == Lookup(sb, s.d, s.ins, i, (off + r) / BSIZE) == Lookup(sb, s'.d, s'.ins, i, (off + r) / BSIZE) != 0
    ensures 0 < a < sb.size && var d2 := s'.d[a := s.d[a]];
      Inv(sb, d2, s'.ins, s'.owner) && Poked(sb, s.d, s.ins, d2, s'.ins, i, off, src[..r])
  {
    hide Inv, Lookup, Piece, Edge, Poked;
    var bn := (off + r) / BSIZE;
    InvFacts(sb, s.d, s.ins, s.owner, i, bn);
    InvFacts(sb, s'.d, s'.ins, s'.owner, i, bn);
    var d2 := s'.d[a := s.d[a]];
    assert s.d[a] == Overlay(s'.d[a], 0, s.d[a]);
    Poke(sb, s'.d, s'.ins, s'.owner, d2, i, bn, a, 0, s.d[a]);
    InvSizes(sb, d2, s'.ins, s'.owner);
    assert bn * BSIZE + 0 == bn * BSIZE;
    UndoneBytes(sb, s, s', d2, i, src, off, n, r, w, a);
  }

  lemma UndoneBytes(sb: Super, s: Snap, s': Snap, d2: Disk, i: nat, src: seq<int>, off: nat, n: nat, r: nat, w: nat,
                    a: int)
    requires DiskOk(sb, s.d) && DiskOk(sb, s'.d) && DiskOk(sb, d2) && InodesOk(s.ins) && InodesOk(s'.ins)
    requires i < |s.ins| == |s'.ins| && off + n <= FILEMAX
    requires r < n && Edge(off, n, r) && r <= w < r + Piece(off, n, r) && w <= |src|
    requires Poked(sb, s.d, s.ins, s'.d, s'.ins, i, off, src[..w]) && 0 < a < sb.size
    requires a == Lookup(sb, s.d, s.ins, i, (off + r) / BSIZE)
    requires Poked(sb, s'.d, s'.ins, d2, s'.ins, i, (off + r) / BSIZE * BSIZE, s.d[a])
    ensures Poked(sb, s.d, s.ins, d2, s'.ins, i, off, src[..r])
  {
    hide Lookup, Piece, Edge, ByteAt;
    var bn := (off + r) / BSIZE;
    forall j, x | 0 <= j < |s.ins| && 0 <= x < FILEMAX
      ensures ByteAt(sb, d2, s'.ins, j, x) ==
        if j == i && off <= x < off + r then src[x - off] else ByteAt(sb, s.d, s.ins, j, x)
    {
      FaultWindow(off, n, r, w, x);
      if bn * BSIZE <= x < bn * BSIZE + BSIZE { ReadByte(sb, s.d, s.ins, i, bn, 0, BSIZE, a, x); }
    }
  }

  lemma SpliceShort(was: seq<int>, src: seq<int>, off: nat, r: nat, w: nat)
    requires off <= |was| <= off + r && r <= w <= |src|
    ensures Splice(was, src, off, r, w) == Splice(was, src, off, r, r)
  {
  }

  /** The files that survive a committed chunk are those before it with exactly the counted bytes spliced in. */
  lemma SurvivorFiles(sb: Super, s: Snap, s': Snap, i: nat, src: seq<int>, off: nat, n: nat, r: nat, w: nat)
    requires Chunk(sb, s, s', i, src, off, n, r, w) && Iblock(sb, i) < sb.nmeta
    ensures var t := Survivor(sb, s, s', i, off, n, r);
      && Inv(sb, t.d, t.ins, t.owner) && off <= |Files(sb, s)[i]| && r <= |src| && (r == n ==> t == s')
      && Files(sb, t) == Files(sb, s)[i := Splice(Files(sb, s)[i], src, off, r, r)]
  {
    hide Inv, Grows, DataLogged, Span, Iblock, Local, Poked, Stuck, Lookup, Content, Splice, Edge, Piece;
    InvSizes(sb, s.d, s.ins, s.owner);
    InvSizes(sb, s'.d, s'.ins, s'.owner);
    if Faulted(sb, s'.d, s'.ins, i, off, n, r) {
      FaultFiles(sb, s, s', i, src, off, n, r, w);
    } else {
      PokedContent(sb, s, s', i, src, off, r, w);
    }
  }

  lemma FaultFiles(sb: Super, s: Snap, s': Snap, i: nat, src: seq<int>, off: nat, n: nat, r: nat, w: nat)
    requires Inv(sb, s.d, s.ins, s.owner) && Inv(sb, s'.d, s'.ins, s'.owner) && i < |s.ins| == |s'.ins|
    requires Iblock(sb, i) < sb.nmeta && off <= s.ins[i].size && off + n <= FILEMAX
    requires Wrote(sb, s.(logged := {}), s', i, src, off, n, r, w) && Faulted(sb, s'.d, s'.ins, i, off, n, r)
    ensures var t := Survivor(sb, s, s', i, off, n, r);
      && Inv(sb, t.d, t.ins, t.owner) && r <= |src|
      && Content(sb, t.d, t.ins, i) == Splice(Content(sb, s.d, s.ins, i), src, off, r, r)
      && forall j | 0 <= j < |s.ins| && j != i :: Content(sb, t.d, t.ins, j) == Content(sb, s.d, s.ins, j)
  {
    hide Inv, DataLogged, Span, Iblock, Local, Poked, Grows, Lookup, Content, Splice, Edge, Piece;
    InvSizes(sb, s.d, s.ins, s.owner);
    InvSizes(sb, s'.d, s'.ins, s'.owner);
    var t, bn := Survivor(sb, s, s', i, off, n, r), (off + r) / BSIZE;
    InvFacts(sb, s'.d, s'.ins, s'.owner, i, bn);
    if Lookup(sb, s.d, s.ins, i, bn) == 0 {
      if off + r < s.ins[i].size { ReadFacts(sb, s.d, s.ins, s.owner, i, off + r); }
      PokedContent(sb, s, s', i, src, off, r, w);
      SpliceShort(Content(sb, s.d, s.ins, i), src, off, r, w);
    } else {
      StillThere(sb, s.(logged := {}), s', i, bn);
      Undone(sb, s, s', i, src, off, n, r, w, Lookup(sb, s'.d, s'.ins, i, bn));
      PokedContent(sb, s, t, i, src, off, r, r);
    }
  }

  /** One transaction and a crash anywhere in its commit, or before it: after recovery the disk holds a well-formed
      file system with the files as they were, or with the counted bytes of this chunk and no others. */
  lemma ChunkCrash(g: L.Geo, sb: Super, d: Disk, s: Snap, s': Snap, i: nat, src: seq<int>, off: nat, n: nat, r: int,
                   w: nat, bs: seq<int>, cache: map<int, Block>, m: nat, crashes: seq<nat>) returns (t: Snap)
    requires Chunk(sb, s, s', i, src, off, n, r, w) && L.DiskOk(g, d) && Geometry(g, sb, |s.ins|)
    requires L.HeadIs(g, d, []) && Holds(g, sb, d, s) && Commits(g, sb, d, s', i, bs, cache) && m <= 2 * |bs| + 2
    ensures L.Loggable(g, bs) && L.Cached(bs, cache) && |t.ins| == |s.ins| && Inv(sb, t.d, t.ins, t.owner)
    ensures L.Bootable(g, L.CommitAfter(g, d, bs, cache, m))
    ensures var x := L.Recovered(g, L.Boots(g, L.CommitAfter(g, d, bs, cache, m), crashes));
      L.HeadIs(g, x, []) && Holds(g, sb, x, t)
    ensures m <= |bs| || r == -1 ==> Files(sb, t) == Files(sb, s)
    ensures m > |bs| && r != -1 ==>
      && r >= 0 && off <= |Files(sb, s)[i]| && r <= |src|
      && Files(sb, t) == Files(sb, s)[i := Splice(Files(sb, s)[i], src, off, r, r)]
  {
    hide Inv, Wrote, Logs, L.Recovered, L.Boots, L.CommitAfter, Survivor, Files, Holds, Commits;
    ChunkLogged(sb, s, s', i, src, off, n, r, w);
    InvSizes(sb, s.d, s.ins, s.owner);
    InvSizes(sb, s'.d, s'.ins, s'.owner);
    CommitsOk(g, sb, d, s', i, bs, cache);
    L.CommitAtomic(g, d, bs, cache, m, crashes);
    var x := L.Recovered(g, L.Boots(g, L.CommitAfter(g, d, bs, cache, m), crashes));
    t := s;
    if m <= |bs| {
      HoldsHome(g, sb, d, x, s);
    } else if r == -1 {
      NoneLogged(g, sb, d, s', i, bs, cache, x);
      HoldsHome(g, sb, d, x, s);
    } else {
      t := Survivor(sb, s, s', i, off, n, r);
      NewHolds(g, sb, d, x, s, s', i, off, n, r, bs, cache);
      InodeBlock(g, sb, |s.ins|, i);
      SurvivorFiles(sb, s, s', i, src, off, n, r, w);
    }
  }

  lemma NoneLogged(g: L.Geo, sb: Super, d: Disk, s: Snap, i: nat, bs: seq<int>, cache: map<int, Block>, x: Disk)
    requires DiskOk(sb, s.d) && InodesOk(s.ins) && i < |s.ins| && L.DiskOk(g, d) && Geometry(g, sb, |s.ins|)
    requires Commits(g, sb, d, s, i, bs, cache) && s.logged == {} && L.DiskOk(g, x) && L.NewHome(g, d, bs, cache, x)
    ensures L.SameHome(g, d, x)
  {
  }

  // ---- a whole filewrite ----

  /** A chunk written in full and its commit run to the end. */
  lemma ChunkDone(g: L.Geo, sb: Super, d: Disk, s: Snap, s': Snap, i: nat, src: seq<int>, off: nat, n: nat, r: int,
                  w: nat, bs: seq<int>, cache: map<int, Block>)
    requires Chunk(sb, s, s', i, src, off, n, r, w) && L.DiskOk(g, d) && Geometry(g, sb, |s.ins|) && r == n
    requires L.HeadIs(g, d, []) && Holds(g, sb, d, s) && Commits(g, sb, d, s', i, bs, cache)
    ensures L.Loggable(g, bs) && L.Cached(bs, cache)
    ensures var d' := L.CommitAfter(g, d, bs, cache, 2 * |bs| + 2); L.HeadIs(g, d', []) && Holds(g, sb, d', s')
    ensures off <= |Files(sb, s)[i]| && r <= |src|
    ensures Files(sb, s') == Files(sb, s)[i := Splice(Files(sb, s)[i], src, off, r, r)]
  {
    hide Inv, Wrote, Logs, Survivor, Files, Holds, Commits, L.Install, L.Append, L.Encode;
    ChunkLogged(sb, s, s', i, src, off, n, r, w);
    InvSizes(sb, s.d, s.ins, s.owner);
    InvSizes(sb, s'.d, s'.ins, s'.owner);
    CommitsOk(g, sb, d, s', i, bs, cache);
    L.LoggedHome(g, d, bs, cache);
    var x := L.Recovered(g, L.Committed(g, d, bs, cache));
    assert x == L.CommitAfter(g, d, bs, cache, 2 * |bs| + 2);
    NewHolds(g, sb, d, x, s, s', i, off, n, r, bs, cache);
    InodeBlock(g, sb, |s.ins|, i);
    SurvivorFiles(sb, s, s', i, src, off, n, r, w);
  }

  /** One commit after another: disk `d` becomes `d'` when the chunk that led to `s` commits. */
  ghost predicate Commitment(g: L.Geo, sb: Super, d: Disk, d': Disk, s: Snap, i: nat, bs: seq<int>,
                             cache: map<int, Block>) {
    && DiskOk(sb, s.d) && InodesOk(s.ins) && i < |s.ins| && L.DiskOk(g, d) && Geometry(g, sb, |s.ins|)
    && Commits(g, sb, d, s, i, bs, cache) && L.Loggable(g, bs) && L.Cached(bs, cache)
    && d' == L.CommitAfter(g, d, bs, cache, 2 * |bs| + 2)
  }

  ghost predicate Commitments(g: L.Geo, sb: Super, ds: seq<Disk>, snaps: seq<Snap>, i: nat, bss: seq<seq<int>>,
                              caches: seq<map<int, Block>>) {
    && |snaps| == |ds| == |bss| + 1 == |caches| + 1
    && forall j | 0 <= j < |bss| :: Commitment(g, sb, ds[j], ds[j + 1], snaps[j + 1], i, bss[j], caches[j])
  }

  /** The files with the first `c` bytes of the write in place. */
  ghost function Upto(files: seq<seq<int>>, i: nat, src: seq<int>, off: nat, c: nat): seq<seq<int>>
    requires c > 0 ==> i < |files| && off <= |files[i]| && c <= |src|
  {
    if c == 0 then files else files[i := Splice(files[i], src, off, c, c)]
  }

  lemma UptoNext(files: seq<seq<int>>, i: nat, src: seq<int>, off: nat, a: nat, r: nat)
    requires i < |files| && (a > 0 ==> off <= |files[i]|) && a <= |src| && r <= |src[a..]|
    requires off + a <= |Upto(files, i, src, off, a)[i]|
    ensures off <= |files[i]| && a + r <= |src|
    ensures var f := Upto(files, i, src, off, a);
      f[i := Splice(f[i], src[a..], off + a, r, r)] == Upto(files, i, src, off, a + r)
  {
    var f := Upto(files, i, src, off, a);
    var g, h := f[i := Splice(f[i], src[a..], off + a, r, r)], Upto(files, i, src, off, a + r);
    assert g[i] == h[i];
    assert g == h;
  }

  /** The disk, with an empty log, holds the files of `s`, and those are the files of `s0` with the first `c` bytes
      of the write in place. */
  ghost predicate Held(g: L.Geo, sb: Super, d: Disk, s0: Snap, s: Snap, i: nat, src: seq<int>, off: nat, c: nat) {
    && Inv(sb, s0.d, s0.ins, s0.owner) && Inv(sb, s.d, s.ins, s.owner) && i < |s.ins| == |s0.ins|
    && Geometry(g, sb, |s.ins|) && L.DiskOk(g, d) && L.HeadIs(g, d, []) && Holds(g, sb, d, s)
    && c <= |src| && (c > 0 ==> off <= |Files(sb, s0)[i]|)
    && Files(sb, s) == Upto(Files(sb, s0), i, src, off, c)
  }

  lemma HeldNext(g: L.Geo, sb: Super, d: Disk, d': Disk, s0: Snap, s: Snap, s': Snap, i: nat, src: seq<int>, off: nat,
                 c: nat, n: nat, r: int, w: nat, bs: seq<int>, cache: map<int, Block>)
    requires Held(g, sb, d, s0, s, i, src, off, c) && Commitment(g, sb, d, d', s', i, bs, cache)
    requires Chunk(sb, s, s', i, src[c..], off + c, n, r, w) && r == n
    ensures Held(g, sb, d', s0, s', i, src, off, c + r)
  {
    hide Inv, Wrote, Files, Holds, Commits, L.CommitAfter, Upto, L.HeadIs, Splice;
    ChunkDone(g, sb, d, s, s', i, src[c..], off + c, n, r, w, bs, cache);
    UptoNext(Files(sb, s0), i, src, off, c, r);
  }

  /** What recovery leaves of a crash in the commit of the next chunk. */
  lemma HeldCrash(g: L.Geo, sb: Super, d: Disk, d': Disk, s0: Snap, s: Snap, s': Snap, i: nat, src: seq<int>, off: nat,
                  c: nat, n: nat, r: int, w: nat, bs: seq<int>, cache: map<int, Block>, m: nat, crashes: seq<nat>)
    returns (t: Snap, c': nat)
    requires Commitment(g, sb, d, d', s', i, bs, cache) && m <= 2 * |bs| + 2 && c <= |src|
    requires Held(g, sb, d, s0, s, i, src, off, c) && Chunk(sb, s, s', i, src[c..], off + c, n, r, w)
    ensures L.Bootable(g, L.CommitAfter(g, d, bs, cache, m)) && c' == if m <= |bs| || r == -1 then c else c + r
    ensures Held(g, sb, L.Recovered(g, L.Boots(g, L.CommitAfter(g, d, bs, cache, m), crashes)), s0, t, i, src, off, c')
  {
    hide Inv, Wrote, Files, Holds, Commits, L.CommitAfter, Upto, L.HeadIs, Splice, L.Recovered, L.Boots;
    t := ChunkCrash(g, sb, d, s, s', i, src[c..], off + c, n, r, w, bs, cache, m, crashes);
    c' := c;
    if m > |bs| && r != -1 {
      UptoNext(Files(sb, s0), i, src, off, c, r);
      c' := c + r;
    }
  }

  /** Before transaction `k` the disk holds the files with the first k chunks of the source. */
  lemma {:induction false} HeldAt(g: L.Geo, sb: Super, ds: seq<Disk>, snaps: seq<Snap>, i: nat, src: seq<int>, off: nat,
                                  n: int, rs: seq<int>, ws: seq<nat>, bss: seq<seq<int>>, caches: seq<map<int, Block>>,
                                  k: nat)
    requires Chunks(sb, snaps, i, src, off, n, rs, ws) && Commitments(g, sb, ds, snaps, i, bss, caches) && k < |rs|
    requires Held(g, sb, ds[0], snaps[0], snaps[0], i, src, off, 0)
    ensures Held(g, sb, ds[k], snaps[0], snaps[k], i, src, off, k * CHUNK)
  {
    hide Held, Chunk, Commitment;
    if k > 0 {
      HeldAt(g, sb, ds, snaps, i, src, off, n, rs, ws, bss, caches, k - 1);
      assert ChunkAt(sb, snaps[k - 1], snaps[k], i, src, off, n, rs, k - 1, ws[k - 1]);
      assert ChunkAt(sb, snaps[k], snaps[k + 1], i, src, off, n, rs, k, ws[k]);
      assert Commitment(g, sb, ds[k - 1], ds[k], snaps[k], i, bss[k - 1], caches[k - 1]);
      HeldNext(g, sb, ds[k - 1], ds[k], snaps[0], snaps[k - 1], snaps[k], i, src, off, (k - 1) * CHUNK, CHUNK,
               rs[k - 1], ws[k - 1], bss[k - 1], caches[k - 1]);
    }
  }

  /** A crash anywhere in filewrite: in transaction `k`, before its commit or after any of the commit's writes, and then
      any number of crashes in recovery.  The files come back as they were before the call with a whole number of bytes
      of the source in place: those of the first k chunks, or also the bytes that chunk k counted, never others. */
  lemma FilewriteCrash(g: L.Geo, sb: Super, ds: seq<Disk>, snaps: seq<Snap>, i: nat, src: seq<int>, off: nat, n: int,
                       rs: seq<int>, ws: seq<nat>, bss: seq<seq<int>>, caches: seq<map<int, Block>>, k: nat, m: nat,
                       crashes: seq<nat>) returns (t: Snap, c: nat)
    requires Chunks(sb, snaps, i, src, off, n, rs, ws) && Commitments(g, sb, ds, snaps, i, bss, caches) && k < |rs|
    requires Held(g, sb, ds[0], snaps[0], snaps[0], i, src, off, 0) && m <= 2 * |bss[k]| + 2
    ensures Commitment(g, sb, ds[k], ds[k + 1], snaps[k + 1], i, bss[k], caches[k])
    ensures L.Bootable(g, L.CommitAfter(g, ds[k], bss[k], caches[k], m))
    ensures c == if m <= |bss[k]| || rs[k] == -1 then k * CHUNK else k * CHUNK + rs[k]
    ensures Held(g, sb, L.Recovered(g, L.Boots(g, L.CommitAfter(g, ds[k], bss[k], caches[k], m), crashes)), snaps[0], t,
                 i, src, off, c)
  {
    hide Held, Chunk, L.Recovered, L.Boots, L.CommitAfter, Commits;
    HeldAt(g, sb, ds, snaps, i, src, off, n, rs, ws, bss, caches, k);
    assert ChunkAt(sb, snaps[k], snaps[k + 1], i, src, off, n, rs, k, ws[k]);
    assert Commitment(g, sb, ds[k], ds[k + 1], snaps[k + 1], i, bss[k], caches[k]);
    t, c := HeldCrash(g, sb, ds[k], ds[k + 1], snaps[0], snaps[k], snaps[k + 1], i, src, off, k * CHUNK, Len(n, k),
                      rs[k], ws[k], bss[k], caches[k], m, crashes);
  }

  // ---- such a run of commits exists, and a disk holds one set of files ----

  lemma {:induction false} Listed(s: set<int>) returns (bs: seq<int>)
    ensures (forall b :: b in bs <==> b in s) && forall j, k | 0 <= j < k < |bs| :: bs[j] != bs[k]
    decreases |s|
  {
    bs := [];
    if x :| x in s {
      var rest := Listed(s - {x});
      bs := rest + [x];
    }
  }

  /** The disk with its next commit done. */
  lemma CommitNext(g: L.Geo, sb: Super, d: Disk, s: Snap, s': Snap, i: nat, src: seq<int>, off: nat, n: nat, r: int,
                   w: nat)
    returns (d': Disk, bs: seq<int>, cache: map<int, Block>)
    requires Chunk(sb, s, s', i, src, off, n, r, w) && L.DiskOk(g, d) && Geometry(g, sb, |s.ins|)
    ensures Commitment(g, sb, d, d', s', i, bs, cache) && L.DiskOk(g, d') && |s'.ins| == |s.ins|
  {
    hide Inv, Wrote, L.CommitAfter, Pack, Iupdate;
    ChunkLogged(sb, s, s', i, src, off, n, r, w);
    InvSizes(sb, s'.d, s'.ins, s'.owner);
    InodeBlock(g, sb, |s'.ins|, i);
    bs := Listed(s'.logged);
    cache := map b | b in s'.logged :: if b == Iblock(sb, i) then Iupdate(d[b], i % IPB, s'.ins[i]) else Pack(s'.d[b]);
    CommitsOk(g, sb, d, s', i, bs, cache);
    d' := L.CommitAfter(g, d, bs, cache, 2 * |bs| + 2);
  }

  /** The transactions of every filewrite can be committed one after the other. */
  lemma {:induction false} CommitAll(g: L.Geo, sb: Super, d: Disk, snaps: seq<Snap>, i: nat, src: seq<int>, off: nat,
                                     n: int, rs: seq<int>, ws: seq<nat>, k: nat)
    returns (ds: seq<Disk>, bss: seq<seq<int>>, caches: seq<map<int, Block>>)
    requires Chunks(sb, snaps, i, src, off, n, rs, ws) && k <= |rs| && L.DiskOk(g, d) && Geometry(g, sb, |snaps[0].ins|)
    ensures Commitments(g, sb, ds, snaps[..k + 1], i, bss, caches) && ds[0] == d && L.DiskOk(g, ds[k])
    ensures |snaps[k].ins| == |snaps[0].ins|
  {
    hide Chunk, Commitment;
    ds, bss, caches := [d], [], [];
    if k > 0 {
      ds, bss, caches := CommitAll(g, sb, d, snaps, i, src, off, n, rs, ws, k - 1);
      assert ChunkAt(sb, snaps[k - 1], snaps[k], i, src, off, n, rs, k - 1, ws[k - 1]);
      var d', bs, cache := CommitNext(g, sb, ds[k - 1], snaps[k - 1], snaps[k], i, src[(k - 1) * CHUNK..],
                                      off + (k - 1) * CHUNK, Len(n, k - 1), rs[k - 1], ws[k - 1]);
      ds, bss, caches := ds + [d'], bss + [bs], caches + [cache];
    }
  }

  ghost predicate Bytes(b: Block) { forall k | 0 <= k < |b| :: 0 <= b[k] < 256 }

  ghost predicate AllBytes(sb: Super, d: Disk)
    requires DiskOk(sb, d)
  {
    forall b | 0 <= b < sb.size :: Bytes(d[b])
  }

  lemma PackOne(a: Block, b: Block)
    requires |a| == |b| == BSIZE && Bytes(a) && Bytes(b) && Pack(a) == Pack(b)
    ensures a == b
  {
    forall k | 0 <= k < BSIZE ensures a[k] == b[k] {
      WordOne(a, b, k / 4);
    }
  }

  lemma WordOne(a: Block, b: Block, j: nat)
    requires |a| == |b| == BSIZE && Bytes(a) && Bytes(b) && Pack(a) == Pack(b) && j < L.BWORDS
    ensures forall k | 4 * j <= k < 4 * j + 4 :: a[k] == b[k]
  {
    hide Bytes, Pack;
    assert Word(a, j) == Pack(a)[j] == Pack(b)[j] == Word(b, j);
    WordRange(a, j);
    WordRange(b, j);
    Digits4(a[4 * j], a[4 * j + 1], a[4 * j + 2], a[4 * j + 3], b[4 * j], b[4 * j + 1], b[4 * j + 2], b[4 * j + 3]);
  }

  lemma WordRange(a: Block, j: nat)
    requires |a| == BSIZE && Bytes(a) && j < L.BWORDS
    ensures 0 <= a[4 * j] < 256 && 0 <= a[4 * j + 1] < 256 && 0 <= a[4 * j + 2] < 256 && 0 <= a[4 * j + 3] < 256
  {
  }

  lemma Digits4(p: int, q: int, r: int, s: int, p': int, q': int, r': int, s': int)
    requires 0 <= p < 256 && 0 <= q < 256 && 0 <= r < 256 && 0 <= s < 256
    requires 0 <= p' < 256 && 0 <= q' < 256 && 0 <= r' < 256 && 0 <= s' < 256
    requires p + 256 * q + 65536 * r + 16777216 * s == p' + 256 * q' + 65536 * r' + 16777216 * s'
    ensures p == p' && q == q' && r == r' && s == s'
  {
    Digit(p, q + 256 * r + 65536 * s, p', q' + 256 * r' + 65536 * s');
    Digit(q, r + 256 * s, q', r' + 256 * s');
    Digit(r, s, r', s');
  }

  lemma Digit(p: int, x: int, p': int, x': int)
    requires 0 <= p < 256 && 0 <= p' < 256 && p + 256 * x == p' + 256 * x'
    ensures p == p' && x == x'
  {
  }

  lemma SameFile(sb: Super, s: Snap, d: Disk, owner: map<int, Place>, i: nat)
    requires Inv(sb, s.d, s.ins, s.owner) && Inv(sb, d, s.ins, owner) && i < |s.ins|
    requires forall b | sb.bmapstart <= b < sb.size :: s.d[b] == d[b]
    ensures Content(sb, s.d, s.ins, i) == Content(sb, d, s.ins, i)
  {
    hide Inv, Lookup, Content;
    InvSizes(sb, s.d, s.ins, s.owner);
    InvSizes(sb, d, s.ins, owner);
    InMeta(sb, 0);
    forall x | 0 <= x < FILEMAX ensures ByteAt(sb, d, s.ins, i, x) == ByteAt(sb, s.d, s.ins, i, x) {
      InvFacts(sb, s.d, s.ins, s.owner, i, x / BSIZE);
      InvFacts(sb, d, s.ins, owner, i, x / BSIZE);
    }
    SameContent(sb, s.d, s.ins, d, s.ins, i);
  }

  /** A disk holds one set of files. */
  lemma HoldsOne(g: L.Geo, sb: Super, d: Disk, s: Snap, s': Snap)
    requires Inv(sb, s.d, s.ins, s.owner) && Inv(sb, s'.d, s'.ins, s'.owner) && |s.ins| == |s'.ins|
    requires Geometry(g, sb, |s.ins|) && L.DiskOk(g, d) && Holds(g, sb, d, s) && Holds(g, sb, d, s')
    requires AllBytes(sb, s.d) && AllBytes(sb, s'.d)
    ensures Files(sb, s) == Files(sb, s')
  {
    hide Inv, Content, Pack;
    InvSizes(sb, s.d, s.ins, s.owner);
    InvSizes(sb, s'.d, s'.ins, s'.owner);
    InMeta(sb, 0);
    forall b | sb.bmapstart <= b < sb.size ensures s.d[b] == s'.d[b] { PackOne(s.d[b], s'.d[b]); }
    forall i | 0 <= i < |s.ins| ensures s.ins[i] == s'.ins[i] {
      assert s.ins[i].addrs == s'.ins[i].addrs;
    }
    assert s.ins == s'.ins;
    forall i | 0 <= i < |s.ins| ensures Content(sb, s.d, s.ins, i) == Content(sb, s'.d, s.ins, i) {
      SameFile(sb, s, s'.d, s'.owner, i);
    }
  }
}
