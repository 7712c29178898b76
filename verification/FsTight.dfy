/** The transaction bound is tight: a layout from which one chunk logs exactly MAXOPBLOCKS blocks. */
module FsTight {
  import opened Params
  import opened FsDisk
  import opened FsInode
  import opened FsJournal
  import opened FsContent

  /** The free blocks are exactly these four, each under its own bitmap block. */
  ghost predicate Scattered(sb: Super, d: Disk, f: seq<int>)
    requires DiskOk(sb, d)
  {
    && |f| == 4
    && (forall c | 0 <= c < sb.size :: !Bit(sb, d, c) <==> c in f)
    && (forall a, b | 0 <= a < b < 4 :: Bblock(sb, f[a]) != Bblock(sb, f[b]))
    && (forall a | 0 <= a < 4 :: 0 <= f[a] < sb.size)
  }

  /** A block taken during the write was free before, and is referenced from a place that was empty. */
  lemma NewBlock(sb: Super, s0: Snap, s2: Snap, i: nat, pl: Place, f: seq<int>)
    requires Inv(sb, s0.d, s0.ins, s0.owner) && Inv(sb, s2.d, s2.ins, s2.owner) && i < |s0.ins| == |s2.ins|
    requires Scattered(sb, s0.d, f)
    requires Grows(sb, s0.d, s0.ins, s0.owner, s0.logged, s2.d, s2.ins, s2.owner, s2.logged, i)
    requires PlaceOk(s0.ins, pl) && Ref(sb, s0.d, s0.ins, pl) == 0 && Ref(sb, s2.d, s2.ins, pl) != 0
    ensures var b := Ref(sb, s2.d, s2.ins, pl);
      b in f && b in s2.logged && Bblock(sb, b) in s2.logged && sb.nmeta <= b < sb.size
  {
    var b := Ref(sb, s2.d, s2.ins, pl);
    assert PlaceOk(s2.ins, pl);
    assert b in s2.owner && s2.owner[b] == pl;
    assert b !in s0.owner;
  }

  /** When the disk is full at the end, each free block has gone to a place the write may fill. */
  lemma Taken(sb: Super, s0: Snap, s2: Snap, i: nat, b: int, lo: int, hi: int)
    requires Inv(sb, s0.d, s0.ins, s0.owner) && Inv(sb, s2.d, s2.ins, s2.owner) && i < |s0.ins| == |s2.ins|
    requires 0 <= b < sb.size && !Bit(sb, s0.d, b) && Full(sb, s2.d) && Local(sb, s0.d, s0.ins, s2.d, s2.ins, i, lo, hi)
    ensures b in s2.owner && PlaceOk(s0.ins, s2.owner[b]) && InBlocks(s2.owner[b], i, lo, hi)
    ensures Ref(sb, s2.d, s2.ins, s2.owner[b]) == b && Ref(sb, s0.d, s0.ins, s2.owner[b]) != b
  {
    assert Bit(sb, s2.d, b);
    var pl := s2.owner[b];
    assert PlaceOk(s0.ins, pl);
  }

  ghost predicate Start(sb: Super, s0: Snap, i: nat, off: nat, f: seq<int>) {
    && Inv(sb, s0.d, s0.ins, s0.owner) && i < |s0.ins| && Scattered(sb, s0.d, f) && s0.logged == {}
    && 11 * BSIZE < off < 12 * BSIZE && off <= s0.ins[i].size && s0.ins[i].addrs[NDIRECT] == 0
    && sb.inodestart >= 0 && Iblock(sb, i) < sb.bmapstart
  }

  /** Before the write block 11 is there, and blocks 12 to 14 and the indirect block are not. */
  lemma StartRefs(sb: Super, s0: Snap, i: nat, off: nat, f: seq<int>, k: nat)
    requires Start(sb, s0, i, off, f) && k < 3
    ensures Ref(sb, s0.d, s0.ins, Direct(i, 11)) != 0 && Ref(sb, s0.d, s0.ins, Entry(i, k)) == 0
    ensures Ref(sb, s0.d, s0.ins, Indir(i)) == 0
  {
    assert Lookup(sb, s0.d, s0.ins, i, 11) != 0;
  }

  /** Had the disk filled up, this free block would have gone to block 12, 13 or 14 or to the indirect block. */
  lemma TakenPlace(sb: Super, s0: Snap, s2: Snap, i: nat, off: nat, f: seq<int>, a: nat)
    requires Start(sb, s0, i, off, f) && Inv(sb, s2.d, s2.ins, s2.owner) && |s0.ins| == |s2.ins| && a < 4
    requires Full(sb, s2.d) && Local(sb, s0.d, s0.ins, s2.d, s2.ins, i, 11, 14)
    requires Grows(sb, s0.d, s0.ins, s0.owner, s0.logged, s2.d, s2.ins, s2.owner, s2.logged, i)
    ensures f[a] in s2.owner && s2.owner[f[a]] in {Entry(i, 0), Entry(i, 1), Entry(i, 2), Indir(i)}
    ensures PlaceOk(s2.ins, s2.owner[f[a]]) && Ref(sb, s2.d, s2.ins, s2.owner[f[a]]) == f[a] != 0
  {
    hide Local, Full, Bit, Bits, Solid, SizesOk, Iblock;
    assert f[a] in f;
    Taken(sb, s0, s2, i, f[a], 11, 14);
    StartRefs(sb, s0, i, off, f, 0);
    assert s2.owner[f[a]] != Direct(i, 11);
  }

  /** The chunk is written completely. */
  lemma Complete(sb: Super, s0: Snap, s2: Snap, i: nat, src: seq<int>, off: nat, f: seq<int>, r: nat, w: nat)
    requires Start(sb, s0, i, off, f) && Inv(sb, s2.d, s2.ins, s2.owner) && i < |s0.ins| == |s2.ins| && |src| >= CHUNK
    requires Wrote(sb, s0, s2, i, src, off, CHUNK, r, w)
    ensures r == CHUNK
  {
    hide Poked, Iblock, Span, Refs, Bits, Grows, DataLogged, Bit, Logs, CutShort;
    InvSizes(sb, s0.d, s0.ins, s0.owner);
    InvSizes(sb, s2.d, s2.ins, s2.owner);
    if r < CHUNK {
      assert Stuck(sb, s2.d, s2.ins, i, off + r) && Local(sb, s0.d, s0.ins, s2.d, s2.ins, i, 11, 14);
      NotStuck(sb, s0, s2, i, off, f, off + r);
    }
  }

  lemma NotStuck(sb: Super, s0: Snap, s2: Snap, i: nat, off: nat, f: seq<int>, x: nat)
    requires Start(sb, s0, i, off, f) && Inv(sb, s2.d, s2.ins, s2.owner) && |s0.ins| == |s2.ins|
    requires Local(sb, s0.d, s0.ins, s2.d, s2.ins, i, 11, 14) && off <= x < off + CHUNK
    requires Grows(sb, s0.d, s0.ins, s0.owner, s0.logged, s2.d, s2.ins, s2.owner, s2.logged, i)
    ensures !Stuck(sb, s2.d, s2.ins, i, x)
  {
    hide Refs, Bits, Solid, Grows, Local, Bit, Ref;
    InvSizes(sb, s2.d, s2.ins, s2.owner);
    assert x / BSIZE in {11, 12, 13, 14};
    hide Start;
    if Full(sb, s2.d) {
      hide Full;
      BlocksThere(sb, s0, s2, i, off, f);
    }
  }

  /** On a full disk blocks 11 to 14 are all there. */
  lemma BlocksThere(sb: Super, s0: Snap, s2: Snap, i: nat, off: nat, f: seq<int>)
    requires Start(sb, s0, i, off, f) && Inv(sb, s2.d, s2.ins, s2.owner) && |s0.ins| == |s2.ins| && Full(sb, s2.d)
    requires Local(sb, s0.d, s0.ins, s2.d, s2.ins, i, 11, 14)
    requires Grows(sb, s0.d, s0.ins, s0.owner, s0.logged, s2.d, s2.ins, s2.owner, s2.logged, i)
    ensures Ref(sb, s2.d, s2.ins, Direct(i, 11)) != 0
    ensures forall k | 0 <= k < 3 :: Ref(sb, s2.d, s2.ins, Entry(i, k)) != 0
  {
    hide Inv, Refs, Grows, Local, Full, Bit, Start, Ref;
    InvSizes(sb, s2.d, s2.ins, s2.owner);
    TakenPlace(sb, s0, s2, i, off, f, 0);
    TakenPlace(sb, s0, s2, i, off, f, 1);
    TakenPlace(sb, s0, s2, i, off, f, 2);
    TakenPlace(sb, s0, s2, i, off, f, 3);
    FourFree(sb, s0, i, off, f);
    AllFour(s2.owner[f[0]], s2.owner[f[1]], s2.owner[f[2]], s2.owner[f[3]], i);
    KeptEleven(sb, s0, s2, i, off, f);
    forall k | 0 <= k < 3 ensures Ref(sb, s2.d, s2.ins, Entry(i, k)) != 0 {}
  }

  lemma FourFree(sb: Super, s0: Snap, i: nat, off: nat, f: seq<int>)
    requires Start(sb, s0, i, off, f)
    ensures |f| == 4 && f[0] != f[1] && f[0] != f[2] && f[0] != f[3] && f[1] != f[2] && f[1] != f[3] && f[2] != f[3]
    ensures 11 * BSIZE < off < 12 * BSIZE
  {
  }

  lemma KeptEleven(sb: Super, s0: Snap, s2: Snap, i: nat, off: nat, f: seq<int>)
    requires Start(sb, s0, i, off, f) && DiskOk(sb, s2.d) && InodesOk(s2.ins) && |s0.ins| == |s2.ins|
    requires Grows(sb, s0.d, s0.ins, s0.owner, s0.logged, s2.d, s2.ins, s2.owner, s2.logged, i)
    ensures Ref(sb, s2.d, s2.ins, Direct(i, 11)) != 0
  {
    StartRefs(sb, s0, i, off, f, 0);
  }

  lemma AllFour(p: Place, q: Place, r: Place, s: Place, i: nat)
    requires p in {Entry(i, 0), Entry(i, 1), Entry(i, 2), Indir(i)}
    requires q in {Entry(i, 0), Entry(i, 1), Entry(i, 2), Indir(i)}
    requires r in {Entry(i, 0), Entry(i, 1), Entry(i, 2), Indir(i)}
    requires s in {Entry(i, 0), Entry(i, 1), Entry(i, 2), Indir(i)}
    requires p != q && p != r && p != s && q != r && q != s && r != s
    ensures forall k: nat | k < 3 :: Entry(i, k) in {p, q, r, s}
  {
  }

  /** Five data blocks, four bitmap blocks and the inode's block: every such chunk logs exactly ten. */
  lemma TightAtTen(sb: Super, s0: Snap, s2: Snap, i: nat, src: seq<int>, off: nat, f: seq<int>, r: nat, w: nat)
    requires Start(sb, s0, i, off, f) && Inv(sb, s2.d, s2.ins, s2.owner) && i < |s0.ins| == |s2.ins| && |src| >= CHUNK
    requires Wrote(sb, s0, s2, i, src, off, CHUNK, r, w)
    ensures r == CHUNK && |s2.logged| == MAXOPBLOCKS
  {
    Complete(sb, s0, s2, i, src, off, f, r, w);
    var data := Chunk(sb, s0, s2, i, src, off, f, w);
    ChunkFits(off, CHUNK);
    assert s2.logged - s0.logged == s2.logged;
    var bits := set k | 0 <= k < 4 :: Bblock(sb, f[k]);
    assert |bits| == 4 by { FourBits(sb, f); }
    assert data !! bits && Iblock(sb, i) !in data + bits by {
      forall k | 0 <= k < 4 ensures sb.bmapstart <= Bblock(sb, f[k]) < sb.nmeta { InMeta(sb, f[k]); }
    }
    var all := data + bits + {Iblock(sb, i)};
    assert |all| == 10;
    SubsetBound(all, s2.logged);
  }

  lemma FourBits(sb: Super, f: seq<int>)
    requires |f| == 4 && forall a, b | 0 <= a < b < 4 :: Bblock(sb, f[a]) != Bblock(sb, f[b])
    ensures |set k | 0 <= k < 4 :: Bblock(sb, f[k])| == 4
  {
    var s := set k | 0 <= k < 4 :: Bblock(sb, f[k]);
    assert s == {Bblock(sb, f[0]), Bblock(sb, f[1]), Bblock(sb, f[2]), Bblock(sb, f[3])};
  }

  /** After the write each of the blocks 11 to 14 and the indirect block is there and logged. */
  lemma ChunkRefs(sb: Super, s0: Snap, s2: Snap, i: nat, src: seq<int>, off: nat, f: seq<int>, w: nat, k: nat)
    requires Start(sb, s0, i, off, f) && Inv(sb, s2.d, s2.ins, s2.owner) && i < |s0.ins| == |s2.ins| && k < 3
    requires Wrote(sb, s0, s2, i, src, off, CHUNK, CHUNK, w)
    ensures var b, e := Ref(sb, s2.d, s2.ins, Direct(i, 11)), Ref(sb, s2.d, s2.ins, Entry(i, k));
      var a := Ref(sb, s2.d, s2.ins, Indir(i));
      b != 0 && b in s2.logged && e != 0 && e in s2.logged && a != 0 && a in s2.logged
  {
    hide Poked, Iblock, Span, Bits, Refs, Local, Logs, Ended, CutShort, Scattered, SizesOk, Grows;
    InvSizes(sb, s2.d, s2.ins, s2.owner);
    StartRefs(sb, s0, i, off, f, k);
    assert Lookup(sb, s2.d, s2.ins, i, 11) != 0 && Lookup(sb, s2.d, s2.ins, i, 11) in s2.logged;
    assert Lookup(sb, s2.d, s2.ins, i, 12 + k) != 0 && Lookup(sb, s2.d, s2.ins, i, 12 + k) in s2.logged;
    IndirectLogged(sb, s0, s2, i, k);
  }

  lemma IndirectLogged(sb: Super, s0: Snap, s2: Snap, i: nat, k: nat)
    requires Inv(sb, s0.d, s0.ins, s0.owner) && Inv(sb, s2.d, s2.ins, s2.owner) && i < |s0.ins| == |s2.ins| && k < 3
    requires Grows(sb, s0.d, s0.ins, s0.owner, s0.logged, s2.d, s2.ins, s2.owner, s2.logged, i)
    requires Ref(sb, s0.d, s0.ins, Entry(i, k)) == 0 != Ref(sb, s2.d, s2.ins, Entry(i, k))
    ensures Ref(sb, s2.d, s2.ins, Indir(i)) != 0 && Ref(sb, s2.d, s2.ins, Indir(i)) in s2.logged
  {
    hide Bits, Solid, SizesOk, Word;
  }

  /** The five data blocks are logged, and so are all four bitmap blocks. */
  lemma Chunk(sb: Super, s0: Snap, s2: Snap, i: nat, src: seq<int>, off: nat, f: seq<int>,
              w: nat) returns (data: set<int>)
    requires Start(sb, s0, i, off, f) && Inv(sb, s2.d, s2.ins, s2.owner) && i < |s0.ins| == |s2.ins|
    requires Wrote(sb, s0, s2, i, src, off, CHUNK, CHUNK, w)
    ensures |data| == 5 && data <= s2.logged && (forall b | b in data :: sb.nmeta <= b)
    ensures forall k | 0 <= k < 4 :: Bblock(sb, f[k]) in s2.logged
  {
    hide Poked, Iblock, Span, Local, DataLogged, Bits, Solid, Ref, Bblock, Bit, Logs, Ended, CutShort;
    forall k: nat | k < 3
      ensures Ref(sb, s2.d, s2.ins, Entry(i, k)) in f && Bblock(sb, Ref(sb, s2.d, s2.ins, Entry(i, k))) in s2.logged
    {
      StartRefs(sb, s0, i, off, f, k);
      ChunkRefs(sb, s0, s2, i, src, off, f, w, k);
      NewBlock(sb, s0, s2, i, Entry(i, k), f);
    }
    StartRefs(sb, s0, i, off, f, 0);
    ChunkRefs(sb, s0, s2, i, src, off, f, w, 0);
    ChunkRefs(sb, s0, s2, i, src, off, f, w, 1);
    ChunkRefs(sb, s0, s2, i, src, off, f, w, 2);
    NewBlock(sb, s0, s2, i, Indir(i), f);
    var a, b11 := Ref(sb, s2.d, s2.ins, Indir(i)), Ref(sb, s2.d, s2.ins, Direct(i, 11));
    var b12, b13, b14 := Ref(sb, s2.d, s2.ins, Entry(i, 0)), Ref(sb, s2.d, s2.ins, Entry(i, 1)),
         Ref(sb, s2.d, s2.ins, Entry(i, 2));
    data := {a, b11, b12, b13, b14};
    FourOfFour(a, b12, b13, b14, f);
  }

  lemma FourOfFour(p: int, q: int, r: int, s: int, f: seq<int>)
    requires |f| == 4 && p in f && q in f && r in f && s in f
    requires p != q && p != r && p != s && q != r && q != s && r != s
    ensures forall k | 0 <= k < 4 :: f[k] in {p, q, r, s}
  {
    assert forall x | x in f :: x == f[0] || x == f[1] || x == f[2] || x == f[3];
  }

  // ---- such a disk ----

  // 24577 blocks under four bitmap blocks, 2034 files of twelve blocks, and four free blocks:
  // the last one of the first bitmap block and the first one of each other.

  function Layout(): Super { Super(24577, 33, 161, 165) }

  function Free4(): seq<int> { [8191, 8192, 16384, 24576] }

  /** The j-th block that belongs to a file. */
  function BlockFor(j: int): int {
    if 165 + j < 8191 then 165 + j else if 167 + j < 16384 then 167 + j else 168 + j
  }

  function IndexOf(c: int): int {
    if c < 8191 then c - 165 else if c < 16384 then c - 167 else c - 168
  }

  lemma BlockIndex(j: int, c: int)
    ensures 0 <= j < 24408 ==> 165 <= BlockFor(j) < 24577 && BlockFor(j) !in Free4() && IndexOf(BlockFor(j)) == j
    ensures 165 <= c < 24577 && c !in Free4() ==> 0 <= IndexOf(c) < 24408 && BlockFor(IndexOf(c)) == c
  {
  }

  function Owned(c: int): Place
    requires 165 <= c < 24577 && c !in Free4()
  {
    BlockIndex(0, c);
    Direct(IndexOf(c) / 12, IndexOf(c) % 12)
  }

  ghost function Owners(): map<int, Place> { map c | 165 <= c < 24577 && c !in Free4() :: Owned(c) }

  function Addrs(i: nat): (a: seq<int>)
    ensures |a| == 13 && a[12] == 0 && forall k | 0 <= k < 12 :: a[k] == BlockFor(12 * i + k)
  {
    seq(13, k => if k < 12 then BlockFor(12 * i + k) else 0)
  }

  function Inodes(): (ins: seq<Inode>)
    ensures |ins| == 2034 && forall i | 0 <= i < 2034 :: ins[i] == Inode(Addrs(i), 12287)
  {
    seq(2034, i requires 0 <= i => Inode(Addrs(i), 12287))
  }

  function Ones(): (b: Block)
    ensures |b| == BSIZE && forall k | 0 <= k < BSIZE :: b[k] == 255
  {
    seq(BSIZE, _ => 255)
  }

  function InitBlock(b: int): (d: Block)
    ensures |d| == BSIZE
  {
    if 161 <= b < 165 then Ones() else Zeroes()
  }

  ghost function AllUsed(): (d: Disk)
    ensures DiskOk(Layout(), d)
  {
    map b | 0 <= b < 24577 :: InitBlock(b)
  }

  lemma AllBits(c: int)
    requires 0 <= c < 24577
    ensures Bit(Layout(), AllUsed(), c)
  {
    InMeta(Layout(), c);
    assert 161 <= Bblock(Layout(), c) < 165;
    assert AllUsed()[Bblock(Layout(), c)] == InitBlock(Bblock(Layout(), c)) == Ones();
    MaskBit(8, BitIx(c));
  }

  /** n ones in binary. */
  function Mask(n: nat): int { if n == 0 then 0 else 2 * Mask(n - 1) + 1 }

  lemma {:induction false} MaskBit(n: nat, k: nat)
    requires k < n
    ensures BitOf(Mask(n), k) == 1 && Mask(8) == 255
  {
    if k > 0 {
      MaskBit(n - 1, k - 1);
      assert Mask(n) / 2 == Mask(n - 1);
    }
  }

  ghost function FourFreeDisk(): (d: Disk)
    ensures DiskOk(Layout(), d)
  {
    Unmark(Layout(), Unmark(Layout(), Unmark(Layout(), Unmark(Layout(), AllUsed(), 8191), 8192), 16384), 24576)
  }

  lemma FourBitsClear(c: int)
    requires 0 <= c < 24577
    ensures Bit(Layout(), FourFreeDisk(), c) <==> c !in Free4()
  {
    hide Unmark, Bit, AllUsed;
    var sb, d := Layout(), AllUsed();
    AllBits(c);
    MarkBit(sb, d, 8191, c);
    MarkBit(sb, Unmark(sb, d, 8191), 8192, c);
    MarkBit(sb, Unmark(sb, Unmark(sb, d, 8191), 8192), 16384, c);
    MarkBit(sb, Unmark(sb, Unmark(sb, Unmark(sb, d, 8191), 8192), 16384), 24576, c);
  }

  lemma LayoutRefs()
    ensures Refs(Layout(), FourFreeDisk(), Inodes(), Owners())
  {
    hide Unmark, AllUsed, FourFreeDisk, BlockFor, IndexOf, Free4;
    var sb, d, ins, owner := Layout(), FourFreeDisk(), Inodes(), Owners();
    forall pl | PlaceOk(ins, pl) && Ref(sb, d, ins, pl) != 0
      ensures Ref(sb, d, ins, pl) in owner && owner[Ref(sb, d, ins, pl)] == pl
    {
      assert pl.Direct?;
      var j := 12 * pl.ino + pl.k;
      BlockIndex(j, 0);
      assert j / 12 == pl.ino && j % 12 == pl.k;
    }
    forall b | b in owner ensures sb.nmeta <= b < sb.size && PlaceOk(ins, owner[b]) && Ref(sb, d, ins, owner[b]) == b {
      BlockIndex(0, b);
      var j := IndexOf(b);
      assert j == 12 * (j / 12) + j % 12;
    }
  }

  lemma LayoutBits()
    ensures Bits(Layout(), FourFreeDisk(), Owners().Keys) && Scattered(Layout(), FourFreeDisk(), Free4())
  {
    hide Unmark, Bit, AllUsed, FourFreeDisk;
    var sb, d := Layout(), FourFreeDisk();
    forall c | 0 <= c < sb.size ensures Bit(sb, d, c) <==> c !in Free4() { FourBitsClear(c); }
  }

  lemma LayoutSolid()
    ensures InodesOk(Inodes()) && SizesOk(Inodes()) && Solid(Layout(), FourFreeDisk(), Inodes())
  {
    hide Unmark, AllUsed, FourFreeDisk, BlockFor, Free4;
    var sb, d, ins := Layout(), FourFreeDisk(), Inodes();
    forall i, bn | 0 <= i < |ins| && 0 <= bn < MAXFILE && bn * BSIZE < ins[i].size
      ensures Lookup(sb, d, ins, i, bn) != 0
    {
      BlockIndex(12 * i + bn, 0);
    }
  }

  /** There is a disk as TightAtTen asks for. */
  lemma TightWitness() returns (sb: Super, s0: Snap, off: nat, f: seq<int>)
    ensures Start(sb, s0, 0, off, f)
  {
    hide Refs, Bits, Solid, Scattered, Bit, FourFreeDisk;
    sb, off, f := Layout(), 12287, Free4();
    s0 := Snap(FourFreeDisk(), Inodes(), Owners(), {});
    LayoutRefs();
    LayoutBits();
    LayoutSolid();
  }
}
