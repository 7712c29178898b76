/** Files as byte sequences: what mapping, storing into and cutting blocks does to the bytes of every file. */
module FsContent {
  import opened Params
  import opened FsDisk
  import opened FsInode
  import opened FsJournal

  /** The bytes of a file. */
  ghost function Content(sb: Super, d: Disk, ins: seq<Inode>, i: nat): (c: seq<int>)
    requires DiskOk(sb, d) && InodesOk(ins) && SizesOk(ins) && i < |ins|
    ensures |c| == ins[i].size
  {
    seq(ins[i].size, x requires 0 <= x < ins[i].size => ByteAt(sb, d, ins, i, x))
  }

  /** Bytes lo, lo + 1, ... of file `i` become `bytes`; every other byte of every file stays. */
  ghost predicate Poked(sb: Super, d: Disk, ins: seq<Inode>, d': Disk, ins': seq<Inode>, i: nat, lo: nat,
                        bytes: seq<int>)
    requires DiskOk(sb, d) && DiskOk(sb, d') && InodesOk(ins) && InodesOk(ins') && |ins| == |ins'|
  {
    forall j, x | 0 <= j < |ins| && 0 <= x < FILEMAX ::
      ByteAt(sb, d', ins', j, x) == if j == i && lo <= x < lo + |bytes| then bytes[x - lo] else ByteAt(sb, d, ins, j, x)
  }

  lemma PokeTrans(sb: Super, d: Disk, ins: seq<Inode>, d1: Disk, ins1: seq<Inode>, d2: Disk, ins2: seq<Inode>, i: nat,
                  lo: nat, a: seq<int>, b: seq<int>)
    requires DiskOk(sb, d) && DiskOk(sb, d1) && DiskOk(sb, d2) && InodesOk(ins) && InodesOk(ins1) && InodesOk(ins2)
    requires |ins| == |ins1| == |ins2|
    requires Poked(sb, d, ins, d1, ins1, i, lo, a) && Poked(sb, d1, ins1, d2, ins2, i, lo + |a|, b)
    ensures Poked(sb, d, ins, d2, ins2, i, lo, a + b)
  {
  }

  /** Allocating a block for a hole changes no byte: a missing block reads as zero, and the new one is zero. */
  lemma MappedBytes(sb: Super, d: Disk, ins: seq<Inode>, owner: map<int, Place>, logged: set<int>,
                    d': Disk, ins': seq<Inode>, owner': map<int, Place>, logged': set<int>, i: nat, bn: nat, addr: int,
                    bm: set<int>)
    requires Refs(sb, d, ins, owner) && Refs(sb, d', ins', owner') && i < |ins| == |ins'| && bn < MAXFILE
    requires Mapped(sb, d, ins, owner, logged, d', ins', owner', logged', i, bn, addr, bm)
    ensures forall lo: nat :: Poked(sb, d, ins, d', ins', i, lo, [])
  {
    hide Grows, Full, NewBlocks;
    forall j, x | 0 <= j < |ins| && 0 <= x < FILEMAX ensures ByteAt(sb, d', ins', j, x) == ByteAt(sb, d, ins, j, x) {
      var pl := Spot(j, x / BSIZE);
      assert PlaceOk(ins, pl) && PlaceOk(ins', pl);
      SpotsDiffer(i, bn, j, x / BSIZE);
    }
  }

  lemma SpotsDiffer(i: nat, bn: nat, j: nat, bm: nat)
    ensures Spot(i, bn) == Spot(j, bm) ==> i == j && bn == bm
    ensures Spot(i, bn) != Indir(j)
  {
  }

  function Overlay(b: Block, o: nat, bytes: seq<int>): (b': Block)
    requires |b| == BSIZE && o + |bytes| <= BSIZE
    ensures |b'| == BSIZE && forall k | 0 <= k < BSIZE :: b'[k] == if o <= k < o + |bytes| then bytes[k - o] else b[k]
  {
    b[..o] + bytes + b[o + |bytes|..]
  }

  /** Storing into one block of a file changes those bytes of that file only. */
  lemma Poke(sb: Super, d: Disk, ins: seq<Inode>, owner: map<int, Place>, d': Disk, i: nat, bn: nat, a: int, o: nat,
             bytes: seq<int>)
    requires Inv(sb, d, ins, owner) && i < |ins| && bn < MAXFILE && a == Lookup(sb, d, ins, i, bn) != 0 && a in d
    requires |d[a]| == BSIZE && o + |bytes| <= BSIZE && d' == d[a := Overlay(d[a], o, bytes)]
    ensures Inv(sb, d', ins, owner) && Poked(sb, d, ins, d', ins, i, bn * BSIZE + o, bytes)
    ensures forall pl | PlaceOk(ins, pl) :: Ref(sb, d', ins, pl) == Ref(sb, d, ins, pl)
  {
    hide Bits, Bit, Overlay, Poked;
    assert PlaceOk(ins, Spot(i, bn));
    RefsFrame(sb, d, d', ins, owner);
    BitsFrame(sb, d, d', owner.Keys);
    PokeBytes(sb, d, ins, owner, d', i, bn, a, o, bytes);
    hide Refs, Lookup, Ref;
    forall j, m | 0 <= j < |ins| && 0 <= m < MAXFILE && m * BSIZE < ins[j].size
      ensures Lookup(sb, d', ins, j, m) != 0
    {
      SameLookup(sb, d, d', ins, j, m);
    }
  }

  lemma PokeBytes(sb: Super, d: Disk, ins: seq<Inode>, owner: map<int, Place>, d': Disk, i: nat, bn: nat, a: int,
                  o: nat, bytes: seq<int>)
    requires Refs(sb, d, ins, owner) && i < |ins| && bn < MAXFILE && a == Lookup(sb, d, ins, i, bn) != 0 && a in d
    requires |d[a]| == BSIZE && o + |bytes| <= BSIZE && d' == d[a := Overlay(d[a], o, bytes)] && DiskOk(sb, d')
    requires forall pl | PlaceOk(ins, pl) :: Ref(sb, d', ins, pl) == Ref(sb, d, ins, pl)
    ensures Poked(sb, d, ins, d', ins, i, bn * BSIZE + o, bytes)
  {
    hide Ref;
    assert PlaceOk(ins, Spot(i, bn));
    forall j, x | 0 <= j < |ins| && 0 <= x < FILEMAX
      ensures ByteAt(sb, d', ins, j, x) ==
        if j == i && bn * BSIZE + o <= x < bn * BSIZE + o + |bytes| then bytes[x - bn * BSIZE - o]
        else ByteAt(sb, d, ins, j, x)
    {
      SpotsDiffer(i, bn, j, x / BSIZE);
      assert PlaceOk(ins, Spot(j, x / BSIZE));
      InRange(bn, o, |bytes|, x);
    }
  }

  /** What remains of bmap's promise once the block has been written. */
  lemma PokeGrows(sb: Super, d: Disk, ins: seq<Inode>, owner: map<int, Place>, logged: set<int>,
                  d1: Disk, ins1: seq<Inode>, owner1: map<int, Place>, logged1: set<int>, d2: Disk, logged2: set<int>,
                  i: nat)
    requires DiskOk(sb, d) && DiskOk(sb, d1) && DiskOk(sb, d2) && InodesOk(ins) && InodesOk(ins1) && i < |ins| == |ins1|
    requires Grows(sb, d, ins, owner, logged, d1, ins1, owner1, logged1, i) && logged1 <= logged2
    requires forall pl | PlaceOk(ins1, pl) :: Ref(sb, d2, ins1, pl) == Ref(sb, d1, ins1, pl)
    ensures Grows(sb, d, ins, owner, logged, d2, ins1, owner1, logged2, i)
  {
    assert forall pl :: PlaceOk(ins, pl) <==> PlaceOk(ins1, pl);
  }

  lemma SameLookup(sb: Super, d: Disk, d': Disk, ins: seq<Inode>, i: nat, bn: nat)
    requires DiskOk(sb, d) && DiskOk(sb, d') && InodesOk(ins) && i < |ins| && bn < MAXFILE
    requires forall pl | PlaceOk(ins, pl) :: Ref(sb, d', ins, pl) == Ref(sb, d, ins, pl)
    ensures Lookup(sb, d', ins, i, bn) == Lookup(sb, d, ins, i, bn)
  {
    assert PlaceOk(ins, Spot(i, bn));
  }

  /** Block and offset of a byte position. */
  lemma InRange(bn: nat, o: nat, m: nat, x: nat)
    requires o + m <= BSIZE
    ensures bn * BSIZE + o <= x < bn * BSIZE + o + m <==> x / BSIZE == bn && o <= x % BSIZE < o + m
    ensures x / BSIZE == bn ==> x % BSIZE == x - bn * BSIZE
  {
  }

  // ---- one writei call ----

  /** Every block of the file below `off` is there. */
  ghost predicate Reach(sb: Super, d: Disk, ins: seq<Inode>, i: nat, off: nat)
    requires DiskOk(sb, d) && InodesOk(ins) && i < |ins|
  {
    forall bn | 0 <= bn < MAXFILE && bn * BSIZE < off :: Lookup(sb, d, ins, i, bn) != 0
  }

  /** The blocks that hold bytes lo to hi of the file are logged. */
  ghost predicate DataLogged(sb: Super, d: Disk, ins: seq<Inode>, logged: set<int>, i: nat, lo: nat, hi: nat)
    requires DiskOk(sb, d) && InodesOk(ins) && i < |ins|
  {
    forall bn | lo / BSIZE <= bn < MAXFILE && bn * BSIZE < hi && lo < hi :: Lookup(sb, d, ins, i, bn) in logged
  }

  lemma Advance(sb: Super, d: Disk, ins: seq<Inode>, owner: map<int, Place>, logged: set<int>,
                d': Disk, ins': seq<Inode>, owner': map<int, Place>, logged': set<int>, i: nat, lo: nat, off: nat,
                m: nat)
    requires DiskOk(sb, d) && DiskOk(sb, d') && InodesOk(ins) && InodesOk(ins') && i < |ins| == |ins'|
    requires Grows(sb, d, ins, owner, logged, d', ins', owner', logged', i)
    requires Reach(sb, d, ins, i, off) && DataLogged(sb, d, ins, logged, i, lo, off)
    requires lo <= off < FILEMAX && 0 < m <= BSIZE - off % BSIZE
    requires Lookup(sb, d', ins', i, off / BSIZE) != 0 && Lookup(sb, d', ins', i, off / BSIZE) in logged'
    ensures Reach(sb, d', ins', i, off + m) && DataLogged(sb, d', ins', logged', i, lo, off + m)
  {
    forall bn | 0 <= bn < MAXFILE && bn * BSIZE < off + m
      ensures Lookup(sb, d', ins', i, bn) != 0 && (lo / BSIZE <= bn ==> Lookup(sb, d', ins', i, bn) in logged')
    {
      if bn != off / BSIZE {
        assert bn * BSIZE < off;
        assert Lookup(sb, d, ins, i, bn) != 0;
        assert PlaceOk(ins, Spot(i, bn));
      }
    }
  }

  ghost function Resized(ins: seq<Inode>, i: nat, size: nat): seq<Inode>
    requires i < |ins|
  {
    ins[i := ins[i].(size := size)]
  }

  lemma SizeRefs(sb: Super, d: Disk, ins: seq<Inode>, owner: map<int, Place>, i: nat, size: nat)
    requires Refs(sb, d, ins, owner) && i < |ins|
    ensures Refs(sb, d, Resized(ins, i, size), owner)
    ensures forall pl :: PlaceOk(ins, pl) <==> PlaceOk(Resized(ins, i, size), pl)
    ensures forall pl | PlaceOk(ins, pl) :: Ref(sb, d, Resized(ins, i, size), pl) == Ref(sb, d, ins, pl)
  {
    var ins' := Resized(ins, i, size);
    assert forall pl :: PlaceOk(ins, pl) <==> PlaceOk(ins', pl);
    assert forall pl | PlaceOk(ins, pl) :: Ref(sb, d, ins', pl) == Ref(sb, d, ins, pl);
  }

  /** Changing a size touches no reference and no byte. */
  lemma SizeOnly(sb: Super, d: Disk, ins: seq<Inode>, owner: map<int, Place>, i: nat, size: nat)
    requires Inv(sb, d, ins, owner) && i < |ins| && size <= FILEMAX && Reach(sb, d, ins, i, size)
    ensures Inv(sb, d, Resized(ins, i, size), owner)
    ensures forall pl | PlaceOk(ins, pl) :: Ref(sb, d, Resized(ins, i, size), pl) == Ref(sb, d, ins, pl)
    ensures forall lo: nat :: Poked(sb, d, ins, d, Resized(ins, i, size), i, lo, [])
  {
    hide Bits, Ref;
    var ins' := Resized(ins, i, size);
    SizeRefs(sb, d, ins, owner, i, size);
    hide Refs;
    forall j, m | 0 <= j < |ins'| && 0 <= m < MAXFILE && m * BSIZE < ins'[j].size
      ensures Lookup(sb, d, ins', j, m) != 0
    {
      assert PlaceOk(ins, Spot(j, m));
      assert Lookup(sb, d, ins', j, m) == Lookup(sb, d, ins, j, m);
    }
    forall j, x | 0 <= j < |ins| && 0 <= x < FILEMAX ensures ByteAt(sb, d, ins', j, x) == ByteAt(sb, d, ins, j, x) {
      assert PlaceOk(ins, Spot(j, x / BSIZE));
      assert Lookup(sb, d, ins', j, x / BSIZE) == Lookup(sb, d, ins, j, x / BSIZE);
    }
  }

  lemma MappedSizes(sb: Super, d: Disk, ins: seq<Inode>, owner: map<int, Place>, d': Disk, ins': seq<Inode>, i: nat,
                    bn: nat)
    requires Refs(sb, d, ins, owner) && DiskOk(sb, d') && InodesOk(ins') && i < |ins| == |ins'| && bn < MAXFILE
    requires Extends(sb, d, ins, owner, d', ins', i, bn)
    ensures forall j | 0 <= j < |ins| :: ins'[j].size == ins[j].size
    ensures Local(sb, d, ins, d', ins', i, bn, bn)
  {
  }

  // ---- counting the logged blocks ----

  /** How many blocks a write of n bytes at `off` touches. */
  function Span(off: nat, n: nat): nat { if n == 0 then 0 else (off % BSIZE + n - 1) / BSIZE + 1 }

  /** 1 when the write starts inside a block. */
  function Inside(off: nat, n: nat): nat { if n > 0 && off % BSIZE != 0 then 1 else 0 }

  /** After `t` blocks: the logged blocks are t data blocks, the bitmap blocks and the indirect block. */
  ghost predicate Tally(logged0: set<int>, logged: set<int>, ind: int, data: set<int>, bms: set<int>, t: nat,
                        first: nat) {
    && logged <= logged0 + data + bms + ({ind} - {0})
    && |data| <= t && |bms| <= t + 1 - first
    && (ind == 0 ==> |bms| <= t - first)
  }

  lemma TallyStep(logged0: set<int>, logged: set<int>, ind: int, data: set<int>, bms: set<int>, t: nat, first: nat,
                  logged': set<int>, ind': int, addr: int, bm: set<int>, first': nat)
    requires Tally(logged0, logged, ind, data, bms, t, first)
    requires logged' <= logged + bm + ({addr, ind'} - {0}) && (ind != 0 ==> ind' == ind)
    requires |bm| <= 2 && (ind != 0 || ind' == 0 ==> |bm| <= 1)
    requires first' == first || (first' == first + 1 && bm == {})
    ensures Tally(logged0, logged', ind', data + {addr}, bms + bm, t + 1, first')
  {
    UnionBound(data, {addr});
    UnionBound(bms, bm);
  }

  lemma UnionBound(a: set<int>, b: set<int>)
    ensures |a + b| <= |a| + |b|
  {
    assert |a + b| + |a * b| == |a| + |b|;
  }

  lemma SubsetBound(a: set<int>, b: set<int>)
    requires a <= b
    ensures |a| <= |b|
  {
    assert b == a + (b - a);
  }

  /** At most this many blocks are logged by a write of n bytes at `off`: the data blocks, a bitmap block for each
      of them that is new and for a new indirect block, the indirect block and the inode's block. */
  ghost predicate Within(logged0: set<int>, logged: set<int>, inodeBlock: int, off: nat, n: nat) {
    |logged + {inodeBlock} - logged0| <= 2 * Span(off, n) + 3 - Inside(off, n)
  }

  lemma TallyEnd(logged0: set<int>, logged: set<int>, ind: int, data: set<int>, bms: set<int>, off: nat, n: nat,
                 tot: nat, t: nat, inodeBlock: int)
    requires AtBlock(off, n, tot, t) && (t == 0 ==> n == 0)
    requires Tally(logged0, logged, ind, data, bms, t, if t > 0 then Inside(off, n) else 0)
    ensures Within(logged0, logged, inodeBlock, off, n)
  {
    UnionBound(data, bms);
    UnionBound(data + bms, {ind, inodeBlock});
    SubsetBound(logged + {inodeBlock} - logged0, data + bms + {ind, inodeBlock});
  }

  /** Where the t-th block of a write begins. */
  ghost predicate AtBlock(off: nat, n: nat, tot: nat, t: nat) {
    && tot <= n && t <= Span(off, n) && (t == 0 ==> tot == 0)
    && ((tot == 0 && t == 0) || tot == n || (t > 0 && t * BSIZE == off % BSIZE + tot))
  }

  lemma NextBlock(off: nat, n: nat, tot: nat, t: nat, m: nat)
    requires AtBlock(off, n, tot, t) && tot < n && (m == n - tot || (m == BSIZE - (off + tot) % BSIZE && m <= n - tot))
    ensures AtBlock(off, n, tot + m, t + 1)
    ensures t > 0 ==> (off + tot) % BSIZE == 0
  {
    var q := off / BSIZE;
    assert off == q * BSIZE + off % BSIZE;
    if t > 0 {
      assert off + tot == (q + t) * BSIZE;
      assert t <= (off % BSIZE + n - 1) / BSIZE;
    }
  }

  /** Only those places have changed. */
  ghost predicate Local(sb: Super, d: Disk, ins: seq<Inode>, d': Disk, ins': seq<Inode>, i: nat, lo: int, hi: int)
    requires DiskOk(sb, d) && DiskOk(sb, d') && InodesOk(ins) && InodesOk(ins') && |ins| == |ins'|
  {
    forall pl | PlaceOk(ins, pl) && !InBlocks(pl, i, lo, hi) :: Ref(sb, d', ins', pl) == Ref(sb, d, ins, pl)
  }

  lemma LocalTrans(sb: Super, s0: Snap, s1: Snap, s2: Snap, i: nat, lo: int, bn: int, hi: int)
    requires DiskOk(sb, s0.d) && DiskOk(sb, s1.d) && DiskOk(sb, s2.d) && InodesOk(s0.ins) && InodesOk(s1.ins)
    requires InodesOk(s2.ins)
    requires |s0.ins| == |s1.ins| == |s2.ins| && lo <= bn <= hi
    requires Local(sb, s0.d, s0.ins, s1.d, s1.ins, i, lo, hi) && Local(sb, s1.d, s1.ins, s2.d, s2.ins, i, bn, bn)
    ensures Local(sb, s0.d, s0.ins, s2.d, s2.ins, i, lo, hi)
  {
    assert forall pl :: PlaceOk(s0.ins, pl) <==> PlaceOk(s1.ins, pl);
  }

  /** No block is left, and the one that would hold byte `x` is missing. */
  ghost predicate Stuck(sb: Super, d: Disk, ins: seq<Inode>, i: nat, x: nat)
    requires DiskOk(sb, d) && InodesOk(ins) && i < |ins|
  {
    Full(sb, d) && x < FILEMAX && Lookup(sb, d, ins, i, x / BSIZE) == 0
  }

  /** Where writei's loop stands: `tot` bytes are stored and logged, `w` bytes are stored, `t` blocks were tried up
      to byte `reached`. */
  ghost predicate Writing(sb: Super, s0: Snap, s1: Snap, i: nat, src: seq<int>, off: nat, n: nat, tot: nat, w: nat,
                          reached: nat, t: nat, data: set<int>, bms: set<int>) {
    && DiskOk(sb, s0.d) && InodesOk(s0.ins) && Inv(sb, s1.d, s1.ins, s1.owner) && i < |s0.ins| == |s1.ins|
    && off + n <= FILEMAX && tot <= w <= |src| && tot <= reached <= n
    && (forall j | 0 <= j < |s0.ins| :: s1.ins[j].size == s0.ins[j].size)
    && Grows(sb, s0.d, s0.ins, s0.owner, s0.logged, s1.d, s1.ins, s1.owner, s1.logged, i)
    && Poked(sb, s0.d, s0.ins, s1.d, s1.ins, i, off, src[..w])
    && Reach(sb, s1.d, s1.ins, i, off + tot) && DataLogged(sb, s1.d, s1.ins, s1.logged, i, off, off + tot)
    && Local(sb, s0.d, s0.ins, s1.d, s1.ins, i, off / BSIZE, (off + n - 1) / BSIZE)
    && AtBlock(off, n, reached, t)
    && Tally(s0.logged, s1.logged, s1.ins[i].addrs[NDIRECT], data, bms, t, if t > 0 then Inside(off, n) else 0)
  }

  lemma WriteInit(sb: Super, s: Snap, i: nat, src: seq<int>, off: nat, n: nat)
    requires Inv(sb, s.d, s.ins, s.owner) && i < |s.ins| && off <= s.ins[i].size && off + n <= FILEMAX
    ensures Writing(sb, s, s, i, src, off, n, 0, 0, 0, 0, {}, {}) && Edge(off, n, 0)
  {
  }

  /** What one round of the loop has to deliver. */
  ghost predicate Round(sb: Super, s1: Snap, s2: Snap, i: nat, bn: nat, o: nat, a: int, bm: set<int>,
                        stored: seq<int>) {
    && Inv(sb, s1.d, s1.ins, s1.owner) && Inv(sb, s2.d, s2.ins, s2.owner) && i < |s1.ins| == |s2.ins| && bn < MAXFILE
    && (forall j | 0 <= j < |s1.ins| :: s2.ins[j].size == s1.ins[j].size)
    && Grows(sb, s1.d, s1.ins, s1.owner, s1.logged, s2.d, s2.ins, s2.owner, s2.logged, i)
    && Poked(sb, s1.d, s1.ins, s2.d, s2.ins, i, bn * BSIZE + o, stored) && a == Lookup(sb, s2.d, s2.ins, i, bn)
    && Local(sb, s1.d, s1.ins, s2.d, s2.ins, i, bn, bn)
    && |bm| <= NewBlocks(sb, s1.d, s1.ins, i, bn) && (Lookup(sb, s1.d, s1.ins, i, bn) != 0 ==> bm == {})
    && s2.logged <= s1.logged + bm + ({a, s2.ins[i].addrs[NDIRECT]} - {0})
    && (s2.ins[i].addrs[NDIRECT] == 0 ==> |bm| <= 1)
  }

  /** bmap alone is a round that stores nothing. */
  lemma MapRound(sb: Super, s0: Snap, s1: Snap, i: nat, bn: nat, o: nat, a: int, bm: set<int>)
    requires Inv(sb, s0.d, s0.ins, s0.owner) && Inv(sb, s1.d, s1.ins, s1.owner) && i < |s0.ins| == |s1.ins|
    requires bn < MAXFILE
    requires Mapped(sb, s0.d, s0.ins, s0.owner, s0.logged, s1.d, s1.ins, s1.owner, s1.logged, i, bn, a, bm)
    ensures Round(sb, s0, s1, i, bn, o, a, bm, [])
    ensures a == 0 ==> Full(sb, s1.d)
    ensures Lookup(sb, s0.d, s0.ins, i, bn) != 0 ==> s1 == s0
    ensures a != 0 ==> a in s1.d && |s1.d[a]| == BSIZE
    ensures a == Lookup(sb, s1.d, s1.ins, i, bn)
  {
    hide Inv, Refs, Extends, Poked, Full, NewBlocks, Grows, Lookup, Local;
    InvFacts(sb, s0.d, s0.ins, s0.owner, i, bn);
    InvFacts(sb, s1.d, s1.ins, s1.owner, i, bn);
    MappedBytes(sb, s0.d, s0.ins, s0.owner, s0.logged, s1.d, s1.ins, s1.owner, s1.logged, i, bn, a, bm);
    MappedSizes(sb, s0.d, s0.ins, s0.owner, s1.d, s1.ins, i, bn);
  }

  /** Storing the bytes after bmap, before and after log_write. */
  lemma PokeRound(sb: Super, s0: Snap, s1: Snap, i: nat, bn: nat, o: nat, a: int, bm: set<int>, bytes: seq<int>)
    requires Round(sb, s0, s1, i, bn, o, a, bm, []) && a != 0 && a in s1.d && |s1.d[a]| == BSIZE && o + |bytes| <= BSIZE
    ensures var d2 := s1.d[a := Overlay(s1.d[a], o, bytes)];
      && Inv(sb, d2, s1.ins, s1.owner)
      && Round(sb, s0, s1.(d := d2), i, bn, o, a, bm, bytes)
      && Round(sb, s0, s1.(d := d2, logged := s1.logged + {a}), i, bn, o, a, bm, bytes)
  {
    hide Inv, Refs, Extends, Poked, NewBlocks, Grows, Lookup, Local;
    var d2 := s1.d[a := Overlay(s1.d[a], o, bytes)];
    InvFacts(sb, s0.d, s0.ins, s0.owner, i, bn);
    InvFacts(sb, s1.d, s1.ins, s1.owner, i, bn);
    Poke(sb, s1.d, s1.ins, s1.owner, d2, i, bn, a, o, bytes);
    InvFacts(sb, d2, s1.ins, s1.owner, i, bn);
    assert [] + bytes == bytes;
    PokeTrans(sb, s0.d, s0.ins, s1.d, s1.ins, d2, s1.ins, i, bn * BSIZE + o, [], bytes);
    SameLookup(sb, s1.d, d2, s1.ins, i, bn);
    LocalPoke(sb, s0.d, s0.ins, s1.d, s1.ins, d2, i, bn);
    PokeGrows(sb, s0.d, s0.ins, s0.owner, s0.logged, s1.d, s1.ins, s1.owner, s1.logged, d2, s1.logged, i);
    PokeGrows(sb, s0.d, s0.ins, s0.owner, s0.logged, s1.d, s1.ins, s1.owner, s1.logged, d2, s1.logged + {a}, i);
  }

  lemma LocalPoke(sb: Super, d: Disk, ins: seq<Inode>, d1: Disk, ins1: seq<Inode>, d2: Disk, i: nat, bn: nat)
    requires DiskOk(sb, d) && DiskOk(sb, d1) && DiskOk(sb, d2) && InodesOk(ins) && InodesOk(ins1) && |ins| == |ins1|
    requires Local(sb, d, ins, d1, ins1, i, bn, bn)
    requires forall pl | PlaceOk(ins1, pl) :: Ref(sb, d2, ins1, pl) == Ref(sb, d1, ins1, pl)
    ensures Local(sb, d, ins, d2, ins1, i, bn, bn)
  {
    assert forall pl :: PlaceOk(ins, pl) <==> PlaceOk(ins1, pl);
  }

  lemma DivMono(a: nat, b: nat)
    requires a <= b
    ensures a / BSIZE <= b / BSIZE
  {
  }

  lemma ReachKept(sb: Super, d: Disk, ins: seq<Inode>, owner: map<int, Place>, logged: set<int>,
                  d': Disk, ins': seq<Inode>, owner': map<int, Place>, logged': set<int>, i: nat, lo: nat, off: nat)
    requires DiskOk(sb, d) && DiskOk(sb, d') && InodesOk(ins) && InodesOk(ins') && i < |ins| == |ins'|
    requires Grows(sb, d, ins, owner, logged, d', ins', owner', logged', i)
    requires Reach(sb, d, ins, i, off) && DataLogged(sb, d, ins, logged, i, lo, off)
    ensures Reach(sb, d', ins', i, off) && DataLogged(sb, d', ins', logged', i, lo, off)
  {
    forall bn | 0 <= bn < MAXFILE && bn * BSIZE < off
      ensures Lookup(sb, d', ins', i, bn) == Lookup(sb, d, ins, i, bn) != 0
    {
      assert Lookup(sb, d, ins, i, bn) != 0;
      assert PlaceOk(ins, Spot(i, bn));
    }
  }

  lemma RoundBytes(sb: Super, s0: Snap, s1: Snap, s2: Snap, i: nat, src: seq<int>, off: nat, n: nat, tot: nat,
                   bn: nat, o: nat, t: nat, data: set<int>, bms: set<int>, a: int, bm: set<int>, stored: seq<int>)
    requires Writing(sb, s0, s1, i, src, off, n, tot, tot, tot, t, data, bms)
    requires Round(sb, s1, s2, i, bn, o, a, bm, stored)
    requires off + tot == bn * BSIZE + o && tot + |stored| <= |src| && stored == src[tot..tot + |stored|]
    ensures Grows(sb, s0.d, s0.ins, s0.owner, s0.logged, s2.d, s2.ins, s2.owner, s2.logged, i)
    ensures Poked(sb, s0.d, s0.ins, s2.d, s2.ins, i, off, src[..tot + |stored|])
    ensures Reach(sb, s2.d, s2.ins, i, off + tot) && DataLogged(sb, s2.d, s2.ins, s2.logged, i, off, off + tot)
  {
    hide Poked, Reach, DataLogged, AtBlock, Tally, Grows, Lookup, Inv, Inside, NewBlocks, Local;
    InvFacts(sb, s1.d, s1.ins, s1.owner, i, bn);
    InvFacts(sb, s2.d, s2.ins, s2.owner, i, bn);
    GrowsTrans(sb, s0.d, s0.ins, s0.owner, s0.logged, s1.d, s1.ins, s1.owner, s1.logged, s2.d, s2.ins, s2.owner,
               s2.logged, i);
    assert src[..tot] + stored == src[..tot + |stored|];
    PokeTrans(sb, s0.d, s0.ins, s1.d, s1.ins, s2.d, s2.ins, i, off, src[..tot], stored);
    ReachKept(sb, s1.d, s1.ins, s1.owner, s1.logged, s2.d, s2.ins, s2.owner, s2.logged, i, off, off + tot);
  }

  lemma RoundTally(sb: Super, s0: Snap, s1: Snap, s2: Snap, i: nat, src: seq<int>, off: nat, n: nat, tot: nat,
                   bn: nat, o: nat, t: nat, data: set<int>, bms: set<int>, a: int, bm: set<int>, stored: seq<int>)
    requires Writing(sb, s0, s1, i, src, off, n, tot, tot, tot, t, data, bms)
    requires Round(sb, s1, s2, i, bn, o, a, bm, stored)
    requires tot < n && bn == (off + tot) / BSIZE && InodesOk(s2.ins)
    ensures Tally(s0.logged, s2.logged, s2.ins[i].addrs[NDIRECT], data + {a}, bms + bm, t + 1, Inside(off, n))
  {
    hide Poked, Reach, DataLogged, AtBlock, Tally, Grows, Lookup, Inv, NewBlocks, Local;
    InvFacts(sb, s1.d, s1.ins, s1.owner, i, bn);
    InvFacts(sb, s2.d, s2.ins, s2.owner, i, bn);
    GrowsIndirect(sb, s1.d, s1.ins, s1.owner, s1.logged, s2.d, s2.ins, s2.owner, s2.logged, i);
    FirstBlock(sb, s1.d, s1.ins, i, off, n, tot, t, bm);
    TallyStep(s0.logged, s1.logged, s1.ins[i].addrs[NDIRECT], data, bms, t, if t > 0 then Inside(off, n) else 0,
              s2.logged, s2.ins[i].addrs[NDIRECT], a, bm, Inside(off, n));
  }

  lemma WriteRound(sb: Super, s0: Snap, s1: Snap, s2: Snap, i: nat, src: seq<int>, off: nat, n: nat, tot: nat,
                   bn: nat, o: nat, m: nat, t: nat, data: set<int>, bms: set<int>, a: int, bm: set<int>,
                   stored: seq<int>)
    requires Writing(sb, s0, s1, i, src, off, n, tot, tot, tot, t, data, bms)
    requires Round(sb, s1, s2, i, bn, o, a, bm, stored)
    requires tot < n && bn == (off + tot) / BSIZE && o == (off + tot) % BSIZE
    requires m == (if n - tot < BSIZE - o then n - tot else BSIZE - o)
    requires tot + |stored| <= |src| && stored == src[tot..tot + |stored|]
    ensures Writing(sb, s0, s2, i, src, off, n, tot, tot + |stored|, tot + m, t + 1, data + {a}, bms + bm)
    ensures a != 0 && a in s2.logged && |stored| == m ==>
      Writing(sb, s0, s2, i, src, off, n, tot + m, tot + m, tot + m, t + 1, data + {a}, bms + bm)
  {
    hide Poked, Reach, DataLogged, AtBlock, Tally, Grows, Lookup, Inv, Inside, NewBlocks, InodesOk, Local;
    InvFacts(sb, s1.d, s1.ins, s1.owner, i, bn);
    InvFacts(sb, s2.d, s2.ins, s2.owner, i, bn);
    NextBlock(off, n, tot, t, m);
    RoundBytes(sb, s0, s1, s2, i, src, off, n, tot, bn, o, t, data, bms, a, bm, stored);
    RoundTally(sb, s0, s1, s2, i, src, off, n, tot, bn, o, t, data, bms, a, bm, stored);
    DivMono(off, off + tot);
    DivMono(off + tot, off + n - 1);
    LocalTrans(sb, s0, s1, s2, i, off / BSIZE, bn, (off + n - 1) / BSIZE);
    if a != 0 && a in s2.logged {
      Advance(sb, s1.d, s1.ins, s1.owner, s1.logged, s2.d, s2.ins, s2.owner, s2.logged, i, off, off + tot, m);
      assert off + tot + m == off + (tot + m);
    }
  }

  lemma GrowsIndirect(sb: Super, d: Disk, ins: seq<Inode>, owner: map<int, Place>, logged: set<int>,
                      d': Disk, ins': seq<Inode>, owner': map<int, Place>, logged': set<int>, i: nat)
    requires DiskOk(sb, d) && DiskOk(sb, d') && InodesOk(ins) && InodesOk(ins') && i < |ins| == |ins'|
    requires Grows(sb, d, ins, owner, logged, d', ins', owner', logged', i)
    ensures ins[i].addrs[NDIRECT] != 0 ==> ins'[i].addrs[NDIRECT] == ins[i].addrs[NDIRECT]
  {
    assert Ref(sb, d, ins, Indir(i)) == ins[i].addrs[NDIRECT];
  }

  /** A write that starts inside a block finds that block in place. */
  lemma FirstBlock(sb: Super, d: Disk, ins: seq<Inode>, i: nat, off: nat, n: nat, tot: nat, t: nat, bm: set<int>)
    requires DiskOk(sb, d) && InodesOk(ins) && i < |ins| && off + n <= FILEMAX && tot < n
    requires Reach(sb, d, ins, i, off + tot) && AtBlock(off, n, tot, t)
    requires |bm| <= NewBlocks(sb, d, ins, i, (off + tot) / BSIZE)
    requires Lookup(sb, d, ins, i, (off + tot) / BSIZE) != 0 ==> bm == {}
    ensures t == 0 && Inside(off, n) == 1 ==> bm == {}
    ensures |bm| <= 2 && (ins[i].addrs[NDIRECT] != 0 ==> |bm| <= 1)
  {
    if t == 0 && off % BSIZE != 0 {
      assert off / BSIZE * BSIZE < off;
    }
  }

  /** The bytes of a write at `off` that go into one block after the first `tot`. */
  function Piece(off: nat, n: nat, tot: nat): int {
    if n - tot < BSIZE - (off + tot) % BSIZE then n - tot else BSIZE - (off + tot) % BSIZE
  }

  /** A write stops between blocks. */
  predicate Edge(off: nat, n: nat, tot: nat) { tot == 0 || tot == n || (off + tot) % BSIZE == 0 }

  lemma PieceIs(off: nat, n: nat, tot: nat, m: int)
    requires tot <= n && m == if n - tot < BSIZE - (off + tot) % BSIZE then n - tot else BSIZE - (off + tot) % BSIZE
    ensures m == Piece(off, n, tot)
  {
  }

  /** The last round of a write that stops early. */
  lemma RoundEnds(sb: Super, s0: Snap, s1: Snap, s2: Snap, i: nat, src: seq<int>, off: nat, n: nat, tot: nat,
                  a: int, bm: set<int>, stored: seq<int>)
    requires DiskOk(sb, s0.d) && InodesOk(s0.ins) && i < |s0.ins| == |s1.ins| && tot < n && off + n <= FILEMAX
    requires Edge(off, n, tot)
    requires Round(sb, s1, s2, i, (off + tot) / BSIZE, (off + tot) % BSIZE, a, bm, stored) && tot <= |src|
    requires if a == 0 then Full(sb, s2.d) && stored == [] else |stored| < Piece(off, n, tot) && stored == src[tot..]
    requires tot == 0 ==> s1 == s0
    requires a != 0 && Lookup(sb, s1.d, s1.ins, i, (off + tot) / BSIZE) != 0 ==> s2.logged == s1.logged
    ensures DiskOk(sb, s2.d) && InodesOk(s2.ins) && Ended(sb, s2.d, s2.ins, i, src, off, n, tot, tot + |stored|)
    ensures CutShort(sb, s0, i, off, n, tot, tot + |stored|) ==> s2.logged == s0.logged
  {
    hide Grows, Local, Poked, Bits, Solid, Edge, Lookup;
    EdgeNext(off, n, tot);
  }

  lemma EdgeNext(off: nat, n: nat, tot: nat)
    requires tot < n
    ensures 0 < Piece(off, n, tot) && tot + Piece(off, n, tot) <= n && Edge(off, n, tot + Piece(off, n, tot))
  {
    var q := (off + tot) / BSIZE;
    assert off + tot == q * BSIZE + (off + tot) % BSIZE;
    assert (q + 1) * BSIZE % BSIZE == 0;
  }

  /** How a write of n bytes ends after `r` counted and `w` stored bytes: all of them, or no block for the next
      byte, or a source that ends inside the next block, and then the bytes it still has are stored but not
      counted. */
  ghost predicate Ended(sb: Super, d: Disk, ins: seq<Inode>, i: nat, src: seq<int>, off: nat, n: nat, r: nat, w: nat)
    requires DiskOk(sb, d) && InodesOk(ins) && i < |ins|
  {
    && r <= w <= n && w <= |src| && Edge(off, n, r)
    && (r < n ==>
          if Stuck(sb, d, ins, i, off + r) then w == r
          else Faulted(sb, d, ins, i, off, n, r) && w == |src| < r + Piece(off, n, r))
  }

  /** The source ended inside the first block of a write, and that block was there before. */
  ghost predicate CutShort(sb: Super, s0: Snap, i: nat, off: nat, n: nat, r: nat, w: nat)
    requires DiskOk(sb, s0.d) && InodesOk(s0.ins) && i < |s0.ins|
  {
    r == 0 < w && r < n && off < FILEMAX && Lookup(sb, s0.d, s0.ins, i, off / BSIZE) != 0
  }

  lemma JournalStart(sb: Super, s: Snap, i: nat, off: nat)
    requires DiskOk(sb, s.d)
    ensures Journal(sb, s, s, i, off / BSIZE, LastBlock(off, 0), -1)
  {
  }

  lemma JournalAll(sb: Super, s: Snap, i: nat, off: nat, n: nat)
    requires Inv(sb, s.d, s.ins, s.owner) && i < |s.ins|
    ensures Skip(sb, s, i, off, n, n) == -1
  {
  }

  /** A round of the loop, stored, without a block, or with a source that ends in it. */
  lemma JournalRound(sb: Super, s0: Snap, s1: Snap, s2: Snap, i: nat, off: nat, n: nat, tot: nat, m: nat, bn: nat,
                     a: int, bm: set<int>, bytes: seq<int>, stored: bool)
    requires Journal(sb, s0, s1, i, off / BSIZE, LastBlock(off, tot), -1) && tot < n && off + n <= FILEMAX
    requires bn == (off + tot) / BSIZE && m == Piece(off, n, tot)
    requires Round(sb, s1, s2, i, bn, (off + tot) % BSIZE, a, bm, bytes)
    requires a == 0 ==> !stored && Full(sb, s2.d)
    requires if stored then Journal(sb, s1, s2, i, bn, bn, -1)
             else Journal(sb, s1, s2, i, 1, 0, if a == 0 then -1 else a)
    ensures DiskOk(sb, s2.d) && InodesOk(s2.ins) && i < |s2.ins|
    ensures if stored then Journal(sb, s0, s2, i, off / BSIZE, LastBlock(off, tot + m), -1)
            else Journal(sb, s0, s2, i, off / BSIZE, LastBlock(off, tot), Skip(sb, s2, i, off, n, tot))
  {
    hide Journal, Grows, Local, Poked, Bits, Solid, SizesOk, Refs;
    InvSizes(sb, s2.d, s2.ins, s2.owner);
    DivMono(off, off + tot);
    LastMono(off, tot, m, n);
    if stored {
      JournalTrans(sb, s0, s1, s2, i, off / BSIZE, LastBlock(off, tot), bn, bn, -1);
    } else {
      JournalTrans(sb, s0, s1, s2, i, off / BSIZE, LastBlock(off, tot), 1, 0, if a == 0 then -1 else a);
    }
  }

  lemma LastMono(off: nat, tot: nat, m: nat, n: nat)
    requires tot < n && m == Piece(off, n, tot)
    ensures LastBlock(off, tot) <= (off + tot) / BSIZE == LastBlock(off, tot + m) && m > 0
  {
    EdgeNext(off, n, tot);
    var q := (off + tot) / BSIZE;
    assert off + tot == q * BSIZE + (off + tot) % BSIZE;
    if tot > 0 { DivMono(off + tot - 1, off + tot); }
  }

  lemma JournalEnd(sb: Super, s0: Snap, s1: Snap, i: nat, off: nat, n: nat, tot: nat, size: nat)
    requires Inv(sb, s0.d, s0.ins, s0.owner) && Inv(sb, s1.d, s1.ins, s1.owner) && i < |s0.ins| == |s1.ins|
    requires Inv(sb, s1.d, Resized(s1.ins, i, size), s1.owner) && tot <= n && off + n <= FILEMAX && Edge(off, n, tot)
    requires Grows(sb, s0.d, s0.ins, s0.owner, s0.logged, s1.d, s1.ins, s1.owner, s1.logged, i)
    requires Journal(sb, s0, s1, i, off / BSIZE, LastBlock(off, tot), Skip(sb, s1, i, off, n, tot))
    ensures Logs(sb, s0, Snap(s1.d, Resized(s1.ins, i, size), s1.owner, s1.logged + {Iblock(sb, i)}), i, off, n, tot)
  {
    hide Bits, Solid, SizesOk, Grows;
    var ins2 := Resized(s1.ins, i, size);
    SizeRefs(sb, s1.d, s1.ins, s1.owner, i, size);
    if tot < n && off + tot < FILEMAX {
      var bn := (off + tot) / BSIZE;
      assert PlaceOk(s1.ins, Spot(i, bn));
      assert Lookup(sb, s1.d, ins2, i, bn) == Lookup(sb, s1.d, s1.ins, i, bn);
      if Lookup(sb, s1.d, s1.ins, i, bn) != 0 { SkipLogged(sb, s0, s1, i, off, n, tot); }
    }
  }

  /** The block of the failing round: new and logged, or in use before and not newly logged. */
  lemma SkipLogged(sb: Super, s0: Snap, s1: Snap, i: nat, off: nat, n: nat, tot: nat)
    requires Inv(sb, s0.d, s0.ins, s0.owner) && Inv(sb, s1.d, s1.ins, s1.owner) && i < |s0.ins| == |s1.ins|
    requires tot < n && off + tot < FILEMAX && Edge(off, n, tot)
    requires Lookup(sb, s1.d, s1.ins, i, (off + tot) / BSIZE) != 0
    requires Grows(sb, s0.d, s0.ins, s0.owner, s0.logged, s1.d, s1.ins, s1.owner, s1.logged, i)
    requires Journal(sb, s0, s1, i, off / BSIZE, LastBlock(off, tot), Skip(sb, s1, i, off, n, tot))
    ensures var bn := (off + tot) / BSIZE;
      var b, was := Lookup(sb, s1.d, s1.ins, i, bn), Lookup(sb, s0.d, s0.ins, i, bn);
      sb.nmeta <= b && if was == 0 then b in s1.logged else b == was && (b in s1.logged <==> b in s0.logged)
  {
    hide Bits, Solid, SizesOk, Skip;
    var bn := (off + tot) / BSIZE;
    var b := Lookup(sb, s1.d, s1.ins, i, bn);
    InvFacts(sb, s0.d, s0.ins, s0.owner, i, bn);
    InvFacts(sb, s1.d, s1.ins, s1.owner, i, bn);
    assert PlaceOk(s0.ins, Spot(i, bn));
    BeforeNext(off, n, tot);
  }

  lemma BeforeNext(off: nat, n: nat, tot: nat)
    requires tot < n && Edge(off, n, tot)
    ensures LastBlock(off, tot) < (off + tot) / BSIZE
  {
  }

  /** What writei as a whole has done: `r` bytes written and counted, `w` bytes stored. */
  ghost predicate Wrote(sb: Super, s0: Snap, s2: Snap, i: nat, src: seq<int>, off: nat, n: nat, r: nat, w: nat)
    requires DiskOk(sb, s0.d) && InodesOk(s0.ins) && DiskOk(sb, s2.d) && InodesOk(s2.ins) && i < |s0.ins| == |s2.ins|
  {
    && Ended(sb, s2.d, s2.ins, i, src, off, n, r, w)
    && (CutShort(sb, s0, i, off, n, r, w) ==> s2.logged == s0.logged + {Iblock(sb, i)})
    && Poked(sb, s0.d, s0.ins, s2.d, s2.ins, i, off, src[..w])
    && s2.ins[i].size == (if off + r > s0.ins[i].size then off + r else s0.ins[i].size)
    && (forall j | 0 <= j < |s0.ins| && j != i :: s2.ins[j].size == s0.ins[j].size)
    && Grows(sb, s0.d, s0.ins, s0.owner, s0.logged, s2.d, s2.ins, s2.owner, s2.logged, i)
    && Local(sb, s0.d, s0.ins, s2.d, s2.ins, i, off / BSIZE, (off + n - 1) / BSIZE)
    && DataLogged(sb, s2.d, s2.ins, s2.logged, i, off, off + r) && Iblock(sb, i) in s2.logged
    && |s2.logged - s0.logged| <= 2 * Span(off, n) + 3 - Inside(off, n)
    && Logs(sb, s0, s2, i, off, n, r)
  }

  /** The last part of writei: the size grows to the end of what was stored, and the inode is logged. */
  lemma WriteEnd(sb: Super, s0: Snap, s1: Snap, i: nat, src: seq<int>, off: nat, n: nat, tot: nat, w: nat,
                 reached: nat, t: nat, data: set<int>, bms: set<int>)
    requires Writing(sb, s0, s1, i, src, off, n, tot, w, reached, t, data, bms) && (t == 0 ==> n == 0)
    requires tot == n ==> w == n
    requires Inv(sb, s0.d, s0.ins, s0.owner)
    requires Journal(sb, s0, s1, i, off / BSIZE, LastBlock(off, tot), Skip(sb, s1, i, off, n, tot)) && Edge(off, n, tot)
    requires tot < n ==>
      && Ended(sb, s1.d, s1.ins, i, src, off, n, tot, w)
      && (CutShort(sb, s0, i, off, n, tot, w) ==> s1.logged == s0.logged)
    ensures var size := if off + tot > s1.ins[i].size then off + tot else s1.ins[i].size;
      var ins2 := Resized(s1.ins, i, size);
      && Inv(sb, s1.d, ins2, s1.owner)
      && Wrote(sb, s0, Snap(s1.d, ins2, s1.owner, s1.logged + {Iblock(sb, i)}), i, src, off, n, tot, w)
  {
    hide Poked, Reach, Inv, Tally, AtBlock, Span, Inside, Iblock, Ended, Grows, DataLogged, Local, Journal, Logs, Skip,
         Edge;
    InvSizes(sb, s1.d, s1.ins, s1.owner);
    TallyEnd(s0.logged, s1.logged, s1.ins[i].addrs[NDIRECT], data, bms, off, n, reached, t, Iblock(sb, i));
    var size := if off + tot > s1.ins[i].size then off + tot else s1.ins[i].size;
    var ins2 := Resized(s1.ins, i, size);
    SizeReach(sb, s1.d, s1.ins, s1.owner, i);
    SizeOnly(sb, s1.d, s1.ins, s1.owner, i, size);
    assert src[..w] + [] == src[..w];
    PokeTrans(sb, s0.d, s0.ins, s1.d, s1.ins, s1.d, ins2, i, off, src[..w], []);
    Relabel(sb, s0.d, s0.ins, s0.owner, s0.logged, s1.d, s1.ins, s1.owner, s1.logged, ins2, i, Iblock(sb, i), off,
            off + tot);
    RelabelLocal(sb, s0.d, s0.ins, s1.d, s1.ins, ins2, i, off / BSIZE, (off + n - 1) / BSIZE);
    RelabelEnded(sb, s1.d, s1.ins, ins2, i, src, off, n, tot, w);
    JournalEnd(sb, s0, s1, i, off, n, tot, size);
  }

  lemma SizeReach(sb: Super, d: Disk, ins: seq<Inode>, owner: map<int, Place>, i: nat)
    requires Inv(sb, d, ins, owner) && i < |ins|
    ensures Reach(sb, d, ins, i, ins[i].size)
  {
  }

  lemma RelabelLocal(sb: Super, d: Disk, ins: seq<Inode>, d': Disk, ins': seq<Inode>, ins2: seq<Inode>, i: nat, lo: int,
                     hi: int)
    requires DiskOk(sb, d) && DiskOk(sb, d') && InodesOk(ins) && InodesOk(ins') && InodesOk(ins2)
    requires i < |ins| == |ins'| == |ins2|
    requires Local(sb, d, ins, d', ins', i, lo, hi)
    requires forall pl | PlaceOk(ins', pl) :: Ref(sb, d', ins2, pl) == Ref(sb, d', ins', pl)
    ensures Local(sb, d, ins, d', ins2, i, lo, hi)
  {
    assert forall pl :: PlaceOk(ins, pl) <==> PlaceOk(ins', pl);
  }

  lemma RelabelEnded(sb: Super, d: Disk, ins: seq<Inode>, ins2: seq<Inode>, i: nat, src: seq<int>, off: nat, n: nat,
                     tot: nat, w: nat)
    requires DiskOk(sb, d) && InodesOk(ins) && InodesOk(ins2) && i < |ins| == |ins2|
    requires forall pl | PlaceOk(ins, pl) :: Ref(sb, d, ins2, pl) == Ref(sb, d, ins, pl)
    requires tot <= w <= |src| && (if tot < n then Ended(sb, d, ins, i, src, off, n, tot, w) else tot == w == n)
    ensures Ended(sb, d, ins2, i, src, off, n, tot, w)
  {
    hide Piece;
    var x := off + tot;
    if x < FILEMAX { assert PlaceOk(ins, Spot(i, x / BSIZE)); }
  }

  lemma Relabel(sb: Super, d: Disk, ins: seq<Inode>, owner: map<int, Place>, logged: set<int>,
                d': Disk, ins': seq<Inode>, owner': map<int, Place>, logged': set<int>, ins2: seq<Inode>, i: nat,
                x: int, lo: nat, hi: nat)
    requires DiskOk(sb, d) && DiskOk(sb, d') && InodesOk(ins) && InodesOk(ins') && InodesOk(ins2)
    requires i < |ins| == |ins'| == |ins2|
    requires Grows(sb, d, ins, owner, logged, d', ins', owner', logged', i)
    requires DataLogged(sb, d', ins', logged', i, lo, hi)
    requires ins2[i].addrs == ins'[i].addrs
    requires forall pl | PlaceOk(ins', pl) :: Ref(sb, d', ins2, pl) == Ref(sb, d', ins', pl)
    ensures Grows(sb, d, ins, owner, logged, d', ins2, owner', logged' + {x}, i)
    ensures DataLogged(sb, d', ins2, logged' + {x}, i, lo, hi)
  {
    assert forall pl :: PlaceOk(ins, pl) <==> PlaceOk(ins', pl);
    forall bn | 0 <= bn < MAXFILE ensures Lookup(sb, d', ins2, i, bn) == Lookup(sb, d', ins', i, bn) {
      assert PlaceOk(ins', Spot(i, bn));
    }
  }

  /** A write that transfers all n bytes splices them in at `off`; every other file keeps its bytes. */
  lemma Spliced(sb: Super, s0: Snap, s2: Snap, i: nat, src: seq<int>, off: nat, n: nat, w: nat, j: nat)
    requires Inv(sb, s0.d, s0.ins, s0.owner) && Inv(sb, s2.d, s2.ins, s2.owner) && i < |s0.ins| == |s2.ins|
    requires j < |s0.ins|
    requires off <= s0.ins[i].size && off + n <= FILEMAX && Wrote(sb, s0, s2, i, src, off, n, n, w)
    ensures var was := Content(sb, s0.d, s0.ins, i);
      Content(sb, s2.d, s2.ins, i) == was[..off] + src[..n] + if off + n < |was| then was[off + n..] else []
    ensures j != i ==> Content(sb, s2.d, s2.ins, j) == Content(sb, s0.d, s0.ins, j)
  {
    hide Grows, DataLogged, Stuck, Span, Iblock, ByteAt, Refs, Bits, Solid, Local, CutShort, Edge;
  }

  /** Reading below the size never needs a new block. */
  lemma ReadFacts(sb: Super, d: Disk, ins: seq<Inode>, owner: map<int, Place>, i: nat, x: nat)
    requires Inv(sb, d, ins, owner) && i < |ins| && x < ins[i].size
    ensures x / BSIZE < MAXFILE && Lookup(sb, d, ins, i, x / BSIZE) != 0
  {
    assert x / BSIZE * BSIZE <= x;
  }

  lemma MappedSame(sb: Super, s: Snap, s': Snap, i: nat, bn: nat, a: int, bm: set<int>)
    requires Inv(sb, s.d, s.ins, s.owner) && Inv(sb, s'.d, s'.ins, s'.owner) && i < |s.ins| == |s'.ins| && bn < MAXFILE
    requires Mapped(sb, s.d, s.ins, s.owner, s.logged, s'.d, s'.ins, s'.owner, s'.logged, i, bn, a, bm)
    ensures Lookup(sb, s.d, s.ins, i, bn) != 0 ==> s' == s && a == Lookup(sb, s.d, s.ins, i, bn)
  {
  }

  lemma ReadByte(sb: Super, d: Disk, ins: seq<Inode>, i: nat, bn: nat, o: nat, m: nat, a: int, x: nat)
    requires DiskOk(sb, d) && InodesOk(ins) && i < |ins| && bn < MAXFILE && a == Lookup(sb, d, ins, i, bn)
    requires 0 < a < sb.size
    requires o + m <= BSIZE && bn * BSIZE + o <= x < bn * BSIZE + o + m
    ensures x < FILEMAX && ByteAt(sb, d, ins, i, x) == d[a][x - bn * BSIZE]
  {
    InRange(bn, o, m, x);
  }

  /** A piece of a block is a piece of the file. */
  lemma ReadBlock(sb: Super, d: Disk, ins: seq<Inode>, owner: map<int, Place>, i: nat, bn: nat, o: nat, m: nat, a: int,
                  pos: nat)
    requires Inv(sb, d, ins, owner) && i < |ins| && bn < MAXFILE && a == Lookup(sb, d, ins, i, bn) != 0
    requires o + m <= BSIZE && pos == bn * BSIZE + o && pos + m <= ins[i].size
    ensures a in d && |d[a]| == BSIZE && d[a][o..o + m] == Content(sb, d, ins, i)[pos..pos + m]
  {
    hide Inv, ByteAt, Lookup, Refs;
    InvFacts(sb, d, ins, owner, i, bn);
    InvSizes(sb, d, ins, owner);
    var p, q := d[a][o..o + m], Content(sb, d, ins, i)[pos..pos + m];
    forall k | 0 <= k < m ensures p[k] == q[k] {
      ReadByte(sb, d, ins, i, bn, o, m, a, pos + k);
      assert pos + k - bn * BSIZE == o + k;
    }
  }

  /** The next piece of a read. */
  lemma ReadStep(sb: Super, d: Disk, ins: seq<Inode>, owner: map<int, Place>, i: nat, off: nat, tot: nat, k: nat,
                 a: int, out: seq<int>)
    requires Inv(sb, d, ins, owner) && i < |ins| && off + tot < FILEMAX && off + tot + k <= ins[i].size
    requires k <= BSIZE - (off + tot) % BSIZE && out == Content(sb, d, ins, i)[off..off + tot]
    requires a == Lookup(sb, d, ins, i, (off + tot) / BSIZE) != 0
    ensures a in d && |d[a]| == BSIZE
    ensures out + d[a][(off + tot) % BSIZE..(off + tot) % BSIZE + k] == Content(sb, d, ins, i)[off..off + tot + k]
  {
    hide Inv, Content, Lookup;
    InvSizes(sb, d, ins, owner);
    ReadBlock(sb, d, ins, owner, i, (off + tot) / BSIZE, (off + tot) % BSIZE, k, a, off + tot);
    SliceJoin(Content(sb, d, ins, i), off, off + tot, off + tot + k);
  }

  lemma SliceJoin(s: seq<int>, a: nat, b: nat, c: nat)
    requires a <= b <= c <= |s|
    ensures s[a..b] + s[b..c] == s[a..c]
  {
  }

  // ---- filewrite: one transaction for each chunk ----

  const CHUNK: int := (MAXOPBLOCKS - 1 - 1 - 2) / 2 * BSIZE

  /** A chunk never logs more blocks than an operation may. */
  lemma ChunkFits(off: nat, n: nat)
    requires n <= CHUNK
    ensures 2 * Span(off, n) + 3 - Inside(off, n) <= MAXOPBLOCKS
  {
    assert CHUNK == 3072;
  }

  /** What the chunks so far have done: `done` bytes counted, `w` bytes stored. */
  ghost predicate FileWrote(sb: Super, s0: Snap, s1: Snap, i: nat, src: seq<int>, off: nat, done: nat, w: nat) {
    && Inv(sb, s0.d, s0.ins, s0.owner) && Inv(sb, s1.d, s1.ins, s1.owner) && i < |s0.ins| == |s1.ins|
    && done <= w <= |src| && (done > 0 ==> off + done <= FILEMAX)
    && Poked(sb, s0.d, s0.ins, s1.d, s1.ins, i, off, src[..w])
    && s1.ins[i].size == (if done > 0 && off + done > s0.ins[i].size then off + done else s0.ins[i].size)
    && (forall j | 0 <= j < |s0.ins| && j != i :: s1.ins[j].size == s0.ins[j].size)
  }

  lemma FileStart(sb: Super, s: Snap, i: nat, src: seq<int>, off: nat)
    requires Inv(sb, s.d, s.ins, s.owner) && i < |s.ins|
    ensures FileWrote(sb, s, s, i, src, off, 0, 0)
  {
  }

  lemma FileChunk(sb: Super, s0: Snap, s1: Snap, s2: Snap, i: nat, src: seq<int>, off: nat, done: nat, n1: nat, r: nat,
                  w: nat)
    requires FileWrote(sb, s0, s1, i, src, off, done, done) && Inv(sb, s2.d, s2.ins, s2.owner) && |s2.ins| == |s1.ins|
    requires off + done + n1 <= FILEMAX && off + done <= s1.ins[i].size
    requires Wrote(sb, s1.(logged := {}), s2, i, src[done..], off + done, n1, r, w)
    ensures FileWrote(sb, s0, s2, i, src, off, done + r, done + w)
    ensures n1 <= CHUNK ==> |s2.logged| <= MAXOPBLOCKS
    ensures r <= w <= n1 && done + w <= |src|
    ensures r < n1 ==> |src| - done < n1 || Stuck(sb, s2.d, s2.ins, i, off + done + r)
  {
    hide Grows, DataLogged, Stuck, Span, Iblock, ByteAt, Inv, Poked, Inside, Local, CutShort, Edge, Piece;
    if r < n1 { EdgeNext(off + done, n1, r); }
    InvSizes(sb, s0.d, s0.ins, s0.owner);
    InvSizes(sb, s1.d, s1.ins, s1.owner);
    InvSizes(sb, s2.d, s2.ins, s2.owner);
    if n1 <= CHUNK { ChunkFits(off + done, n1); }
    assert s2.logged - {} == s2.logged;
    assert src[..done] + src[done..][..w] == src[..done + w];
    PokeTrans(sb, s0.d, s0.ins, s1.d, s1.ins, s2.d, s2.ins, i, off, src[..done], src[done..][..w]);
  }

  lemma FileSizes(sb: Super, s0: Snap, s1: Snap, i: nat, src: seq<int>, off: nat, done: nat, w: nat)
    requires FileWrote(sb, s0, s1, i, src, off, done, w)
    ensures i < |s0.ins| == |s1.ins| && (off <= s0.ins[i].size || done > 0 ==> off + done <= s1.ins[i].size)
  {
  }

  lemma FileSame(sb: Super, s0: Snap, s1: Snap, s2: Snap, i: nat, src: seq<int>, off: nat, done: nat, w: nat)
    requires FileWrote(sb, s0, s1, i, src, off, done, w) && s2 == s1.(logged := s2.logged)
    ensures FileWrote(sb, s0, s2, i, src, off, done, w)
  {
  }
}
