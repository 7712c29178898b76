/** Inodes over the block layer: every data or indirect block is referenced from one place,
    and a file is a plain sequence of bytes. */
module FsInode {
  import opened Params
  import opened FsDisk

  /** The in-memory inode: twelve direct addresses, the indirect block, the size. */
  datatype Inode = Inode(addrs: seq<int>, size: nat)

  /** Where a block number can be stored. */
  datatype Place = Direct(ino: nat, k: nat) | Indir(ino: nat) | Entry(ino: nat, k: nat)

  ghost predicate PlaceOk(ins: seq<Inode>, pl: Place) {
    pl.ino < |ins| && (pl.Direct? ==> pl.k < NDIRECT) && (pl.Entry? ==> pl.k < NINDIRECT)
  }

  ghost predicate InodesOk(ins: seq<Inode>) { forall i | 0 <= i < |ins| :: |ins[i].addrs| == NDIRECT + 1 }

  /** The block number stored at a place; 0 when there is none. */
  ghost function Ref(sb: Super, d: Disk, ins: seq<Inode>, pl: Place): int
    requires DiskOk(sb, d) && InodesOk(ins) && PlaceOk(ins, pl)
  {
    match pl
    case Direct(i, k) => ins[i].addrs[k]
    case Indir(i) => ins[i].addrs[NDIRECT]
    case Entry(i, k) =>
      var a := ins[i].addrs[NDIRECT];
      if 0 < a < sb.size then Word(d[a], k) else 0
  }

  /** `owner` says for each referenced block the one place that refers to it. */
  ghost predicate Refs(sb: Super, d: Disk, ins: seq<Inode>, owner: map<int, Place>) {
    && DiskOk(sb, d) && InodesOk(ins)
    && (forall pl | PlaceOk(ins, pl) && Ref(sb, d, ins, pl) != 0 ::
          Ref(sb, d, ins, pl) in owner && owner[Ref(sb, d, ins, pl)] == pl)
    && (forall b | b in owner :: sb.nmeta <= b < sb.size && PlaceOk(ins, owner[b]) && Ref(sb, d, ins, owner[b]) == b)
  }

  /** The bitmap marks the metadata and exactly the blocks in `used`. */
  ghost predicate Bits(sb: Super, d: Disk, used: set<int>)
    requires DiskOk(sb, d)
  {
    forall b | 0 <= b < sb.size :: Bit(sb, d, b) <==> b < sb.nmeta || b in used
  }

  /** Where block `bn` of a file is recorded. */
  ghost function Spot(i: nat, bn: nat): Place { if bn < NDIRECT then Direct(i, bn) else Entry(i, bn - NDIRECT) }

  ghost function Lookup(sb: Super, d: Disk, ins: seq<Inode>, i: nat, bn: nat): int
    requires DiskOk(sb, d) && InodesOk(ins) && i < |ins| && bn < MAXFILE
  {
    Ref(sb, d, ins, Spot(i, bn))
  }

  /** Byte `x` of file `i`; a block that is not there reads as zero. */
  ghost function ByteAt(sb: Super, d: Disk, ins: seq<Inode>, i: nat, x: nat): int
    requires DiskOk(sb, d) && InodesOk(ins) && i < |ins| && x < MAXFILE * BSIZE
  {
    var a := Lookup(sb, d, ins, i, x / BSIZE);
    if 0 < a < sb.size then d[a][x % BSIZE] else 0
  }

  /** No file has a hole below its size, and none is longer than the maximum. */
  ghost predicate Solid(sb: Super, d: Disk, ins: seq<Inode>)
    requires DiskOk(sb, d) && InodesOk(ins)
  {
    forall i, bn | 0 <= i < |ins| && 0 <= bn < MAXFILE && bn * BSIZE < ins[i].size :: Lookup(sb, d, ins, i, bn) != 0
  }

  ghost predicate SizesOk(ins: seq<Inode>) { forall i | 0 <= i < |ins| :: ins[i].size <= MAXFILE * BSIZE }

  ghost predicate Inv(sb: Super, d: Disk, ins: seq<Inode>, owner: map<int, Place>) {
    Refs(sb, d, ins, owner) && Bits(sb, d, owner.Keys) && Solid(sb, d, ins) && SizesOk(ins)
  }

  /** No block is referenced from two places. */
  lemma OnePlace(sb: Super, d: Disk, ins: seq<Inode>, owner: map<int, Place>, p: Place, q: Place)
    requires Refs(sb, d, ins, owner) && PlaceOk(ins, p) && PlaceOk(ins, q)
    requires Ref(sb, d, ins, p) == Ref(sb, d, ins, q) != 0
    ensures p == q
  {
  }

  // ---- changes of one block, one address, one bit ----

  /** Blocks that hold no addresses may change freely. */
  lemma RefsFrame(sb: Super, d: Disk, d': Disk, ins: seq<Inode>, owner: map<int, Place>)
    requires Refs(sb, d, ins, owner) && DiskOk(sb, d')
    requires forall b | b in owner && owner[b].Indir? :: d'[b] == d[b]
    ensures Refs(sb, d', ins, owner)
    ensures forall pl | PlaceOk(ins, pl) :: Ref(sb, d', ins, pl) == Ref(sb, d, ins, pl)
  {
    forall pl | PlaceOk(ins, pl) ensures Ref(sb, d', ins, pl) == Ref(sb, d, ins, pl) {
      if pl.Entry? {
        var r := Ref(sb, d, ins, Indir(pl.ino));
      }
    }
  }

  lemma BitsFrame(sb: Super, d: Disk, d': Disk, used: set<int>)
    requires DiskOk(sb, d) && DiskOk(sb, d') && Bits(sb, d, used)
    requires forall b | 0 <= b < sb.nmeta :: d'[b] == d[b]
    ensures Bits(sb, d', used)
  {
    forall b | 0 <= b < sb.size ensures Bit(sb, d', b) <==> Bit(sb, d, b) { InMeta(sb, b); }
  }

  /** Storing a block number at an empty place. */
  ghost function PutIns(ins: seq<Inode>, pl: Place, b: int): seq<Inode>
    requires InodesOk(ins) && PlaceOk(ins, pl) && !pl.Entry?
  {
    var k := if pl.Direct? then pl.k else NDIRECT;
    ins[pl.ino := ins[pl.ino].(addrs := ins[pl.ino].addrs[k := b])]
  }

  lemma PutAddr(sb: Super, d: Disk, ins: seq<Inode>, owner: map<int, Place>, pl: Place, b: int)
    requires Refs(sb, d, ins, owner) && PlaceOk(ins, pl) && !pl.Entry? && Ref(sb, d, ins, pl) == 0
    requires sb.nmeta <= b < sb.size && b !in owner && (pl.Indir? ==> d[b] == Zeroes())
    ensures Refs(sb, d, PutIns(ins, pl, b), owner[b := pl])
    ensures forall p | PlaceOk(ins, p) :: Ref(sb, d, PutIns(ins, pl, b), p) == if p == pl then b else Ref(sb, d, ins, p)
  {
    var ins', owner' := PutIns(ins, pl, b), owner[b := pl];
    forall p | PlaceOk(ins, p) ensures Ref(sb, d, ins', p) == if p == pl then b else Ref(sb, d, ins, p) {
      if p.Entry? && pl == Indir(p.ino) { ZeroWord(p.k); }
    }
    forall p | PlaceOk(ins', p) && Ref(sb, d, ins', p) != 0
      ensures Ref(sb, d, ins', p) in owner' && owner'[Ref(sb, d, ins', p)] == p
    {
      assert PlaceOk(ins, p);
    }
  }

  lemma PutEntry(sb: Super, d: Disk, ins: seq<Inode>, owner: map<int, Place>, i: nat, k: nat, b: int)
    requires Refs(sb, d, ins, owner) && PlaceOk(ins, Entry(i, k)) && Ref(sb, d, ins, Entry(i, k)) == 0
    requires sb.nmeta <= b < sb.size && b !in owner && 0 < ins[i].addrs[NDIRECT] < sb.size
    ensures var a := ins[i].addrs[NDIRECT];
      var d' := d[a := SetWord(d[a], k, b)];
      && Refs(sb, d', ins, owner[b := Entry(i, k)])
      && forall p | PlaceOk(ins, p) :: Ref(sb, d', ins, p) == if p == Entry(i, k) then b else Ref(sb, d, ins, p)
  {
    var a := ins[i].addrs[NDIRECT];
    var d', owner' := d[a := SetWord(d[a], k, b)], owner[b := Entry(i, k)];
    assert DiskOk(sb, d');
    assert Ref(sb, d, ins, Indir(i)) == a;
    forall p | PlaceOk(ins, p) ensures Ref(sb, d', ins, p) == if p == Entry(i, k) then b else Ref(sb, d, ins, p) {
      if p.Entry? {
        WordSet(d[a], k, b, p.k);
        if ins[p.ino].addrs[NDIRECT] == a { assert Ref(sb, d, ins, Indir(p.ino)) == a; }
      }
    }
  }

  // ---- allocation steps ----

  /** balloc's effect: the bit set, the block zeroed. */
  function Allocated(sb: Super, d: Disk, b: int): (d': Disk)
    requires DiskOk(sb, d) && 0 <= b < sb.size
    ensures DiskOk(sb, d')
  {
    Mark(sb, d, b)[b := Zeroes()]
  }

  lemma AllocBlock(sb: Super, d: Disk, ins: seq<Inode>, owner: map<int, Place>, used: set<int>, b: int)
    requires Refs(sb, d, ins, owner) && Bits(sb, d, used) && owner.Keys <= used && 0 <= b < sb.size && !Bit(sb, d, b)
    ensures var d' := Allocated(sb, d, b);
      && Refs(sb, d', ins, owner) && Bits(sb, d', used + {b}) && sb.nmeta <= b && b !in used && d'[b] == Zeroes()
      && (forall c | sb.nmeta <= c < sb.size && c != b :: d'[c] == d[c])
      && (forall pl | PlaceOk(ins, pl) :: Ref(sb, d', ins, pl) == Ref(sb, d, ins, pl))
  {
    var d1, d' := Mark(sb, d, b), Allocated(sb, d, b);
    InMeta(sb, b);
    forall c | 0 <= c < sb.size ensures Bit(sb, d1, c) <==> c < sb.nmeta || c in used + {b} { MarkBit(sb, d, b, c); }
    BitsFrame(sb, d1, d', used + {b});
    RefsFrame(sb, d, d', ins, owner);
  }

  lemma FreeBlock(sb: Super, d: Disk, ins: seq<Inode>, owner: map<int, Place>, used: set<int>, b: int)
    requires Refs(sb, d, ins, owner) && Bits(sb, d, used) && sb.nmeta <= b < sb.size && b in used
    ensures var d' := Unmark(sb, d, b);
      && Refs(sb, d', ins, owner) && Bits(sb, d', used - {b}) && Bit(sb, d, b)
      && (forall c | sb.nmeta <= c < sb.size :: d'[c] == d[c])
      && (forall pl | PlaceOk(ins, pl) :: Ref(sb, d', ins, pl) == Ref(sb, d, ins, pl))
  {
    InMeta(sb, b);
    forall c | 0 <= c < sb.size
      ensures Bit(sb, Unmark(sb, d, b), c) <==> c < sb.nmeta || c in used - {b}
    {
      MarkBit(sb, d, b, c);
    }
    RefsFrame(sb, d, Unmark(sb, d, b), ins, owner);
  }

  /** What bmap may change: empty places may be filled, all else that exists stays. */
  ghost predicate Extends(sb: Super, d: Disk, ins: seq<Inode>, owner: map<int, Place>, d': Disk, ins': seq<Inode>,
                          i: nat, bn: nat)
    requires Refs(sb, d, ins, owner) && DiskOk(sb, d') && InodesOk(ins') && i < |ins| == |ins'| && bn < MAXFILE
  {
    && (forall pl | PlaceOk(ins, pl) && pl != Spot(i, bn) && pl != Indir(i) ::
          Ref(sb, d', ins', pl) == Ref(sb, d, ins, pl))
    && (forall pl | PlaceOk(ins, pl) && Ref(sb, d, ins, pl) != 0 :: Ref(sb, d', ins', pl) == Ref(sb, d, ins, pl))
    && (forall b | b in owner && !owner[b].Indir? :: d'[b] == d[b])
    && (forall j | 0 <= j < |ins| :: ins'[j].size == ins[j].size && (j != i ==> ins'[j] == ins[j]))
  }

  /** Filling one empty place of file `i` keeps the invariant and everything that existed. */
  lemma Filled(sb: Super, d: Disk, ins: seq<Inode>, owner: map<int, Place>, logged: set<int>,
               d': Disk, ins': seq<Inode>, logged': set<int>, pl: Place, b: int, i: nat, bn: nat)
    requires Inv(sb, d, ins, owner) && i < |ins| == |ins'| && bn < MAXFILE && (pl == Spot(i, bn) || pl == Indir(i))
    requires PlaceOk(ins, pl)
    requires Refs(sb, d', ins', owner[b := pl]) && Bits(sb, d', owner.Keys + {b}) && Ref(sb, d, ins, pl) == 0
    requires b !in owner
    requires forall p | PlaceOk(ins, p) :: Ref(sb, d', ins', p) == if p == pl then b else Ref(sb, d, ins, p)
    requires forall c | c in owner && !owner[c].Indir? :: d'[c] == d[c]
    requires forall j | 0 <= j < |ins| :: ins'[j].size == ins[j].size && (j != i ==> ins'[j] == ins[j])
    requires logged + {b, Bblock(sb, b)} <= logged' && (pl.Entry? ==> ins'[i].addrs[NDIRECT] in logged')
    ensures Inv(sb, d', ins', owner[b := pl]) && Extends(sb, d, ins, owner, d', ins', i, bn)
    ensures Grows(sb, d, ins, owner, logged, d', ins', owner[b := pl], logged', i)
  {
    hide Bits, Bit, Grows;
    FilledGrows(sb, d, ins, owner, logged, d', ins', logged', pl, b, i);
    assert owner[b := pl].Keys == owner.Keys + {b};
    forall j, m | 0 <= j < |ins'| && 0 <= m < MAXFILE && m * BSIZE < ins'[j].size
      ensures Lookup(sb, d', ins', j, m) != 0
    {
      assert Lookup(sb, d, ins, j, m) != 0;
    }
  }

  lemma FilledGrows(sb: Super, d: Disk, ins: seq<Inode>, owner: map<int, Place>, logged: set<int>,
                    d': Disk, ins': seq<Inode>, logged': set<int>, pl: Place, b: int, i: nat)
    requires DiskOk(sb, d) && DiskOk(sb, d') && InodesOk(ins) && InodesOk(ins') && i < |ins| == |ins'|
    requires PlaceOk(ins, pl) && pl.ino == i && Ref(sb, d, ins, pl) == 0 && b !in owner
    requires forall p | PlaceOk(ins, p) :: Ref(sb, d', ins', p) == if p == pl then b else Ref(sb, d, ins, p)
    requires logged + {b, Bblock(sb, b)} <= logged' && (pl.Entry? ==> ins'[i].addrs[NDIRECT] in logged')
    ensures Grows(sb, d, ins, owner, logged, d', ins', owner[b := pl], logged', i)
  {
    hide Ref, Bblock;
  }

  lemma ExtendsTrans(sb: Super, d: Disk, ins: seq<Inode>, owner: map<int, Place>, logged: set<int>,
                     d1: Disk, ins1: seq<Inode>, owner1: map<int, Place>, logged1: set<int>,
                     d2: Disk, ins2: seq<Inode>, owner2: map<int, Place>, logged2: set<int>, i: nat, bn: nat)
    requires Refs(sb, d, ins, owner) && Refs(sb, d1, ins1, owner1) && DiskOk(sb, d2) && InodesOk(ins2)
    requires i < |ins| == |ins1| == |ins2| && bn < MAXFILE
    requires Extends(sb, d, ins, owner, d1, ins1, i, bn) && Extends(sb, d1, ins1, owner1, d2, ins2, i, bn)
    requires Grows(sb, d, ins, owner, logged, d1, ins1, owner1, logged1, i)
    requires Grows(sb, d1, ins1, owner1, logged1, d2, ins2, owner2, logged2, i)
    ensures Extends(sb, d, ins, owner, d2, ins2, i, bn)
    ensures Grows(sb, d, ins, owner, logged, d2, ins2, owner2, logged2, i)
  {
    assert forall pl :: PlaceOk(ins, pl) <==> PlaceOk(ins1, pl);
    GrowsTrans(sb, d, ins, owner, logged, d1, ins1, owner1, logged1, d2, ins2, owner2, logged2, i);
  }

  /** bmap and writei only add: references that exist stay, and every block taken from the bitmap,
      its bitmap block and a changed indirect block are logged. */
  ghost predicate Grows(sb: Super, d: Disk, ins: seq<Inode>, owner: map<int, Place>, logged: set<int>,
                        d': Disk, ins': seq<Inode>, owner': map<int, Place>, logged': set<int>, i: nat)
    requires DiskOk(sb, d) && DiskOk(sb, d') && InodesOk(ins) && InodesOk(ins') && i < |ins| == |ins'|
  {
    && (forall pl | PlaceOk(ins, pl) && Ref(sb, d, ins, pl) != 0 :: Ref(sb, d', ins', pl) == Ref(sb, d, ins, pl))
    && (forall pl | PlaceOk(ins, pl) && pl.ino != i :: Ref(sb, d', ins', pl) == Ref(sb, d, ins, pl))
    && (forall b | b in owner :: b in owner' && owner'[b] == owner[b])
    && logged <= logged'
    && (forall b | b in owner' && b !in owner :: b in logged' && Bblock(sb, b) in logged')
    && (forall k | 0 <= k < NINDIRECT && Ref(sb, d', ins', Entry(i, k)) != Ref(sb, d, ins, Entry(i, k)) ::
          ins'[i].addrs[NDIRECT] in logged')
  }

  lemma GrowsTrans(sb: Super, d: Disk, ins: seq<Inode>, owner: map<int, Place>, logged: set<int>,
                   d1: Disk, ins1: seq<Inode>, owner1: map<int, Place>, logged1: set<int>,
                   d2: Disk, ins2: seq<Inode>, owner2: map<int, Place>, logged2: set<int>, i: nat)
    requires DiskOk(sb, d) && DiskOk(sb, d1) && DiskOk(sb, d2) && InodesOk(ins) && InodesOk(ins1) && InodesOk(ins2)
    requires i < |ins| == |ins1| == |ins2|
    requires Grows(sb, d, ins, owner, logged, d1, ins1, owner1, logged1, i)
    requires Grows(sb, d1, ins1, owner1, logged1, d2, ins2, owner2, logged2, i)
    ensures Grows(sb, d, ins, owner, logged, d2, ins2, owner2, logged2, i)
  {
    assert forall pl :: PlaceOk(ins, pl) <==> PlaceOk(ins1, pl);
    forall k | 0 <= k < NINDIRECT && Ref(sb, d2, ins2, Entry(i, k)) != Ref(sb, d, ins, Entry(i, k))
      ensures ins2[i].addrs[NDIRECT] in logged2
    {
      if Ref(sb, d1, ins1, Entry(i, k)) != Ref(sb, d, ins, Entry(i, k)) {
        assert Ref(sb, d1, ins1, Entry(i, k)) != 0;
        assert Ref(sb, d1, ins1, Indir(i)) != 0;
        assert Ref(sb, d2, ins2, Indir(i)) == Ref(sb, d1, ins1, Indir(i));
      }
    }
  }

  ghost predicate Full(sb: Super, d: Disk)
    requires DiskOk(sb, d)
  {
    forall c | 0 <= c < sb.size :: Bit(sb, d, c)
  }

  /** What bmap promises: an existing block is returned and nothing changes; a new one is zero; 0 is returned only
      when no block is left; `bm` holds the bitmap blocks written, at most one for each block allocated. */
  ghost predicate Mapped(sb: Super, d: Disk, ins: seq<Inode>, owner: map<int, Place>, logged: set<int>,
                         d': Disk, ins': seq<Inode>, owner': map<int, Place>, logged': set<int>, i: nat, bn: nat,
                         addr: int, bm: set<int>)
    requires Refs(sb, d, ins, owner) && DiskOk(sb, d') && InodesOk(ins') && i < |ins| == |ins'| && bn < MAXFILE
  {
    var was := Lookup(sb, d, ins, i, bn);
    && Extends(sb, d, ins, owner, d', ins', i, bn) && addr == Lookup(sb, d', ins', i, bn)
    && Grows(sb, d, ins, owner, logged, d', ins', owner', logged', i)
    && (was != 0 ==> d' == d && ins' == ins && owner' == owner && logged' == logged && bm == {})
    && (addr != 0 ==>
          && addr in owner' && owner'[addr] == Spot(i, bn) && 0 < sb.nmeta <= addr < sb.size
          && (was == 0 ==> d'[addr] == Zeroes()))
    && (addr == 0 ==> Full(sb, d'))
    && |bm| <= NewBlocks(sb, d, ins, i, bn) && (ins'[i].addrs[NDIRECT] == 0 ==> |bm| <= 1)
    && logged' <= logged + bm + ({addr, ins'[i].addrs[NDIRECT]} - {0})
  }

  /** How many blocks bmap allocates at most. */
  ghost function NewBlocks(sb: Super, d: Disk, ins: seq<Inode>, i: nat, bn: nat): nat
    requires DiskOk(sb, d) && InodesOk(ins) && i < |ins| && bn < MAXFILE
  {
    (if Lookup(sb, d, ins, i, bn) == 0 then 1 else 0) + if bn >= NDIRECT && ins[i].addrs[NDIRECT] == 0 then 1 else 0
  }

  lemma ExtendsRefl(sb: Super, d: Disk, ins: seq<Inode>, owner: map<int, Place>, logged: set<int>, i: nat, bn: nat)
    requires Refs(sb, d, ins, owner) && i < |ins| && bn < MAXFILE
    ensures Extends(sb, d, ins, owner, d, ins, i, bn) && Grows(sb, d, ins, owner, logged, d, ins, owner, logged, i)
  {
  }

  lemma MetaSet(sb: Super, d: Disk, used: set<int>)
    requires DiskOk(sb, d) && Bits(sb, d, used)
    ensures Bit(sb, d, 0)
  {
  }

  lemma EntryBits(sb: Super, d: Disk, d': Disk, used: set<int>, a: int)
    requires DiskOk(sb, d) && DiskOk(sb, d') && Bits(sb, d, used) && sb.nmeta <= a < sb.size && d' == d[a := d'[a]]
    ensures Bits(sb, d', used)
  {
    BitsFrame(sb, d, d', used);
  }

  lemma SpotEntry(sb: Super, d: Disk, ins: seq<Inode>, i: nat, bn: nat)
    requires DiskOk(sb, d) && InodesOk(ins) && i < |ins| && NDIRECT <= bn < MAXFILE
    ensures Lookup(sb, d, ins, i, bn) == Ref(sb, d, ins, Entry(i, bn - NDIRECT))
  {
  }

  lemma NowFull(sb: Super, d: Disk)
    requires DiskOk(sb, d) && forall c | 0 <= c < sb.size :: Bit(sb, d, c)
    ensures Full(sb, d)
  {
  }

  lemma FillFacts(sb: Super, d: Disk, ins: seq<Inode>, owner: map<int, Place>, logged: set<int>, i: nat, bn: nat)
    requires Inv(sb, d, ins, owner) && i < |ins| && bn < MAXFILE
    ensures Refs(sb, d, ins, owner) && DiskOk(sb, d) && InodesOk(ins) && Bit(sb, d, 0)
    ensures Extends(sb, d, ins, owner, d, ins, i, bn) && Grows(sb, d, ins, owner, logged, d, ins, owner, logged, i)
    ensures bn >= NDIRECT && 0 < ins[i].addrs[NDIRECT] < sb.size ==>
      Ref(sb, d, ins, Entry(i, bn - NDIRECT)) == Word(d[ins[i].addrs[NDIRECT]], bn - NDIRECT)
  {
    MetaSet(sb, d, owner.Keys);
    ExtendsRefl(sb, d, ins, owner, logged, i, bn);
    hide Bits, Bit, Grows, Extends, Word;
  }

  /** A new block goes into an empty address of an inode. */
  lemma SlotFilled(sb: Super, d: Disk, ins: seq<Inode>, owner: map<int, Place>, logged: set<int>, i: nat, k: nat,
                   bn: nat, b: int)
    requires Inv(sb, d, ins, owner) && i < |ins| && k <= NDIRECT && bn < MAXFILE && ins[i].addrs[k] == 0
    requires (k == bn < NDIRECT || (k == NDIRECT <= bn)) && 0 < b < sb.size && !Bit(sb, d, b)
    ensures var d', ins' := Allocated(sb, d, b), ins[i := ins[i].(addrs := ins[i].addrs[k := b])];
      var owner' := owner[b := if k < NDIRECT then Direct(i, k) else Indir(i)];
      && Inv(sb, d', ins', owner') && Extends(sb, d, ins, owner, d', ins', i, bn) && d'[b] == Zeroes()
      && Grows(sb, d, ins, owner, logged, d', ins', owner', logged + {Bblock(sb, b), b}, i)
  {
    hide Solid, SizesOk, Allocated, Bit, Bits, Extends, Grows;
    var d' := Allocated(sb, d, b);
    var pl := if k < NDIRECT then Direct(i, k) else Indir(i);
    assert Ref(sb, d, ins, pl) == 0;
    AllocBlock(sb, d, ins, owner, owner.Keys, b);
    PutAddr(sb, d', ins, owner, pl, b);
    var ins' := ins[i := ins[i].(addrs := ins[i].addrs[k := b])];
    assert ins' == PutIns(ins, pl, b);
    Filled(sb, d, ins, owner, logged, d', ins', logged + {Bblock(sb, b), b}, pl, b, i, bn);
  }

  /** A new block goes into an empty entry of an indirect block. */
  lemma EntryFilled(sb: Super, d: Disk, ins: seq<Inode>, owner: map<int, Place>, logged: set<int>, i: nat, a: int,
                    k: nat, b: int)
    requires Inv(sb, d, ins, owner) && i < |ins| && k < NINDIRECT && a == ins[i].addrs[NDIRECT] && 0 < a < sb.size
    requires Word(d[a], k) == 0 && 0 < b < sb.size && !Bit(sb, d, b)
    ensures var d1, owner' := Allocated(sb, d, b), owner[b := Entry(i, k)];
      var d' := d1[a := SetWord(d1[a], k, b)];
      && Inv(sb, d', ins, owner') && Extends(sb, d, ins, owner, d', ins, i, k + NDIRECT) && d'[b] == Zeroes()
      && Grows(sb, d, ins, owner, logged, d', ins, owner', logged + {Bblock(sb, b), b, a}, i)
      && Ref(sb, d', ins, Entry(i, k)) == b
  {
    hide Solid, SizesOk, Allocated, Bit, Bits, Extends, Grows, SetWord, Word;
    assert Ref(sb, d, ins, Indir(i)) == a && Ref(sb, d, ins, Entry(i, k)) == 0;
    var d1 := Allocated(sb, d, b);
    AllocBlock(sb, d, ins, owner, owner.Keys, b);
    PutEntry(sb, d1, ins, owner, i, k, b);
    var d' := d1[a := SetWord(d1[a], k, b)];
    EntryBits(sb, d1, d', owner.Keys + {b}, a);
    Filled(sb, d, ins, owner, logged, d', ins, logged + {Bblock(sb, b), b, a}, Entry(i, k), b, i, k + NDIRECT);
  }

  lemma InvSizes(sb: Super, d: Disk, ins: seq<Inode>, owner: map<int, Place>)
    requires Inv(sb, d, ins, owner)
    ensures DiskOk(sb, d) && InodesOk(ins) && SizesOk(ins)
  {
  }

  lemma InvFacts(sb: Super, d: Disk, ins: seq<Inode>, owner: map<int, Place>, i: nat, bn: nat)
    requires Inv(sb, d, ins, owner) && i < |ins| && bn < MAXFILE
    ensures Refs(sb, d, ins, owner) && DiskOk(sb, d) && InodesOk(ins) && |ins[i].addrs| == NDIRECT + 1
    ensures var a := ins[i].addrs[NDIRECT];
      && (a != 0 ==> 0 < sb.nmeta <= a < sb.size && a in owner && owner[a] == Indir(i))
      && (bn >= NDIRECT ==> Lookup(sb, d, ins, i, bn) == if a == 0 then 0 else Word(d[a], bn - NDIRECT))
      && (bn < NDIRECT ==> Lookup(sb, d, ins, i, bn) == ins[i].addrs[bn])
    ensures var r := Lookup(sb, d, ins, i, bn); r != 0 ==>
      r in owner && owner[r] == Spot(i, bn) && 0 < sb.nmeta <= r < sb.size
  {
    assert Ref(sb, d, ins, Indir(i)) == ins[i].addrs[NDIRECT];
    assert PlaceOk(ins, Spot(i, bn));
  }

  /** balloc's arithmetic: bit `bi` of the bitmap block for `b` is the bit of block b + bi. */
  lemma InBlock(sb: Super, d: Disk, b: int, bi: int)
    requires DiskOk(sb, d) && 0 <= b && b % BPB == 0 && 0 <= bi < BPB && b + bi < sb.size
    ensures var bb := sb.bmapstart + b / BPB;
      && 0 <= bb < sb.size && 0 <= bi / 8 < BSIZE && bb == Bblock(sb, b + bi)
      && (Bit(sb, d, b + bi) <==> BitOf(d[bb][bi / 8], bi % 8) != 0)
      && Mark(sb, d, b + bi) == d[bb := d[bb][bi / 8 := OrBit(d[bb][bi / 8], bi % 8)]]
  {
    InMeta(sb, b + bi);
    assert Bblock(sb, b + bi) == sb.bmapstart + b / BPB && ByteIx(b + bi) == bi / 8 && BitIx(b + bi) == bi % 8;
    BitIs(d[Bblock(sb, b + bi)][bi / 8], bi % 8);
  }
}
