/** What itrunc takes away: the direct blocks one by one, then the entries of the indirect block, then that block. */
module FsTrunc {
  import opened Params
  import opened FsDisk
  import opened FsInode

  /** The places of file `i` given up after `k` direct blocks. */
  predicate Dropped(pl: Place, i: nat, k: nat) { pl.ino == i && pl.Direct? && pl.k < k }

  /** The places of file `i` given up after `k` entries of the indirect block. */
  predicate EntryBelow(pl: Place, i: nat, k: nat) { pl.ino == i && pl.Entry? && pl.k < k }

  /** The bitmap blocks of what those rounds give up, and of the whole file. */
  ghost function DirectBitmaps(sb: Super, owner: map<int, Place>, i: nat, k: nat): set<int> {
    set b | b in owner && Dropped(owner[b], i, k) :: Bblock(sb, b)
  }

  ghost function EntryBitmaps(sb: Super, owner: map<int, Place>, i: nat, k: nat): set<int> {
    set b | b in owner && EntryBelow(owner[b], i, k) :: Bblock(sb, b)
  }

  ghost function FileBitmaps(sb: Super, owner: map<int, Place>, i: nat): set<int> {
    set b | b in owner && owner[b].ino == i :: Bblock(sb, b)
  }

  /** itrunc's direct loop after `k` rounds, compared with the start. */
  ghost predicate Cutting(sb: Super, d0: Disk, ins0: seq<Inode>, owner0: map<int, Place>,
                          d: Disk, ins: seq<Inode>, owner: map<int, Place>, i: nat, k: nat) {
    && Refs(sb, d, ins, owner) && Bits(sb, d, owner.Keys) && DiskOk(sb, d0) && InodesOk(ins0) && i < |ins0| == |ins|
    && (forall c | sb.nmeta <= c < sb.size :: d[c] == d0[c])
    && (forall j | 0 <= j < |ins| && j != i :: ins[j] == ins0[j])
    && (forall m | 0 <= m <= NDIRECT :: ins[i].addrs[m] == if m < k then 0 else ins0[i].addrs[m])
    && (forall b :: b in owner <==> b in owner0 && !Dropped(owner0[b], i, k))
    && (forall b | b in owner :: owner[b] == owner0[b])
  }

  /** Clearing an address takes its block out of `owner`. */
  lemma ClearAddr(sb: Super, d: Disk, ins: seq<Inode>, owner: map<int, Place>, i: nat, k: nat)
    requires Refs(sb, d, ins, owner) && i < |ins| && k < NDIRECT && ins[i].addrs[k] != 0
    ensures Refs(sb, d, PutIns(ins, Direct(i, k), 0), owner - {ins[i].addrs[k]})
  {
    var b, ins', owner' := ins[i].addrs[k], PutIns(ins, Direct(i, k), 0), owner - {ins[i].addrs[k]};
    assert Ref(sb, d, ins, Direct(i, k)) == b;
    forall p | PlaceOk(ins, p) ensures Ref(sb, d, ins', p) == if p == Direct(i, k) then 0 else Ref(sb, d, ins, p) {
    }
    assert forall p :: PlaceOk(ins, p) <==> PlaceOk(ins', p);
  }

  lemma CutDirect(sb: Super, d0: Disk, ins0: seq<Inode>, owner0: map<int, Place>, d: Disk, ins: seq<Inode>,
                  owner: map<int, Place>, i: nat, k: nat)
    requires Cutting(sb, d0, ins0, owner0, d, ins, owner, i, k) && k < NDIRECT && ins[i].addrs[k] != 0
    ensures var b := ins[i].addrs[k];
      && sb.nmeta <= b < sb.size && Bit(sb, d, b)
      && Cutting(sb, d0, ins0, owner0, Unmark(sb, d, b), PutIns(ins, Direct(i, k), 0), owner - {b}, i, k + 1)
  {
    hide Unmark, Bit, Bits;
    var b := ins[i].addrs[k];
    assert Ref(sb, d, ins, Direct(i, k)) == b;
    FreeBlock(sb, d, ins, owner, owner.Keys, b);
    ClearAddr(sb, Unmark(sb, d, b), ins, owner, i, k);
    assert (owner - {b}).Keys == owner.Keys - {b};
    forall c | c in owner0 && c != b ensures Dropped(owner0[c], i, k + 1) <==> Dropped(owner0[c], i, k) {
      assert c in owner ==> Ref(sb, d, ins, owner[c]) == c;
    }
  }

  lemma SkipDirect(sb: Super, d0: Disk, ins0: seq<Inode>, owner0: map<int, Place>, d: Disk, ins: seq<Inode>,
                   owner: map<int, Place>, i: nat, k: nat)
    requires Cutting(sb, d0, ins0, owner0, d, ins, owner, i, k) && k < NDIRECT && ins[i].addrs[k] == 0
    ensures Cutting(sb, d0, ins0, owner0, d, ins, owner, i, k + 1)
  {
    forall c | c in owner0 ensures Dropped(owner0[c], i, k + 1) <==> Dropped(owner0[c], i, k) {
      assert c in owner ==> Ref(sb, d, ins, owner[c]) == c;
    }
  }

  lemma NoBitmaps(sb: Super, owner: map<int, Place>, i: nat)
    ensures DirectBitmaps(sb, owner, i, 0) == {} && EntryBitmaps(sb, owner, i, 0) == {}
  {
  }

  lemma DirectBitmap(sb: Super, d0: Disk, ins0: seq<Inode>, owner0: map<int, Place>, d: Disk, ins: seq<Inode>,
                     owner: map<int, Place>, i: nat, k: nat)
    requires Cutting(sb, d0, ins0, owner0, d, ins, owner, i, k) && k < NDIRECT
    ensures DirectBitmaps(sb, owner0, i, k + 1) ==
      DirectBitmaps(sb, owner0, i, k) + if ins[i].addrs[k] == 0 then {} else {Bblock(sb, ins[i].addrs[k])}
  {
    hide Bblock, Bits;
    var b := ins[i].addrs[k];
    assert Ref(sb, d, ins, Direct(i, k)) == b && PlaceOk(ins, Direct(i, k));
    forall c | c in owner0 ensures Dropped(owner0[c], i, k + 1) <==> Dropped(owner0[c], i, k) || (c == b != 0) {
      assert c in owner ==> Ref(sb, d, ins, owner[c]) == c;
    }
    assert b != 0 ==> b in owner && b in owner0;
  }

  /** The loop over the indirect block: references stay in place while the bits of `gone` are cleared. */
  ghost predicate Freeing(sb: Super, d1: Disk, ins: seq<Inode>, owner: map<int, Place>, d: Disk, gone: set<int>, i: nat,
                          k: nat) {
    && Refs(sb, d, ins, owner) && Bits(sb, d, owner.Keys - gone) && DiskOk(sb, d1) && i < |ins|
    && (forall c | sb.nmeta <= c < sb.size :: d[c] == d1[c])
    && (forall b :: b in gone <==> b in owner && EntryBelow(owner[b], i, k))
  }

  lemma FreeEntry(sb: Super, d1: Disk, ins: seq<Inode>, owner: map<int, Place>, d: Disk, gone: set<int>, i: nat, k: nat)
    requires Freeing(sb, d1, ins, owner, d, gone, i, k) && k < NINDIRECT && 0 < ins[i].addrs[NDIRECT] < sb.size
    ensures var b := Word(d[ins[i].addrs[NDIRECT]], k);
      && (b == 0 ==> Freeing(sb, d1, ins, owner, d, gone, i, k + 1))
      && (b != 0 ==>
            && sb.nmeta <= b < sb.size && Bit(sb, d, b)
            && Freeing(sb, d1, ins, owner, Unmark(sb, d, b), gone + {b}, i, k + 1))
  {
    var b := Word(d[ins[i].addrs[NDIRECT]], k);
    assert Ref(sb, d, ins, Entry(i, k)) == b;
    forall c | c in owner ensures EntryBelow(owner[c], i, k + 1) <==> EntryBelow(owner[c], i, k) || c == b {
      if owner[c] == Entry(i, k) { assert Ref(sb, d, ins, owner[c]) == c; }
    }
    if b != 0 {
      FreeBlock(sb, d, ins, owner, owner.Keys - gone, b);
      assert owner.Keys - gone - {b} == owner.Keys - (gone + {b});
    }
  }

  lemma EntryBitmap(sb: Super, d1: Disk, ins: seq<Inode>, owner: map<int, Place>, d: Disk, gone: set<int>, i: nat,
                    k: nat)
    requires Freeing(sb, d1, ins, owner, d, gone, i, k) && k < NINDIRECT && 0 < ins[i].addrs[NDIRECT] < sb.size
    ensures var b := Word(d[ins[i].addrs[NDIRECT]], k);
      EntryBitmaps(sb, owner, i, k + 1) == EntryBitmaps(sb, owner, i, k) + if b == 0 then {} else {Bblock(sb, b)}
  {
    hide Bblock, Bits;
    var b := Word(d[ins[i].addrs[NDIRECT]], k);
    assert Ref(sb, d, ins, Entry(i, k)) == b && PlaceOk(ins, Entry(i, k));
    forall c | c in owner ensures EntryBelow(owner[c], i, k + 1) <==> EntryBelow(owner[c], i, k) || (c == b != 0) {
      if owner[c] == Entry(i, k) { assert Ref(sb, d, ins, owner[c]) == c; }
    }
    assert b != 0 ==> b in owner;
  }

  /** Together that is the whole file. */
  lemma AllBitmaps(sb: Super, d0: Disk, ins0: seq<Inode>, owner0: map<int, Place>, d: Disk, ins: seq<Inode>,
                   owner: map<int, Place>, i: nat)
    requires Cutting(sb, d0, ins0, owner0, d, ins, owner, i, NDIRECT)
    ensures var a := ins[i].addrs[NDIRECT];
      FileBitmaps(sb, owner0, i) == DirectBitmaps(sb, owner0, i, NDIRECT)
        + if a == 0 then {} else EntryBitmaps(sb, owner, i, NINDIRECT) + {Bblock(sb, a)}
  {
    hide Bblock, Bits;
    var a := ins[i].addrs[NDIRECT];
    assert Ref(sb, d, ins, Indir(i)) == a && PlaceOk(ins, Indir(i));
    assert a != 0 ==> a in owner && owner[a] == Indir(i);
    forall b | b in owner && owner[b].ino == i ensures a != 0 && (b == a || EntryBelow(owner[b], i, NINDIRECT)) {
      assert PlaceOk(ins, owner[b]) && Ref(sb, d, ins, owner[b]) == b;
    }
  }

  /** The owner map without file `i`. */
  ghost function Others(owner: map<int, Place>, i: nat): map<int, Place> {
    map b | b in owner && owner[b].ino != i :: owner[b]
  }

  /** Freeing the indirect block and clearing its address ends the cut. */
  lemma CutIndirect(sb: Super, d1: Disk, ins: seq<Inode>, owner: map<int, Place>, d: Disk, gone: set<int>, i: nat)
    requires Freeing(sb, d1, ins, owner, d, gone, i, NINDIRECT) && 0 < ins[i].addrs[NDIRECT] < sb.size
    requires forall k | 0 <= k < NDIRECT :: ins[i].addrs[k] == 0
    ensures var a := ins[i].addrs[NDIRECT];
      && sb.nmeta <= a && Bit(sb, d, a)
      && Refs(sb, Unmark(sb, d, a), PutIns(ins, Indir(i), 0), Others(owner, i))
      && Bits(sb, Unmark(sb, d, a), Others(owner, i).Keys)
      && forall c | sb.nmeta <= c < sb.size :: Unmark(sb, d, a)[c] == d1[c]
  {
    hide Unmark, Bit, Bits;
    var a, ins', owner' := ins[i].addrs[NDIRECT], PutIns(ins, Indir(i), 0), Others(owner, i);
    assert Ref(sb, d, ins, Indir(i)) == a;
    FreeBlock(sb, d, ins, owner, owner.Keys - gone, a);
    var d' := Unmark(sb, d, a);
    forall c ensures c in owner' <==> c in owner.Keys - gone - {a} {
      if c in owner && owner[c].ino == i { assert Ref(sb, d, ins, owner[c]) == c && PlaceOk(ins, owner[c]); }
    }
    assert owner'.Keys == owner.Keys - gone - {a};
    assert forall p :: PlaceOk(ins, p) <==> PlaceOk(ins', p);
    forall p | PlaceOk(ins, p) ensures Ref(sb, d', ins', p) == if p.ino == i then 0 else Ref(sb, d', ins, p) {
    }
  }

  /** With no indirect block the direct blocks were all there was. */
  lemma NoIndirect(sb: Super, d: Disk, ins: seq<Inode>, owner: map<int, Place>, i: nat)
    requires Refs(sb, d, ins, owner) && i < |ins| && forall k | 0 <= k <= NDIRECT :: ins[i].addrs[k] == 0
    ensures Others(owner, i) == owner
  {
    forall c | c in owner ensures owner[c].ino != i {
      assert PlaceOk(ins, owner[c]) && Ref(sb, d, ins, owner[c]) == c;
    }
  }

  /** A file is gone and the others are as they were. */
  ghost predicate Truncated(sb: Super, d0: Disk, ins0: seq<Inode>, owner0: map<int, Place>, d: Disk, ins: seq<Inode>,
                            owner: map<int, Place>, i: nat) {
    && |ins| == |ins0| && i < |ins| && owner == Others(owner0, i)
    && DiskOk(sb, d0) && DiskOk(sb, d) && (forall c | sb.nmeta <= c < sb.size :: d[c] == d0[c])
    && (forall j | 0 <= j < |ins| && j != i :: ins[j] == ins0[j])
    && InodesOk(ins) && (forall k | 0 <= k <= NDIRECT :: ins[i].addrs[k] == 0) && ins[i].size == 0
  }

  lemma TruncInv(sb: Super, d0: Disk, ins0: seq<Inode>, owner0: map<int, Place>, d: Disk, ins: seq<Inode>,
                 owner: map<int, Place>, i: nat)
    requires Inv(sb, d0, ins0, owner0) && Truncated(sb, d0, ins0, owner0, d, ins, owner, i)
    requires Refs(sb, d, ins, owner) && Bits(sb, d, owner.Keys)
    ensures Inv(sb, d, ins, owner)
    ensures forall j, x | 0 <= j < |ins| && 0 <= x < MAXFILE * BSIZE && j != i ::
      ByteAt(sb, d, ins, j, x) == ByteAt(sb, d0, ins0, j, x)
  {
    forall p | PlaceOk(ins, p) && p.ino != i ensures Ref(sb, d, ins, p) == Ref(sb, d0, ins0, p) {
      assert Ref(sb, d0, ins0, Indir(p.ino)) == ins0[p.ino].addrs[NDIRECT];
    }
    forall j, m | 0 <= j < |ins| && 0 <= m < MAXFILE && m * BSIZE < ins[j].size ensures Lookup(sb, d, ins, j, m) != 0 {
      assert Lookup(sb, d0, ins0, j, m) != 0;
    }
    forall j, x | 0 <= j < |ins| && 0 <= x < MAXFILE * BSIZE && j != i
      ensures ByteAt(sb, d, ins, j, x) == ByteAt(sb, d0, ins0, j, x)
    {
      assert PlaceOk(ins, Spot(j, x / BSIZE)) && PlaceOk(ins0, Spot(j, x / BSIZE));
    }
  }

  lemma CutStart(sb: Super, d: Disk, ins: seq<Inode>, owner: map<int, Place>, i: nat)
    requires Inv(sb, d, ins, owner) && i < |ins|
    ensures Cutting(sb, d, ins, owner, d, ins, owner, i, 0)
  {
  }

  lemma CutFacts(sb: Super, d0: Disk, ins0: seq<Inode>, owner0: map<int, Place>, d: Disk, ins: seq<Inode>,
                 owner: map<int, Place>, i: nat, k: nat)
    requires Cutting(sb, d0, ins0, owner0, d, ins, owner, i, k) && k <= NDIRECT
    ensures Refs(sb, d, ins, owner) && Bits(sb, d, owner.Keys) && DiskOk(sb, d) && InodesOk(ins) && i < |ins| == |ins0|
    ensures forall m | 0 <= m < k :: ins[i].addrs[m] == 0
    ensures ins[i].addrs[NDIRECT] != 0 ==> 0 < ins[i].addrs[NDIRECT] < sb.size
  {
    assert Ref(sb, d, ins, Indir(i)) == ins[i].addrs[NDIRECT];
  }

  lemma FreeStart(sb: Super, d: Disk, ins: seq<Inode>, owner: map<int, Place>, i: nat)
    requires Refs(sb, d, ins, owner) && Bits(sb, d, owner.Keys) && i < |ins|
    ensures Freeing(sb, d, ins, owner, d, {}, i, 0) && InodesOk(ins)
  {
    assert owner.Keys - {} == owner.Keys;
  }

  lemma FreeFacts(sb: Super, d1: Disk, ins: seq<Inode>, owner: map<int, Place>, d: Disk, gone: set<int>, i: nat, k: nat)
    requires Freeing(sb, d1, ins, owner, d, gone, i, k)
    ensures DiskOk(sb, d) && InodesOk(ins)
  {
  }

  lemma OthersCut(owner0: map<int, Place>, owner1: map<int, Place>, i: nat, k: nat)
    requires forall b :: b in owner1 <==> b in owner0 && !Dropped(owner0[b], i, k)
    requires forall b | b in owner1 :: owner1[b] == owner0[b]
    ensures Others(owner1, i) == Others(owner0, i)
  {
    var o0, o1 := Others(owner0, i), Others(owner1, i);
    forall b ensures b in o0.Keys <==> b in o1.Keys {
      assert b in owner0 && owner0[b].ino != i ==> b in owner1;
    }
    forall b | b in o0 ensures b in o1 && o0[b] == o1[b] {
      assert b in o0.Keys && b in o1.Keys;
    }
    assert o0.Keys == o1.Keys;
  }

  /** Both halves together, with the size set to 0. */
  lemma CutEnd(sb: Super, d0: Disk, ins0: seq<Inode>, owner0: map<int, Place>, d1: Disk, ins1: seq<Inode>,
               owner1: map<int, Place>,
               d: Disk, ins: seq<Inode>, owner: map<int, Place>, i: nat)
    requires Cutting(sb, d0, ins0, owner0, d1, ins1, owner1, i, NDIRECT)
    requires |ins| == |ins1| && (ins == ins1 || ins == PutIns(ins1, Indir(i), 0)) && ins[i].addrs[NDIRECT] == 0
    requires Refs(sb, d, ins, owner) && Bits(sb, d, owner.Keys) && owner == Others(owner1, i)
    requires forall c | sb.nmeta <= c < sb.size :: d[c] == d1[c]
    ensures var ins2 := ins[i := ins[i].(size := 0)];
      && Truncated(sb, d0, ins0, owner0, d, ins2, owner, i) && Refs(sb, d, ins2, owner) && Bits(sb, d, owner.Keys)
  {
    var ins2 := ins[i := ins[i].(size := 0)];
    OthersCut(owner0, owner1, i, NDIRECT);
    assert forall p :: PlaceOk(ins, p) <==> PlaceOk(ins2, p);
    forall p | PlaceOk(ins, p) ensures Ref(sb, d, ins2, p) == Ref(sb, d, ins, p) {
    }
  }
}
