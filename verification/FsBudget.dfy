/** itrunc's transaction: when it keeps to the blocks one operation may log, file by file and layout by layout. */
module FsBudget {
  import opened Params
  import opened FsDisk
  import opened FsInode
  import opened FsJournal
  import opened FsContent
  import opened FsTrunc

  /** The bitmap blocks that have data blocks under them. */
  function DataBitmaps(sb: Super): int { (sb.size - 1) / BPB - sb.nmeta / BPB + 1 }

  lemma {:induction false} CountRange(s: set<int>, lo: int, n: nat)
    requires forall x | x in s :: lo <= x < lo + n
    ensures |s| <= n
  {
    if n == 0 {
      assert forall x :: x !in s;
    } else {
      var last := lo + n - 1;
      CountRange(s - {last}, lo, n - 1);
      assert |s| <= |s - {last}| + 1;
    }
  }

  /** A file's blocks are under no more bitmap blocks than the data blocks of the disk are. */
  lemma FewBitmaps(sb: Super, d: Disk, ins: seq<Inode>, owner: map<int, Place>, i: nat)
    requires Refs(sb, d, ins, owner)
    ensures |FileBitmaps(sb, owner, i)| <= DataBitmaps(sb)
    ensures forall x | x in FileBitmaps(sb, owner, i) :: sb.bmapstart <= x
  {
    var lo := sb.bmapstart + sb.nmeta / BPB;
    Quotients(sb.nmeta, sb.size);
    forall x | x in FileBitmaps(sb, owner, i) ensures lo <= x < lo + DataBitmaps(sb) && sb.bmapstart <= x {
      var b :| b in owner && owner[b].ino == i && Bblock(sb, b) == x;
      Quotients(sb.nmeta, b);
      Quotients(b, sb.size - 1);
    }
    CountRange(FileBitmaps(sb, owner, i), lo, DataBitmaps(sb));
  }

  lemma Quotients(a: int, b: int)
    requires 0 <= a <= b
    ensures 0 <= a / BPB <= b / BPB <= (b - 1) / BPB + 1
  {
  }

  /** What itrunc logs, in a transaction of its own: it keeps to its budget exactly when the file's blocks are under
      fewer than MAXOPBLOCKS bitmap blocks. */
  lemma TruncBudget(sb: Super, d: Disk, ins: seq<Inode>, owner: map<int, Place>, i: nat)
    requires Refs(sb, d, ins, owner) && Iblock(sb, i) < sb.bmapstart
    ensures |FileBitmaps(sb, owner, i) + {Iblock(sb, i)}| <= MAXOPBLOCKS <==> |FileBitmaps(sb, owner, i)| < MAXOPBLOCKS
    ensures DataBitmaps(sb) < MAXOPBLOCKS ==> |FileBitmaps(sb, owner, i)| < MAXOPBLOCKS
  {
    FewBitmaps(sb, d, ins, owner, i);
    assert |FileBitmaps(sb, owner, i) + {Iblock(sb, i)}| == |FileBitmaps(sb, owner, i)| + 1;
  }

  /** On every well-formed disk of this layout itrunc of every file keeps to its budget. */
  ghost predicate AlwaysFits(sb: Super) {
    forall d, ins, owner, i: nat | Inv(sb, d, ins, owner) && i < |ins| && Iblock(sb, i) < sb.bmapstart ::
      |FileBitmaps(sb, owner, i) + {Iblock(sb, i)}| <= MAXOPBLOCKS
  }

  /** It does exactly when the data blocks are under fewer than MAXOPBLOCKS bitmap blocks. */
  lemma LayoutBudget(sb: Super)
    requires SuperOk(sb) && sb.inodestart < sb.bmapstart
    ensures AlwaysFits(sb) <==> DataBitmaps(sb) < MAXOPBLOCKS
  {
    hide Refs, Bits, Solid, FileBitmaps;
    if DataBitmaps(sb) < MAXOPBLOCKS {
      forall d, ins, owner, i: nat | Inv(sb, d, ins, owner) && i < |ins| && Iblock(sb, i) < sb.bmapstart
        ensures |FileBitmaps(sb, owner, i) + {Iblock(sb, i)}| <= MAXOPBLOCKS
      {
        TruncBudget(sb, d, ins, owner, i);
      }
    } else {
      var s := WideFile(sb);
      TruncBudget(sb, s.d, s.ins, s.owner, 0);
    }
  }

  // ---- a file under ten bitmap blocks ----

  /** A data block under the k-th bitmap block that has any. */
  function Pick(sb: Super, k: nat): int { if k == 0 then sb.nmeta else (sb.nmeta / BPB + k) * BPB }

  lemma PickAt(sb: Super, k: nat)
    requires SuperOk(sb) && k < DataBitmaps(sb)
    ensures sb.nmeta <= Pick(sb, k) < sb.size || sb.nmeta == sb.size
    ensures Bblock(sb, Pick(sb, k)) == sb.bmapstart + sb.nmeta / BPB + k
  {
  }

  function Blank(b: int): (d: Block)
    ensures d == Zeroes()
  {
    Zeroes()
  }

  /** A disk on which the first n blocks are marked and all else is zero. */
  ghost function MetaDisk(sb: Super, n: nat): (d: Disk)
    requires SuperOk(sb) && n <= sb.size
    ensures DiskOk(sb, d)
  {
    if n == 0 then map b | 0 <= b < sb.size :: Blank(b) else Mark(sb, MetaDisk(sb, n - 1), n - 1)
  }

  lemma {:induction false} ZeroBit(k: nat)
    ensures BitOf(0, k) == 0
  {
    if k > 0 { ZeroBit(k - 1); }
  }

  lemma NoBits(sb: Super, c: int)
    requires SuperOk(sb) && 0 <= c < sb.size
    ensures !Bit(sb, MetaDisk(sb, 0), c)
  {
    InMeta(sb, c);
    ZeroBit(BitIx(c));
  }

  lemma {:induction false} MetaBits(sb: Super, n: nat, c: int)
    requires SuperOk(sb) && n <= sb.size && 0 <= c < sb.size
    ensures Bit(sb, MetaDisk(sb, n), c) <==> c < n
  {
    hide Bit, Mark;
    if n == 0 {
      NoBits(sb, c);
    } else {
      MetaBits(sb, n - 1, c);
      MarkBit(sb, MetaDisk(sb, n - 1), n - 1, c);
    }
  }

  function NoAddrs(): (a: seq<int>)
    ensures |a| == NDIRECT + 1 && forall k | 0 <= k <= NDIRECT :: a[k] == 0
  {
    seq(NDIRECT + 1, _ => 0)
  }

  /** One inode, whose first n direct blocks are there, each under its own bitmap block. */
  ghost predicate Wide(sb: Super, s: Snap, n: nat) {
    && Inv(sb, s.d, s.ins, s.owner) && |s.ins| == 1
    && (forall k | n <= k <= NDIRECT :: s.ins[0].addrs[k] == 0)
    && (forall k | 0 <= k < n :: Pick(sb, k) in s.owner && s.owner[Pick(sb, k)] == Direct(0, k))
    && (forall b | b in s.owner :: s.owner[b].Direct? && s.owner[b].k < n && b == Pick(sb, s.owner[b].k))
  }

  lemma WideNone(sb: Super) returns (s: Snap)
    requires SuperOk(sb)
    ensures Wide(sb, s, 0)
  {
    s := Snap(MetaDisk(sb, sb.nmeta), [Inode(NoAddrs(), 0)], map[], {});
    forall c | 0 <= c < sb.size ensures Bit(sb, s.d, c) <==> c < sb.nmeta { MetaBits(sb, sb.nmeta, c); }
    hide Bit, MetaDisk;
  }

  lemma {:induction false} WideUpTo(sb: Super, n: nat) returns (s: Snap)
    requires SuperOk(sb) && n <= DataBitmaps(sb) && n <= NDIRECT && sb.nmeta < sb.size
    ensures Wide(sb, s, n)
  {
    if n == 0 {
      s := WideNone(sb);
    } else {
      var t := WideUpTo(sb, n - 1);
      s := WideNext(sb, t, n - 1);
    }
  }

  lemma WideNext(sb: Super, t: Snap, k: nat) returns (s: Snap)
    requires Wide(sb, t, k) && k < DataBitmaps(sb) && k < NDIRECT && sb.nmeta < sb.size
    ensures Wide(sb, s, k + 1)
  {
    hide Refs, Solid, Bit;
    var b := Pick(sb, k);
    InvSizes(sb, t.d, t.ins, t.owner);
    PickAt(sb, k);
    assert b !in t.owner;
    assert !Bit(sb, t.d, b);
    SlotFilled(sb, t.d, t.ins, t.owner, {}, 0, k, k, b);
    s := Snap(Allocated(sb, t.d, b), t.ins[0 := t.ins[0].(addrs := t.ins[0].addrs[k := b])], t.owner[b := Direct(0, k)],
              {});
  }

  lemma WideReach(sb: Super, s: Snap)
    requires Wide(sb, s, MAXOPBLOCKS)
    ensures Reach(sb, s.d, s.ins, 0, MAXOPBLOCKS * BSIZE)
  {
    forall bn | 0 <= bn < MAXFILE && bn * BSIZE < MAXOPBLOCKS * BSIZE ensures Lookup(sb, s.d, s.ins, 0, bn) != 0 {
      assert s.owner[Pick(sb, bn)] == Direct(0, bn);
    }
  }

  lemma WideBitmaps(sb: Super, s: Snap)
    requires Wide(sb, s, MAXOPBLOCKS) && DataBitmaps(sb) >= MAXOPBLOCKS
    ensures |FileBitmaps(sb, s.owner, 0)| == MAXOPBLOCKS
  {
    hide Inv, Bblock;
    var lo := sb.bmapstart + sb.nmeta / BPB;
    var all := Interval(lo, MAXOPBLOCKS);
    InvSizes(sb, s.d, s.ins, s.owner);
    forall x ensures x in all <==> x in FileBitmaps(sb, s.owner, 0) {
      if x in all {
        PickAt(sb, x - lo);
        assert Pick(sb, x - lo) in s.owner;
      }
      if x in FileBitmaps(sb, s.owner, 0) {
        var b :| b in s.owner && s.owner[b].ino == 0 && Bblock(sb, b) == x;
        PickAt(sb, s.owner[b].k);
      }
    }
    assert all == FileBitmaps(sb, s.owner, 0);
  }

  ghost function Interval(lo: int, n: nat): (s: set<int>)
    ensures |s| == n && forall x :: x in s <==> lo <= x < lo + n
  {
    if n == 0 then {} else Interval(lo, n - 1) + {lo + n - 1}
  }

  /** On a disk with that many bitmap blocks a file of ten blocks can be under ten of them. */
  lemma WideFile(sb: Super) returns (s: Snap)
    requires SuperOk(sb) && DataBitmaps(sb) >= MAXOPBLOCKS
    ensures Inv(sb, s.d, s.ins, s.owner) && |s.ins| == 1 && s.ins[0].size == MAXOPBLOCKS * BSIZE
    ensures |FileBitmaps(sb, s.owner, 0)| == MAXOPBLOCKS
  {
    hide Refs, Bits, Solid;
    var t := WideUpTo(sb, MAXOPBLOCKS);
    WideBitmaps(sb, t);
    WideReach(sb, t);
    SizeOnly(sb, t.d, t.ins, t.owner, 0, MAXOPBLOCKS * BSIZE);
    s := t.(ins := Resized(t.ins, 0, MAXOPBLOCKS * BSIZE));
  }
}
