/** The write-ahead rule at the file level: what a call may change without logging, and what it may log. */
module FsJournal {
  import opened Params
  import opened FsDisk
  import opened FsInode

  const FILEMAX: int := MAXFILE * BSIZE

  /** The parts of the file system's state, for comparing two moments. */
  datatype Snap = Snap(d: Disk, ins: seq<Inode>, owner: map<int, Place>, logged: set<int>)

  /** The places of blocks lo to hi of file `i`, and of its indirect block. */
  predicate InBlocks(pl: Place, i: nat, lo: int, hi: int) {
    pl.ino == i && (pl.Direct? ==> lo <= pl.k <= hi) && (pl.Entry? ==> lo <= pl.k + NDIRECT <= hi)
  }

  /** From s0 to s1 only inode i changed, every changed block but `skip` is logged, newly logged are bitmap and file
      blocks, and of the blocks in use only those of file i from block lo to hi, and its indirect block. */
  ghost predicate Journal(sb: Super, s0: Snap, s1: Snap, i: nat, lo: int, hi: int, skip: int) {
    && DiskOk(sb, s0.d) && DiskOk(sb, s1.d) && |s0.ins| == |s1.ins| && s0.logged <= s1.logged
    && (forall b | b in s0.owner :: b in s1.owner && s1.owner[b] == s0.owner[b])
    && (forall j | 0 <= j < |s0.ins| && j != i :: s1.ins[j] == s0.ins[j])
    && (forall b | 0 <= b < sb.size && s1.d[b] != s0.d[b] && b != skip :: b in s1.logged)
    && (forall b | b in s1.logged && b !in s0.logged :: sb.bmapstart <= b < sb.size)
    && (forall b | b in s1.logged && b !in s0.logged && b in s0.owner :: InBlocks(s0.owner[b], i, lo, hi))
  }

  lemma JournalRefl(sb: Super, s: Snap, i: nat, lo: int, hi: int)
    requires DiskOk(sb, s.d)
    ensures Journal(sb, s, s, i, lo, hi, -1)
  {
  }

  lemma JournalTrans(sb: Super, s0: Snap, s1: Snap, s2: Snap, i: nat, lo: int, mid: int, lo2: int, hi: int, skip: int)
    requires Journal(sb, s0, s1, i, lo, mid, -1) && Journal(sb, s1, s2, i, lo2, hi, skip)
    requires (lo <= lo2 && mid <= hi) || lo2 > hi || (lo > mid && lo <= lo2)
    ensures Journal(sb, s0, s2, i, lo, if lo2 > hi then mid else hi, skip)
  {
    forall b | 0 <= b < sb.size && s2.d[b] != s0.d[b] && b != skip ensures b in s2.logged {
      assert s1.d[b] != s0.d[b] || s2.d[b] != s1.d[b];
    }
  }

  /** A fresh block in an address of inode i. */
  lemma SlotJournal(sb: Super, s: Snap, i: nat, k: nat, addr: int)
    requires Inv(sb, s.d, s.ins, s.owner) && i < |s.ins| && k <= NDIRECT && 0 < addr < sb.size && !Bit(sb, s.d, addr)
    ensures Journal(sb, s, Snap(Allocated(sb, s.d, addr), s.ins[i := s.ins[i].(addrs := s.ins[i].addrs[k := addr])],
                                s.owner[addr := if k < NDIRECT then Direct(i, k) else Indir(i)],
                                s.logged + {Bblock(sb, addr), addr}), i, 1, 0, -1)
  {
    hide Inv, Refs, Allocated, Bit, Bblock;
    InvFacts(sb, s.d, s.ins, s.owner, i, 0);
    FreshFacts(sb, s.d, s.ins, s.owner, addr);
  }

  /** What balloc touches. */
  lemma FreshFacts(sb: Super, d: Disk, ins: seq<Inode>, owner: map<int, Place>, addr: int)
    requires Inv(sb, d, ins, owner) && 0 < addr < sb.size && !Bit(sb, d, addr)
    ensures addr !in owner && Bblock(sb, addr) !in owner && sb.nmeta <= addr
    ensures sb.bmapstart <= Bblock(sb, addr) < sb.nmeta && sb.bmapstart <= addr
    ensures forall b | 0 <= b < sb.size && b != addr && b != Bblock(sb, addr) :: Allocated(sb, d, addr)[b] == d[b]
  {
    InMeta(sb, addr);
    assert addr / BPB >= 0;
  }

  /** A fresh block in an entry of the indirect block at a. */
  lemma EntryJournal(sb: Super, s: Snap, i: nat, a: int, k: nat, addr: int)
    requires Inv(sb, s.d, s.ins, s.owner) && i < |s.ins| && a == s.ins[i].addrs[NDIRECT] && 0 < a < sb.size
    requires k < NINDIRECT && 0 < addr < sb.size && !Bit(sb, s.d, addr)
    ensures var d1 := Allocated(sb, s.d, addr);
      Journal(sb, s, Snap(d1[a := SetWord(d1[a], k, addr)], s.ins, s.owner[addr := Entry(i, k)],
                          s.logged + {Bblock(sb, addr), addr, a}), i, 1, 0, -1)
  {
    hide Inv, Refs, Allocated, Bit, Bblock, SetWord;
    InvFacts(sb, s.d, s.ins, s.owner, i, 0);
    FreshFacts(sb, s.d, s.ins, s.owner, addr);
  }

  /** bmap above the direct blocks, from s0 over s1, where the indirect block at `a` is there, to s2. */
  lemma EntryMapped(sb: Super, s0: Snap, s1: Snap, s2: Snap, i: nat, bn: nat, a: int, addr: int, bm1: set<int>,
                    bm: set<int>)
    requires Inv(sb, s0.d, s0.ins, s0.owner) && Inv(sb, s1.d, s1.ins, s1.owner) && Inv(sb, s2.d, s2.ins, s2.owner)
    requires i < |s0.ins| == |s1.ins| == |s2.ins| && NDIRECT <= bn < MAXFILE
    requires InodesOk(s1.ins) && InodesOk(s2.ins) && a == s1.ins[i].addrs[NDIRECT] == s2.ins[i].addrs[NDIRECT] != 0
    requires InodesOk(s0.ins) && 0 < a < sb.size && a in s1.d && Refs(sb, s0.d, s0.ins, s0.owner)
    requires DiskOk(sb, s1.d) && DiskOk(sb, s2.d)
    requires if s0.ins[i].addrs[NDIRECT] != 0 then s1 == s0 && bm1 == {}
             else s1.d[a] == Zeroes() && bm1 == {Bblock(sb, a)} && s1.logged == s0.logged + {Bblock(sb, a), a}
    requires addr == Lookup(sb, s2.d, s2.ins, i, bn)
    requires Lookup(sb, s1.d, s1.ins, i, bn) != 0 ==> s2 == s1 && bm == bm1
    requires Lookup(sb, s1.d, s1.ins, i, bn) == 0 && addr == 0 ==> s2 == s1 && bm == bm1 && Full(sb, s2.d)
    requires Lookup(sb, s1.d, s1.ins, i, bn) == 0 && addr != 0 ==>
      && 0 < addr < sb.size && s2.d[addr] == Zeroes() && bm == bm1 + {Bblock(sb, addr)}
      && s2.logged == s1.logged + {Bblock(sb, addr), addr, a}
    requires Extends(sb, s0.d, s0.ins, s0.owner, s2.d, s2.ins, i, bn)
    requires Grows(sb, s0.d, s0.ins, s0.owner, s0.logged, s2.d, s2.ins, s2.owner, s2.logged, i)
    ensures Mapped(sb, s0.d, s0.ins, s0.owner, s0.logged, s2.d, s2.ins, s2.owner, s2.logged, i, bn, addr, bm)
  {
    hide Inv, Refs, Extends, Grows, Full, Lookup, Ref, Bblock, Word, Zeroes;
    InvFacts(sb, s0.d, s0.ins, s0.owner, i, bn);
    InvFacts(sb, s1.d, s1.ins, s1.owner, i, bn);
    InvFacts(sb, s2.d, s2.ins, s2.owner, i, bn);
    ZeroWord(bn - NDIRECT);
  }

  /** It ends without an indirect block. */
  lemma NoneMapped(sb: Super, s: Snap, i: nat, bn: nat)
    requires Inv(sb, s.d, s.ins, s.owner) && i < |s.ins| && NDIRECT <= bn < MAXFILE && Refs(sb, s.d, s.ins, s.owner)
    requires s.ins[i].addrs[NDIRECT] == 0 && Full(sb, s.d)
    ensures Mapped(sb, s.d, s.ins, s.owner, s.logged, s.d, s.ins, s.owner, s.logged, i, bn, 0, {})
  {
    hide Inv, Refs, Extends, Grows, Full, Lookup;
    InvFacts(sb, s.d, s.ins, s.owner, i, bn);
    ExtendsRefl(sb, s.d, s.ins, s.owner, s.logged, i, bn);
  }

  /** Bytes stored in a block of file i: logged, or the one block that is not. */
  lemma PokeJournal(sb: Super, s0: Snap, s1: Snap, i: nat, bn: nat, a: int, data: Block)
    requires Journal(sb, s0, s1, i, 1, 0, -1) && Inv(sb, s1.d, s1.ins, s1.owner) && i < |s1.ins| && bn < MAXFILE
    requires a == Lookup(sb, s1.d, s1.ins, i, bn) != 0 && |data| == BSIZE
    ensures a in s1.owner && Journal(sb, s0, s1.(d := s1.d[a := data]), i, 1, 0, a)
    ensures Journal(sb, s0, s1.(d := s1.d[a := data], logged := s1.logged + {a}), i, bn, bn, -1)
  {
    hide Bits, Solid, SizesOk;
    InvFacts(sb, s1.d, s1.ins, s1.owner, i, bn);
    InMeta(sb, 0);
    assert sb.bmapstart < sb.nmeta by { assert (sb.size - 1) / BPB >= 0; }
  }

  // ---- a whole writei ----

  /** The block that holds inode `i`. */
  function Iblock(sb: Super, i: nat): int { i / IPB + sb.inodestart }

  /** The last block of a write whose first `tot` bytes are stored and logged. */
  function LastBlock(off: nat, tot: nat): int { if tot == 0 then -1 else (off + tot - 1) / BSIZE }

  /** The write stopped at byte off + r although its block is there: the source ended inside that block. */
  ghost predicate Faulted(sb: Super, d: Disk, ins: seq<Inode>, i: nat, off: nat, n: nat, r: nat)
    requires DiskOk(sb, d) && InodesOk(ins) && i < |ins|
  {
    r < n && off + r < FILEMAX && Lookup(sb, d, ins, i, (off + r) / BSIZE) != 0
  }

  /** The one block that such a write may leave changed and unlogged. */
  ghost function Skip(sb: Super, s: Snap, i: nat, off: nat, n: nat, r: nat): int
    requires DiskOk(sb, s.d) && InodesOk(s.ins) && i < |s.ins|
  {
    if Faulted(sb, s.d, s.ins, i, off, n, r) then Lookup(sb, s.d, s.ins, i, (off + r) / BSIZE) else -1
  }

  /** What a writei that counted r bytes has logged: every block it changed, but for the block in which the source
      ended; that one is logged exactly when it was missing before the call or logged already. */
  ghost predicate Logs(sb: Super, s0: Snap, s2: Snap, i: nat, off: nat, n: nat, r: nat)
    requires DiskOk(sb, s0.d) && InodesOk(s0.ins) && DiskOk(sb, s2.d) && InodesOk(s2.ins) && i < |s0.ins| == |s2.ins|
  {
    && (forall j | 0 <= j < |s0.ins| && j != i :: s2.ins[j] == s0.ins[j])
    && (forall b | 0 <= b < sb.size && s2.d[b] != s0.d[b] && b !in s2.logged :: b == Skip(sb, s2, i, off, n, r))
    && (forall b | b in s2.logged && b !in s0.logged :: b == Iblock(sb, i) || sb.bmapstart <= b < sb.size)
    && (Faulted(sb, s2.d, s2.ins, i, off, n, r) && Iblock(sb, i) < sb.nmeta ==>
          var b := Lookup(sb, s2.d, s2.ins, i, (off + r) / BSIZE);
          b in s2.logged <==> Lookup(sb, s0.d, s0.ins, i, (off + r) / BSIZE) == 0 || b in s0.logged)
  }
}
