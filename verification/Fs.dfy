/** The inode layer's operations: balloc, bfree, bmap, itrunc, readi, writei, and filewrite's chunks. */
module Fs {
  import opened Params
  import opened FsDisk
  import opened FsInode
  import opened FsJournal
  import opened FsContent
  import opened FsTrunc
  import opened FsChunk

  /** balloc in the bytes of the disk: bit `r` of the bitmap was 0 and is 1, block r is zero, nothing else changed. */
  ghost predicate TakesBit(sb: Super, d: Disk, d': Disk, r: int) {
    var bb, y, w := sb.bmapstart + r / 8192, r % 8192 / 8, [1, 2, 4, 8, 16, 32, 64, 128][r % 8192 % 8];
    && bb in d && y < |d[bb]| && d[bb][y] / w % 2 == 0 && d' == d[bb := d[bb][y := d[bb][y] + w]][r := Zeroes()]
  }

  lemma TakenBit(sb: Super, d: Disk, r: int)
    requires DiskOk(sb, d) && 0 <= r < sb.size
    ensures !Bit(sb, d, r) ==> TakesBit(sb, d, Allocated(sb, d, r), r)
    ensures Allocated(sb, d, r) == Mark(sb, d, r)[r := Zeroes()]
  {
    hide Bit, Mark;
    MarkBytes(sb, d, r);
  }

  /** bfree in the bytes of the disk: it panics exactly on a 0 bit, and else that bit becomes 0 and nothing else. */
  ghost predicate GivesBit(sb: Super, d: Disk, d': Disk, b: int, ok: bool) {
    var bb, y, w := sb.bmapstart + b / 8192, b % 8192 / 8, [1, 2, 4, 8, 16, 32, 64, 128][b % 8192 % 8];
    && bb in d && y < |d[bb]| && (ok <==> d[bb][y] / w % 2 == 1)
    && (ok ==> d' == d[bb := d[bb][y := d[bb][y] - w]])
  }

  /** Above the direct blocks: the four bytes of the entry for block `bn`, lowest first, are the block's number. */
  ghost predicate EntryHolds(d: Disk, ino: Inode, bn: nat, addr: int) {
    && |ino.addrs| == 13
    && var a, k := ino.addrs[12], 4 * (bn - 12);
       if a == 0 then addr == 0
       else
         && a in d && 0 <= k && k + 3 < |d[a]|
         && addr == d[a][k] + 256 * d[a][k + 1] + 65536 * d[a][k + 2] + 16777216 * d[a][k + 3]
  }

  lemma EntryIs(sb: Super, d: Disk, ins: seq<Inode>, owner: map<int, Place>, i: nat, bn: nat)
    requires Inv(sb, d, ins, owner) && i < |ins| && 12 <= bn < MAXFILE && DiskOk(sb, d) && InodesOk(ins)
    ensures EntryHolds(d, ins[i], bn, Lookup(sb, d, ins, i, bn))
  {
    hide Inv, Lookup;
    InvFacts(sb, d, ins, owner, i, bn);
  }

  /** How one block of a write ended: no block, a bad source address, or stored and logged. */
  datatype Put = NoBlock | Fault | Stored

  class FileSystem {
    const sb: Super
    var disk: Disk
    var inodes: seq<Inode>
    ghost var owner: map<int, Place>
    ghost var logged: set<int>      // the blocks the running call has passed to log_write

    ghost predicate Valid()
      reads this
    {
      Inv(sb, disk, inodes, owner)
    }

    ghost function Now(): Snap
      reads this
    {
      Snap(disk, inodes, owner, logged)
    }

    /** balloc: the lowest free block, marked and zeroed; 0 when the disk is full. */
    method Balloc() returns (r: int)
      requires DiskOk(sb, disk) && Bit(sb, disk, 0)
      modifies this`disk, this`logged
      ensures DiskOk(sb, disk)
      ensures r == 0 ==> disk == old(disk) && logged == old(logged) && forall c | 0 <= c < sb.size :: Bit(sb, disk, c)
      ensures r != 0 ==>
        && 0 < r < sb.size && !Bit(sb, old(disk), r) && (forall c | 0 <= c < r :: Bit(sb, old(disk), c))
        && disk == Allocated(sb, old(disk), r) && logged == old(logged) + {Bblock(sb, r), r}
      ensures r != 0 ==> TakesBit(sb, old(disk), disk, r)
    {
      hide TakesBit, Allocated, Bit, Mark, Bblock, BitOf, OrBit, Zeroes;
      var b := 0;
      while b < sb.size
        invariant 0 <= b && b % BPB == 0 && disk == old(disk) && logged == old(logged)
        invariant forall c | 0 <= c < b && c < sb.size :: Bit(sb, disk, c)
        decreases sb.size - b
      {
        var bi := 0;
        while bi < BPB && b + bi < sb.size
          invariant 0 <= bi <= BPB && disk == old(disk) && logged == old(logged)
          invariant forall c | 0 <= c < b + bi && c < sb.size :: Bit(sb, disk, c)
        {
          InBlock(sb, disk, b, bi);
          var bb := sb.bmapstart + b / BPB;
          if BitOf(disk[bb][bi / 8], bi % 8) == 0 {
            r := b + bi;
            TakenBit(sb, disk, r);
            disk := disk[bb := disk[bb][bi / 8 := OrBit(disk[bb][bi / 8], bi % 8)]];
            logged := logged + {bb};
            disk := disk[r := Zeroes()];
            logged := logged + {r};
            return;
          }
          bi := bi + 1;
        }
        b := b + BPB;
      }
      return 0;
    }

    /** bfree; panics on a block that is already free. */
    method Bfree(b: int) returns (ok: bool)
      requires DiskOk(sb, disk) && 0 <= b < sb.size
      modifies this`disk, this`logged
      ensures DiskOk(sb, disk)
      ensures ok == Bit(sb, old(disk), b)
      ensures ok ==> disk == Unmark(sb, old(disk), b) && logged == old(logged) + {Bblock(sb, b)}
      ensures GivesBit(sb, old(disk), disk, b, ok)
      ensures !ok ==> disk == old(disk) && logged == old(logged)
    {
      InMeta(sb, b);
      MarkBytes(sb, disk, b);
      var bi := b % BPB;
      var byte := disk[Bblock(sb, b)][bi / 8];
      BitIs(byte, bi % 8);
      if BitOf(byte, bi % 8) == 0 { return false; }
      disk := disk[Bblock(sb, b) := disk[Bblock(sb, b)][bi / 8 := AndNotBit(byte, bi % 8)]];
      logged := logged + {Bblock(sb, b)};
      return true;
    }

    /** Allocate a block for an empty slot of inode `i`'s address table. */
    method FillSlot(i: nat, k: nat, ghost bn: nat) returns (addr: int)
      requires Valid() && i < |inodes| && k <= NDIRECT && bn < MAXFILE && inodes[i].addrs[k] == 0
      requires k == bn < NDIRECT || (k == NDIRECT <= bn)
      modifies this
      ensures Valid() && |inodes| == |old(inodes)| && inodes[i].addrs[k] == addr
      ensures Extends(sb, old(disk), old(inodes), old(owner), disk, inodes, i, bn)
      ensures Grows(sb, old(disk), old(inodes), old(owner), old(logged), disk, inodes, owner, logged, i)
      ensures addr == 0 ==>
        disk == old(disk) && inodes == old(inodes) && owner == old(owner) && logged == old(logged) && Full(sb, disk)
      ensures addr != 0 ==>
        0 < addr < sb.size && disk[addr] == Zeroes() && logged == old(logged) + {Bblock(sb, addr), addr}
      ensures Journal(sb, old(Now()), Now(), i, 1, 0, -1)
    {
      hide Inv, Refs, Allocated, Bit, Extends, Grows, Full, Journal;
      FillFacts(sb, disk, inodes, owner, logged, i, bn);
      JournalRefl(sb, Now(), i, 1, 0);
      addr := Balloc();
      if addr == 0 {
        NowFull(sb, disk);
        return;
      }
      SlotFilled(sb, old(disk), inodes, owner, old(logged), i, k, bn, addr);
      SlotJournal(sb, old(Now()), i, k, addr);
      inodes := inodes[i := inodes[i].(addrs := inodes[i].addrs[k := addr])];
      owner := owner[addr := if k < NDIRECT then Direct(i, k) else Indir(i)];
    }

    /** Allocate a block for an empty entry of the indirect block at `a`. */
    method FillEntry(i: nat, a: int, k: nat) returns (addr: int)
      requires Valid() && i < |inodes| && k < NINDIRECT && a == inodes[i].addrs[NDIRECT] && 0 < a < sb.size
      requires Word(disk[a], k) == 0
      modifies this
      ensures Valid() && inodes == old(inodes) && Ref(sb, disk, inodes, Entry(i, k)) == addr
      ensures Extends(sb, old(disk), old(inodes), old(owner), disk, inodes, i, k + NDIRECT)
      ensures Grows(sb, old(disk), old(inodes), old(owner), old(logged), disk, inodes, owner, logged, i)
      ensures addr == 0 ==> disk == old(disk) && owner == old(owner) && logged == old(logged) && Full(sb, disk)
      ensures addr != 0 ==>
        0 < addr < sb.size && disk[addr] == Zeroes() && logged == old(logged) + {Bblock(sb, addr), addr, a}
      ensures Journal(sb, old(Now()), Now(), i, 1, 0, -1)
      ensures addr != 0 ==>
        && a in disk && |disk[a]| == BSIZE && disk[a][4 * k] == addr % 256 && disk[a][4 * k + 1] == addr / 256 % 256
        && disk[a][4 * k + 2] == addr / 65536 % 256 && disk[a][4 * k + 3] == addr / 16777216
    {
      hide Inv, Refs, Allocated, Bit, Extends, Grows, Full, Word, SetWord, Journal;
      FillFacts(sb, disk, inodes, owner, logged, i, k + NDIRECT);
      JournalRefl(sb, Now(), i, 1, 0);
      addr := Balloc();
      if addr == 0 {
        NowFull(sb, disk);
        return;
      }
      EntryFilled(sb, old(disk), inodes, owner, old(logged), i, a, k, addr);
      EntryJournal(sb, old(Now()), i, a, k, addr);
      EntryBytes(disk[a], k, addr);
      disk := disk[a := SetWord(disk[a], k, addr)];
      logged := logged + {a};
      assert logged == old(logged) + {Bblock(sb, addr), addr, a};
      owner := owner[addr := Entry(i, k)];
    }

    /** bmap above the direct blocks: the indirect block and its entry, each allocated when missing. */
    method BmapIndirect(i: nat, bn: nat) returns (addr: int, ghost bm: set<int>)
      requires Valid() && i < |inodes| && NDIRECT <= bn < MAXFILE
      modifies this
      ensures Valid() && |inodes| == |old(inodes)|
      ensures Mapped(sb, old(disk), old(inodes), old(owner), old(logged), disk, inodes, owner, logged, i, bn, addr, bm)
      ensures Journal(sb, old(Now()), Now(), i, 1, 0, -1)
      ensures EntryHolds(disk, inodes[i], bn, addr)
    {
      hide Inv, Refs, Extends, Grows, Full, Lookup, Ref, Bblock, Journal, Mapped, Zeroes, EntryHolds;
      bm := {};
      InvFacts(sb, disk, inodes, owner, i, bn);
      JournalRefl(sb, Now(), i, 1, 0);
      ExtendsRefl(sb, disk, inodes, owner, logged, i, bn);
      var a := inodes[i].addrs[NDIRECT];
      if a == 0 {
        a := FillSlot(i, NDIRECT, bn);
        if a == 0 {
          InvFacts(sb, disk, inodes, owner, i, bn);
          EntryIs(sb, disk, inodes, owner, i, bn);
          NoneMapped(sb, Now(), i, bn);
          return 0, bm;
        }
        bm := {Bblock(sb, a)};
      }
      ghost var s1, bm1 := Now(), bm;
      InvFacts(sb, disk, inodes, owner, i, bn);
      addr := Word(disk[a], bn - NDIRECT);
      if addr == 0 {
        addr := FillEntry(i, a, bn - NDIRECT);
        if addr != 0 { bm := bm + {Bblock(sb, addr)}; }
        InvSizes(sb, disk, inodes, owner);
        SpotEntry(sb, disk, inodes, i, bn);
        JournalTrans(sb, old(Now()), s1, Now(), i, 1, 0, 1, 0, -1);
        ExtendsTrans(sb, old(disk), old(inodes), old(owner), old(logged), s1.d, s1.ins, s1.owner, s1.logged, disk,
                     inodes, owner, logged, i, bn);
      }
      EntryMapped(sb, old(Now()), s1, Now(), i, bn, a, addr, bm1, bm);
      EntryIs(sb, disk, inodes, owner, i, bn);
    }

    /** bmap: the block that holds block `bn` of the file, allocated when missing. */
    method Bmap(i: nat, bn: nat) returns (addr: int, ghost bm: set<int>)
      requires Valid() && i < |inodes| && bn < MAXFILE
      modifies this
      ensures Valid() && |inodes| == |old(inodes)|
      ensures Mapped(sb, old(disk), old(inodes), old(owner), old(logged), disk, inodes, owner, logged, i, bn, addr, bm)
      ensures Journal(sb, old(Now()), Now(), i, 1, 0, -1)
      ensures if bn < 12 then inodes[i].addrs[bn] == addr else EntryHolds(disk, inodes[i], bn, addr)
    {
      hide Inv, Refs, Extends, Grows, Full, Lookup, Ref, Word, Bblock, Zeroes, Journal, EntryHolds;
      if bn >= NDIRECT {
        addr, bm := BmapIndirect(i, bn);
        return;
      }
      bm := {};
      InvFacts(sb, disk, inodes, owner, i, bn);
      ExtendsRefl(sb, disk, inodes, owner, logged, i, bn);
      JournalRefl(sb, Now(), i, 1, 0);
      addr := inodes[i].addrs[bn];
      if addr == 0 {
        addr := FillSlot(i, bn, bn);
        if addr != 0 { bm := {Bblock(sb, addr)}; }
        InvFacts(sb, disk, inodes, owner, i, bn);
      }
    }

    /** One round of writei's loop: `bytes` are the source bytes that could be read, out of `m`. */
    method WriteBlock(i: nat, bn: nat, o: nat, m: nat, bytes: seq<int>)
      returns (st: Put, ghost addr: int, ghost bm: set<int>)
      requires Valid() && i < |inodes| && bn < MAXFILE && o + m <= BSIZE && |bytes| <= m
      modifies this
      ensures Valid() && |inodes| == |old(inodes)|
      ensures Round(sb, old(Now()), Now(), i, bn, o, addr, bm, if st.NoBlock? then [] else bytes)
      ensures st.NoBlock? <==> addr == 0
      ensures st.NoBlock? ==> Full(sb, disk)
      ensures st.Fault? ==> |bytes| < m && (old(Lookup(sb, disk, inodes, i, bn)) != 0 ==> logged == old(logged))
      ensures st.Stored? ==> |bytes| == m && addr in logged
      ensures match st
        case NoBlock => Journal(sb, old(Now()), Now(), i, 1, 0, -1)
        case Fault => Journal(sb, old(Now()), Now(), i, 1, 0, addr)
        case Stored => Journal(sb, old(Now()), Now(), i, bn, bn, -1)
    {
      hide Inv, Round, Mapped, Journal, EntryHolds;
      InvFacts(sb, disk, inodes, owner, i, bn);
      var a;
      a, bm := Bmap(i, bn);
      addr := a;
      ghost var s1 := Now();
      MapRound(sb, old(Now()), s1, i, bn, o, a, bm);
      if a == 0 { return NoBlock, addr, bm; }
      PokeJournal(sb, old(Now()), s1, i, bn, a, Overlay(disk[a], o, bytes));
      disk := disk[a := Overlay(disk[a], o, bytes)];
      PokeRound(sb, old(Now()), s1, i, bn, o, a, bm, bytes);
      if |bytes| < m { return Fault, addr, bm; }
      logged := logged + {a};
      return Stored, addr, bm;
    }

    /** writei's loop over the blocks: `w` bytes stored, `t` blocks tried. */
    method WriteBlocks(i: nat, src: seq<int>, off: nat, n: nat)
      returns (tot: nat, ghost w: nat, ghost reached: nat, ghost t: nat, ghost data: set<int>, ghost bms: set<int>)
      requires Valid() && i < |inodes| && off <= inodes[i].size && off + n <= FILEMAX
      modifies this
      ensures Valid() && |inodes| == |old(inodes)| && (t == 0 ==> n == 0) && (tot == n ==> w == n)
      ensures Writing(sb, old(Now()), Now(), i, src, off, n, tot, w, reached, t, data, bms)
      ensures tot < n ==>
        && Ended(sb, disk, inodes, i, src, off, n, tot, w)
        && (CutShort(sb, old(Now()), i, off, n, tot, w) ==> logged == old(logged))
      ensures Edge(off, n, tot)
      ensures Journal(sb, old(Now()), Now(), i, off / BSIZE, LastBlock(off, tot), Skip(sb, Now(), i, off, n, tot))
    {
      hide Inv, Writing, Round, Full, Stuck, Lookup, Piece, Edge, Ended, CutShort, Journal, Skip, LastBlock;
      InvSizes(sb, disk, inodes, owner);
      JournalStart(sb, Now(), i, off);
      t, data, bms, reached := 0, {}, {}, 0;
      tot, w := 0, 0;
      WriteInit(sb, Now(), i, src, off, n);
      while tot < n
        invariant tot == w == reached <= n && tot <= |src| && Valid() && |inodes| == |old(inodes)|
        invariant t == 0 ==> tot == 0
        invariant Writing(sb, old(Now()), Now(), i, src, off, n, tot, tot, tot, t, data, bms)
        invariant Edge(off, n, tot) && (tot == 0 ==> Now() == old(Now()))
        invariant Journal(sb, old(Now()), Now(), i, off / BSIZE, LastBlock(off, tot), -1)
      {
        var bn, o := (off + tot) / BSIZE, (off + tot) % BSIZE;
        var m := if n - tot < BSIZE - o then n - tot else BSIZE - o;
        var bytes := src[tot..if tot + m < |src| then tot + m else |src|];
        EdgeNext(off, n, tot);
        PieceIs(off, n, tot, m);
        ghost var s1 := Now();
        var st;
        ghost var a, bm;
        st, a, bm := WriteBlock(i, bn, o, m, bytes);
        ghost var stored := if st.NoBlock? then [] else bytes;
        WriteRound(sb, old(Now()), s1, Now(), i, src, off, n, tot, bn, o, m, t, data, bms, a, bm, stored);
        t, data, bms, w, reached := t + 1, data + {a}, bms + bm, w + |stored|, tot + m;
        JournalRound(sb, old(Now()), s1, Now(), i, off, n, tot, m, bn, a, bm, stored, st == Stored);
        if !st.Stored? {
          RoundEnds(sb, old(Now()), s1, Now(), i, src, off, n, tot, a, bm, stored);
          return;
        }
        tot := tot + m;
      }
      JournalAll(sb, Now(), i, off, n);
    }

    /** writei: `src` are the source bytes that can be read. */
    method Writei(i: nat, src: seq<int>, off: nat, n: nat) returns (r: int, ghost w: nat)
      requires Valid() && i < |inodes| && off < WORD32 && n < WORD32
      modifies this
      ensures Valid() && |inodes| == |old(inodes)|
      ensures r == -1 <==> off > old(inodes)[i].size || off + n > FILEMAX
      ensures r == -1 ==> Now() == old(Now())
      ensures r != -1 ==> r >= 0 && Wrote(sb, old(Now()), Now(), i, src, off, n, r, w)
    {
      hide Inv, Writing, Wrote, Ended, CutShort, Journal, Skip, LastBlock, Edge;
      InvSizes(sb, disk, inodes, owner);
      if off > inodes[i].size || (off + n) % WORD32 < off { return -1, 0; }
      if (off + n) % WORD32 > FILEMAX { return -1, 0; }
      var tot;
      ghost var reached, t, data, bms;
      tot, w, reached, t, data, bms := WriteBlocks(i, src, off, n);
      WriteEnd(sb, old(Now()), Now(), i, src, off, n, tot, w, reached, t, data, bms);
      if off + tot > inodes[i].size {
        inodes := inodes[i := inodes[i].(size := off + tot)];
      } else {
        assert Resized(inodes, i, inodes[i].size) == inodes;
      }
      logged := logged + {Iblock(sb, i)};
      return tot, w;
    }

    /** readi: at most `room` bytes can be stored at the destination. */
    method Readi(i: nat, off: nat, n: nat, room: nat) returns (r: int, out: seq<int>)
      requires Valid() && i < |inodes| && off < WORD32 && n < WORD32
      modifies this
      ensures Now() == old(Now())
      ensures off > inodes[i].size || off + n >= WORD32 ==> r == 0 && out == []
      ensures off <= inodes[i].size && off + n < WORD32 ==>
        var file := Content(sb, disk, inodes, i);
        var k := if off + n > |file| then |file| - off else n;
        if k <= room then r == k && out == file[off..off + k] else r == -1 && out == file[off..off + room]
    {
      hide Inv, ByteAt, Content, Refs, Mapped, Lookup, Bblock, Journal, EntryHolds;
      InvSizes(sb, disk, inodes, owner);
      out := [];
      if off > inodes[i].size || (off + n) % WORD32 < off { return 0, []; }
      var len := if off + n > inodes[i].size then inodes[i].size - off else n;
      ghost var file := Content(sb, disk, inodes, i);
      var tot := 0;
      while tot < len
        invariant 0 <= tot <= len && tot <= room && Now() == old(Now()) && out == file[off..off + tot]
      {
        var bn, o := (off + tot) / BSIZE, (off + tot) % BSIZE;
        ReadFacts(sb, disk, inodes, owner, i, off + tot);
        var addr;
        ghost var bm;
        ghost var s1 := Now();
        addr, bm := Bmap(i, bn);
        MappedSame(sb, s1, Now(), i, bn, addr, bm);
        if addr == 0 { break; }
        var m := if len - tot < BSIZE - o then len - tot else BSIZE - o;
        var k := if tot + m > room then room - tot else m;
        ReadStep(sb, disk, inodes, owner, i, off, tot, k, addr, out);
        out := out + disk[addr][o..o + k];
        if k < m { return -1, out; }
        tot := tot + m;
      }
      return tot, out;
    }

    /** The loop of itrunc over the direct blocks; false is bfree's panic. */
    method CutDirects(i: nat) returns (ok: bool)
      requires Valid() && i < |inodes|
      modifies this
      ensures ok && Cutting(sb, old(disk), old(inodes), old(owner), disk, inodes, owner, i, NDIRECT)
      ensures inodes[i].size == old(inodes)[i].size && logged == old(logged) + DirectBitmaps(sb, old(owner), i, NDIRECT)
    {
      hide Cutting, Inv, Unmark, Bit, Bblock, DirectBitmaps;
      CutStart(sb, disk, inodes, owner, i);
      NoBitmaps(sb, owner, i);
      var k := 0;
      while k < NDIRECT
        invariant 0 <= k <= NDIRECT && |inodes| == |old(inodes)| && inodes[i].size == old(inodes)[i].size
        invariant Cutting(sb, old(disk), old(inodes), old(owner), disk, inodes, owner, i, k)
        invariant logged == old(logged) + DirectBitmaps(sb, old(owner), i, k)
      {
        DirectBitmap(sb, old(disk), old(inodes), old(owner), disk, inodes, owner, i, k);
        CutFacts(sb, old(disk), old(inodes), old(owner), disk, inodes, owner, i, k);
        if inodes[i].addrs[k] != 0 {
          CutDirect(sb, old(disk), old(inodes), old(owner), disk, inodes, owner, i, k);
          ghost var b := inodes[i].addrs[k];
          var freed := Bfree(inodes[i].addrs[k]);
          if !freed { return false; }
          inodes := inodes[i := inodes[i].(addrs := inodes[i].addrs[k := 0])];
          owner := owner - {b};
        } else {
          SkipDirect(sb, old(disk), old(inodes), old(owner), disk, inodes, owner, i, k);
        }
        k := k + 1;
      }
      return true;
    }

    /** The loop of itrunc over the entries of the indirect block. */
    method FreeEntries(i: nat) returns (ok: bool, ghost gone: set<int>)
      requires Refs(sb, disk, inodes, owner) && Bits(sb, disk, owner.Keys) && i < |inodes|
      requires 0 < inodes[i].addrs[NDIRECT] < sb.size
      modifies this`disk, this`logged
      ensures ok && Freeing(sb, old(disk), inodes, owner, disk, gone, i, NINDIRECT)
      ensures logged == old(logged) + EntryBitmaps(sb, owner, i, NINDIRECT)
    {
      hide Freeing, Unmark, Bit, Refs, Bits, Bblock, EntryBitmaps;
      FreeStart(sb, disk, inodes, owner, i);
      NoBitmaps(sb, owner, i);
      gone := {};
      var k, a := 0, inodes[i].addrs[NDIRECT];
      while k < NINDIRECT
        invariant 0 <= k <= NINDIRECT && Freeing(sb, old(disk), inodes, owner, disk, gone, i, k)
        invariant logged == old(logged) + EntryBitmaps(sb, owner, i, k)
      {
        EntryBitmap(sb, old(disk), inodes, owner, disk, gone, i, k);
        FreeFacts(sb, old(disk), inodes, owner, disk, gone, i, k);
        FreeEntry(sb, old(disk), inodes, owner, disk, gone, i, k);
        ghost var b := Word(disk[a], k);
        if Word(disk[a], k) != 0 {
          var freed := Bfree(Word(disk[a], k));
          if !freed { return false, gone; }
          gone := gone + {b};
        }
        k := k + 1;
      }
      return true, gone;
    }

    /** itrunc; false is bfree's panic on a free block. */
    method Itrunc(i: nat) returns (ok: bool)
      requires Valid() && i < |inodes|
      modifies this
      ensures ok && Valid() && |inodes| == |old(inodes)|
      ensures Truncated(sb, old(disk), old(inodes), old(owner), disk, inodes, owner, i)
      ensures forall j, x | 0 <= j < |inodes| && 0 <= x < FILEMAX && j != i ::
        ByteAt(sb, disk, inodes, j, x) == ByteAt(sb, old(disk), old(inodes), j, x)
      ensures logged == old(logged) + FileBitmaps(sb, old(owner), i) + {Iblock(sb, i)}
    {
      hide Inv, Cutting, Freeing, Truncated, Refs, Bits, Bit, Unmark, ByteAt, Bblock, DirectBitmaps, EntryBitmaps,
           FileBitmaps;
      ok := CutDirects(i);
      if !ok { return; }
      CutFacts(sb, old(disk), old(inodes), old(owner), disk, inodes, owner, i, NDIRECT);
      ghost var d1, ins1, owner1 := disk, inodes, owner;
      AllBitmaps(sb, old(disk), old(inodes), old(owner), disk, inodes, owner, i);
      if inodes[i].addrs[NDIRECT] != 0 {
        ghost var gone;
        ok, gone := FreeEntries(i);
        if !ok { return; }
        CutIndirect(sb, d1, inodes, owner, disk, gone, i);
        FreeFacts(sb, d1, inodes, owner, disk, gone, i, NINDIRECT);
        var freed := Bfree(inodes[i].addrs[NDIRECT]);
        if !freed { return false; }
        inodes := inodes[i := inodes[i].(addrs := inodes[i].addrs[NDIRECT := 0])];
      } else {
        NoIndirect(sb, disk, inodes, owner, i);
      }
      owner := Others(owner, i);
      CutEnd(sb, old(disk), old(inodes), old(owner), d1, ins1, owner1, disk, inodes, owner, i);
      inodes := inodes[i := inodes[i].(size := 0)];
      TruncInv(sb, old(disk), old(inodes), old(owner), disk, inodes, owner, i);
      logged := logged + {Iblock(sb, i)};
      return true;
    }
  }

  /** An open file on an inode, with its offset. */
  class OpenFile {
    const fs: FileSystem
    const ino: nat
    const writable: bool
    var off: nat

    constructor (fs: FileSystem, ino: nat, writable: bool)
      ensures this.fs == fs && this.ino == ino && this.writable == writable && off == 0
    {
      this.fs, this.ino, this.writable, off := fs, ino, writable, 0;
    }

    /** One round of filewrite's loop, a transaction of its own. */
    method Transact(src: seq<int>, n1: nat) returns (r: int, ghost w: nat)
      requires fs.Valid() && ino < |fs.inodes| && off < WORD32 && n1 <= CHUNK
      modifies this`off, fs
      ensures fs.Valid() && |fs.inodes| == |old(fs.inodes)| && off == old(off) + if r > 0 then r else 0
      ensures Chunk(fs.sb, old(fs.Now()), fs.Now(), ino, src, old(off), n1, r, w)
    {
      hide Inv, Wrote, Chunk;
      fs.logged := {};
      r, w := fs.Writei(ino, src, off, n1);
      OneChunk(fs.sb, old(fs.Now()), fs.Now(), ino, src, off, n1, r, w);
      if r > 0 { off := off + r; }
    }

    /** filewrite on an inode: `src` are the source bytes that can be read. Its transactions are `snaps`, one chunk
        each. */
    method Filewrite(src: seq<int>, n: int)
      returns (ret: int, ghost done: nat, ghost w: nat, ghost snaps: seq<Snap>, ghost rs: seq<int>, ghost ws: seq<nat>)
      requires fs.Valid() && ino < |fs.inodes| && off < WORD32 && n < WORD32 / 2
      modifies this`off, fs
      ensures fs.Valid() && off == old(off) + done
      ensures FileWrote(fs.sb, old(fs.Now()), fs.Now(), ino, src, old(off), done, w)
      ensures ret == (if writable && done == n then n else -1) && (ret >= 0 ==> w == n)
      ensures |snaps| == |rs| + 1 && snaps[0] == old(fs.Now()) && snaps[|rs|] == fs.Now()
      ensures Chunks(fs.sb, snaps, ino, src, old(off), n, rs, ws) && if writable then AllTried(n, rs) else rs == []
      ensures writable && 0 <= n && ret == -1 ==>
        || old(off) > old(fs.inodes)[ino].size || old(off) + n > FILEMAX || |src| < n
        || Stuck(fs.sb, fs.disk, fs.inodes, ino, off)
    {
      hide Inv, FileWrote, Stuck, Chunks, Chunk, AllTried, AllFull;
      done, w, snaps, rs, ws := 0, 0, [fs.Now()], [], [];
      FileStart(fs.sb, fs.Now(), ino, src, off);
      NoChunks(fs.sb, fs.Now(), ino, src, off, n);
      if !writable { return -1, done, w, snaps, rs, ws; }
      var i := 0;
      while i < n
        invariant 0 <= i && (i <= n || i == 0) && done == w == i && off == old(off) + i && off < WORD32
        invariant fs.Valid() && ino < |fs.inodes| && FileWrote(fs.sb, old(fs.Now()), fs.Now(), ino, src, old(off), i, i)
        invariant i <= |src|
        invariant |snaps| == |rs| + 1 && snaps[0] == old(fs.Now()) && snaps[|rs|] == fs.Now()
        invariant Chunks(fs.sb, snaps, ino, src, old(off), n, rs, ws)
        invariant AllFull(n, rs) && (if i < n then i == |rs| * CHUNK else AllTried(n, rs))
      {
        var n1 := if n - i > CHUNK then CHUNK else n - i;
        ghost var s1 := fs.Now();
        ghost var w1;
        var r;
        r, w1 := Transact(src[i..], n1);
        NextChunk(fs.sb, snaps, s1, fs.Now(), ino, src, old(off), n, rs, ws, i, n1, r, w1);
        FileNext(fs.sb, old(fs.Now()), s1, fs.Now(), ino, src, old(off), i, n1, r, w1);
        snaps, rs, ws := snaps + [fs.Now()], rs + [r], ws + [w1];
        if r >= 0 { done, w := i + r, i + w1; }
        if r != n1 { break; }
        i := i + r;
      }
      return if i == n then n else -1, done, w, snaps, rs, ws;
    }
  }
}
