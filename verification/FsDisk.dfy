/** The blocks under the inode layer: bytes, the free bitmap, and the words of indirect blocks. */
module FsDisk {
  import opened Params

  const BSIZE: int := 1024
  const NDIRECT: int := 12
  const NINDIRECT: int := 256
  const MAXFILE: int := 268
  const BPB: int := 8192        // bitmap bits per block
  const IPB: int := 16          // inodes per block

  /** The superblock fields used here; blocks below nmeta hold boot, log, inodes and bitmap. */
  datatype Super = Super(size: int, inodestart: int, bmapstart: int, nmeta: int)

  /** Every block has its bit in a bitmap block, and those are part of the metadata. */
  predicate SuperOk(sb: Super) {
    0 < sb.bmapstart && sb.bmapstart + (sb.size - 1) / BPB < sb.nmeta <= sb.size < 0x1_0000_0000
  }

  ghost predicate DiskOk(sb: Super, d: Disk) {
    && SuperOk(sb)
    && forall b | 0 <= b < sb.size :: b in d && |d[b]| == BSIZE
  }

  // ---- bits of a byte ----

  function BitOf(x: int, k: nat): int
    decreases k
  {
    if k == 0 then x % 2 else BitOf(x / 2, k - 1)
  }

  /** x | 1 << k */
  function OrBit(x: int, k: nat): int
    decreases k
  {
    if k == 0 then x - x % 2 + 1 else 2 * OrBit(x / 2, k - 1) + x % 2
  }

  /** x & ~(1 << k) */
  function AndNotBit(x: int, k: nat): int
    decreases k
  {
    if k == 0 then x - x % 2 else 2 * AndNotBit(x / 2, k - 1) + x % 2
  }

  lemma {:induction false} BitSet(x: int, k: nat, j: nat)
    ensures BitOf(OrBit(x, k), j) == if j == k then 1 else BitOf(x, j)
    ensures BitOf(AndNotBit(x, k), j) == if j == k then 0 else BitOf(x, j)
    decreases k
  {
    if k == 0 {
      assert (x - x % 2 + 1) / 2 == x / 2 && (x - x % 2) / 2 == x / 2;
      assert (x - x % 2 + 1) % 2 == 1 && (x - x % 2) % 2 == 0;
    } else {
      var y, z := OrBit(x / 2, k - 1), AndNotBit(x / 2, k - 1);
      assert (2 * y + x % 2) / 2 == y && (2 * y + x % 2) % 2 == x % 2;
      assert (2 * z + x % 2) / 2 == z && (2 * z + x % 2) % 2 == x % 2;
      if j > 0 { BitSet(x / 2, k - 1, j - 1); }
    }
  }

  /** What bit k counts for. */
  function Weight(k: nat): int
    requires k < 8
  {
    [1, 2, 4, 8, 16, 32, 64, 128][k]
  }

  lemma Halves(x: int)
    ensures x / 2 / 2 == x / 4 && x / 4 / 2 == x / 8 && x / 8 / 2 == x / 16 && x / 16 / 2 == x / 32
    ensures x / 32 / 2 == x / 64 && x / 64 / 2 == x / 128
  {
  }

  lemma HalfBits(x: int, k: nat)
    requires k < 8
    ensures x / 2 / Weight(k) == x / (2 * Weight(k))
  {
    Halves(x);
  }

  /** Bit k of a byte is the digit of weight 2^k. */
  lemma {:induction false} BitDigit(x: int, k: nat)
    requires k < 8
    ensures BitOf(x, k) == x / Weight(k) % 2
    decreases k
  {
    if k > 0 {
      BitDigit(x / 2, k - 1);
      HalfBits(x, k - 1);
    }
  }

  /** Setting a clear bit adds its weight, and clearing a set one takes it away. */
  lemma {:induction false} BitValue(x: int, k: nat)
    requires k < 8
    ensures BitOf(x, k) == 0 ==> OrBit(x, k) == x + Weight(k)
    ensures BitOf(x, k) == 1 ==> AndNotBit(x, k) == x - Weight(k)
    decreases k
  {
    if k > 0 { BitValue(x / 2, k - 1); }
  }

  // ---- the bitmap ----

  /** BBLOCK: the bitmap block that holds b's bit. */
  function Bblock(sb: Super, b: int): int { sb.bmapstart + b / BPB }

  function ByteIx(b: int): int { b % BPB / 8 }

  function BitIx(b: int): nat { b % BPB % 8 }

  function Bit(sb: Super, d: Disk, b: int): bool
    requires DiskOk(sb, d) && 0 <= b < sb.size
  {
    InMeta(sb, b);
    BitOf(d[Bblock(sb, b)][ByteIx(b)], BitIx(b)) == 1
  }

  lemma InMeta(sb: Super, b: int)
    requires SuperOk(sb) && 0 <= b < sb.size
    ensures 0 < Bblock(sb, b) < sb.nmeta && 0 <= ByteIx(b) < BSIZE
  {
  }

  /** The disk with byte `b`'s bitmap byte replaced. */
  function PutByte(sb: Super, d: Disk, b: int, x: int): (d': Disk)
    requires DiskOk(sb, d) && 0 <= b < sb.size
    ensures DiskOk(sb, d')
  {
    InMeta(sb, b);
    d[Bblock(sb, b) := d[Bblock(sb, b)][ByteIx(b) := x]]
  }

  function ByteOf(sb: Super, d: Disk, b: int): int
    requires DiskOk(sb, d) && 0 <= b < sb.size
  {
    InMeta(sb, b);
    d[Bblock(sb, b)][ByteIx(b)]
  }

  function Mark(sb: Super, d: Disk, b: int): (d': Disk)
    requires DiskOk(sb, d) && 0 <= b < sb.size
    ensures DiskOk(sb, d')
  {
    PutByte(sb, d, b, OrBit(ByteOf(sb, d, b), BitIx(b)))
  }

  function Unmark(sb: Super, d: Disk, b: int): (d': Disk)
    requires DiskOk(sb, d) && 0 <= b < sb.size
    ensures DiskOk(sb, d')
  {
    PutByte(sb, d, b, AndNotBit(ByteOf(sb, d, b), BitIx(b)))
  }

  /** The bitmap byte of a block, digit by digit: what marking and unmarking store. */
  lemma MarkBytes(sb: Super, d: Disk, b: int)
    requires DiskOk(sb, d) && 0 <= b < sb.size
    ensures var bb, y, w := sb.bmapstart + b / 8192, b % 8192 / 8, Weight(b % 8192 % 8);
      && bb in d && y < |d[bb]| && (Bit(sb, d, b) <==> d[bb][y] / w % 2 == 1)
      && (!Bit(sb, d, b) ==> Mark(sb, d, b) == d[bb := d[bb][y := d[bb][y] + w]])
      && (Bit(sb, d, b) ==> Unmark(sb, d, b) == d[bb := d[bb][y := d[bb][y] - w]])
  {
    InMeta(sb, b);
    var x, k := ByteOf(sb, d, b), BitIx(b);
    BitDigit(x, k);
    BitValue(x, k);
    BitIs(x, k);
  }

  lemma {:induction false} BitIs(x: int, k: nat)
    ensures BitOf(x, k) == 0 || BitOf(x, k) == 1
    decreases k
  {
    if k > 0 { BitIs(x / 2, k - 1); }
  }

  lemma Digits(b: int)
    ensures b == BPB * (b / BPB) + 8 * ByteIx(b) + BitIx(b)
  {
    var r := b % BPB;
    assert r == 8 * (r / 8) + r % 8;
  }

  /** Setting or clearing one block's bit changes no other block's bit. */
  lemma MarkBit(sb: Super, d: Disk, b: int, c: int)
    requires DiskOk(sb, d) && 0 <= b < sb.size && 0 <= c < sb.size
    ensures Bit(sb, Mark(sb, d, b), c) <==> c == b || Bit(sb, d, c)
    ensures Bit(sb, Unmark(sb, d, b), c) <==> c != b && Bit(sb, d, c)
  {
    BitSet(ByteOf(sb, d, b), BitIx(b), BitIx(c));
    InMeta(sb, b);
    InMeta(sb, c);
    Digits(b);
    Digits(c);
  }

  // ---- the words of an indirect block ----

  function Word(d: Block, i: int): int
    requires |d| == BSIZE && 0 <= i < NINDIRECT
  {
    d[4 * i] + 256 * d[4 * i + 1] + 65536 * d[4 * i + 2] + 16777216 * d[4 * i + 3]
  }

  function SetWord(d: Block, i: int, v: int): (d': Block)
    requires |d| == BSIZE && 0 <= i < NINDIRECT
    ensures |d'| == BSIZE
  {
    d[4 * i := v % 256][4 * i + 1 := v / 256 % 256][4 * i + 2 := v / 65536 % 256][4 * i + 3 := v / 16777216 % 256]
  }

  lemma WordBytes(v: int)
    requires 0 <= v < 0x1_0000_0000
    ensures v == v % 256 + 256 * (v / 256 % 256) + 65536 * (v / 65536 % 256) + 16777216 * (v / 16777216 % 256)
  {
  }

  lemma WordSet(d: Block, i: int, v: int, j: int)
    requires |d| == BSIZE && 0 <= i < NINDIRECT && 0 <= j < NINDIRECT && 0 <= v < 0x1_0000_0000
    ensures Word(SetWord(d, i, v), j) == if j == i then v else Word(d, j)
  {
    WordBytes(v);
  }

  /** The entry's four bytes, lowest first; no other byte changes. */
  lemma EntryBytes(d: Block, i: int, v: int)
    requires |d| == BSIZE && 0 <= i < NINDIRECT && 0 <= v < 0x1_0000_0000
    ensures var d' := SetWord(d, i, v);
      && d'[4 * i] == v % 256 && d'[4 * i + 1] == v / 256 % 256 && d'[4 * i + 2] == v / 65536 % 256
      && d'[4 * i + 3] == v / 16777216
      && forall j | 0 <= j < BSIZE && !(4 * i <= j < 4 * i + 4) :: d'[j] == d[j]
  {
  }

  function Zeroes(): (d: Block)
    ensures |d| == BSIZE && forall i | 0 <= i < BSIZE :: d[i] == 0
  {
    seq(BSIZE, _ => 0)
  }

  lemma ZeroWord(j: int)
    requires 0 <= j < NINDIRECT
    ensures Word(Zeroes(), j) == 0
  {
  }
}
