/** Sequences of inode-layer calls, against the files as plain byte sequences. */
module FsRun {
  import opened Params
  import opened FsDisk
  import opened FsInode
  import opened FsJournal
  import opened FsContent
  import opened FsTrunc
  import opened Fs

  /** One call of the inode layer. */
  datatype FsCall = MapCall(i: nat, bn: nat) | WriteCall(i: nat, src: seq<int>, off: nat, n: nat) | TruncCall(i: nat)

  /** What the callers of the inode layer pass: an inode that exists, a block below the maximum, 32-bit offsets. */
  predicate CallOk(c: FsCall, inodes: nat) {
    && c.i < inodes && (c.MapCall? ==> c.bn < MAXFILE)
    && (c.WriteCall? ==> c.off < WORD32 && c.n < WORD32)
  }

  /** The bytes of every file. */
  ghost function Files(sb: Super, s: Snap): (f: seq<seq<int>>)
    requires Inv(sb, s.d, s.ins, s.owner)
    ensures |f| == |s.ins| && forall j | 0 <= j < |f| :: f[j] == Content(sb, s.d, s.ins, j)
  {
    seq(|s.ins|, j requires 0 <= j < |s.ins| => Content(sb, s.d, s.ins, j))
  }

  /** A file after a write at `off` of which `r` bytes count and `w` are stored. */
  ghost function Splice(was: seq<int>, src: seq<int>, off: nat, r: nat, w: nat): (f: seq<int>)
    requires off <= |was| && r <= w <= |src|
    ensures |f| == if off + r > |was| then off + r else |was|
  {
    seq(if off + r > |was| then off + r else |was|, x requires 0 <= x < (if off + r > |was| then off + r else |was|) =>
      if off <= x < off + w then src[x - off] else was[x])
  }

  /** What a call with this result does to the files. */
  ghost function Told(files: seq<seq<int>>, c: FsCall, r: int, w: nat): seq<seq<int>>
    requires c.i < |files|
    requires c.WriteCall? && r != -1 ==> c.off <= |files[c.i]| && 0 <= r <= w <= |c.src|
  {
    match c
    case MapCall(_, _) => files
    case WriteCall(i, src, off, _) => if r == -1 then files else files[i := Splice(files[i], src, off, r, w)]
    case TruncCall(i) => files[i := []]
  }

  /** One call, from one state to the next: how it ends, and the files it leaves. */
  ghost predicate Called(sb: Super, s: Snap, s': Snap, c: FsCall, r: int, w: nat) {
    && Inv(sb, s.d, s.ins, s.owner) && Inv(sb, s'.d, s'.ins, s'.owner) && c.i < |s.ins| == |s'.ins|
    && (c.WriteCall? ==>
          && (r == -1 <==> c.off > s.ins[c.i].size || c.off + c.n > FILEMAX)
          && (r == -1 ==> s' == s)
          && (r != -1 ==> r >= 0 && Ended(sb, s'.d, s'.ins, c.i, c.src, c.off, c.n, r, w)))
    && (c.MapCall? && c.bn < MAXFILE ==>
          && r == Lookup(sb, s'.d, s'.ins, c.i, c.bn)
          && (Lookup(sb, s.d, s.ins, c.i, c.bn) != 0 ==> s' == s) && (r == 0 ==> Full(sb, s'.d)))
    && (c.TruncCall? ==> s'.owner == Others(s.owner, c.i))
    && Files(sb, s') == Told(Files(sb, s), c, r, w)
  }

  lemma SameContent(sb: Super, d: Disk, ins: seq<Inode>, d': Disk, ins': seq<Inode>, j: nat)
    requires DiskOk(sb, d) && InodesOk(ins) && SizesOk(ins) && DiskOk(sb, d') && InodesOk(ins') && SizesOk(ins')
    requires j < |ins| == |ins'| && ins'[j].size == ins[j].size
    requires forall x | 0 <= x < FILEMAX :: ByteAt(sb, d', ins', j, x) == ByteAt(sb, d, ins, j, x)
    ensures Content(sb, d', ins', j) == Content(sb, d, ins, j)
  {
    hide ByteAt;
  }

  lemma MapCalled(sb: Super, s: Snap, s': Snap, i: nat, bn: nat, a: int, bm: set<int>)
    requires Inv(sb, s.d, s.ins, s.owner) && Inv(sb, s'.d, s'.ins, s'.owner) && i < |s.ins| == |s'.ins| && bn < MAXFILE
    requires Mapped(sb, s.d, s.ins, s.owner, s.logged, s'.d, s'.ins, s'.owner, s'.logged, i, bn, a, bm)
    ensures Called(sb, s, s', MapCall(i, bn), a, 0)
  {
    hide Grows, NewBlocks, ByteAt, Full, Bits, Solid, Lookup;
    MappedBytes(sb, s.d, s.ins, s.owner, s.logged, s'.d, s'.ins, s'.owner, s'.logged, i, bn, a, bm);
    assert Poked(sb, s.d, s.ins, s'.d, s'.ins, i, 0, []);
    MappedSizes(sb, s.d, s.ins, s.owner, s'.d, s'.ins, i, bn);
    hide Extends, Refs;
    forall j | 0 <= j < |s.ins| ensures Content(sb, s'.d, s'.ins, j) == Content(sb, s.d, s.ins, j) {
      SameContent(sb, s.d, s.ins, s'.d, s'.ins, j);
    }
  }

  /** Stored bytes are spliced in; the other files keep theirs. */
  lemma PokedContent(sb: Super, s: Snap, s': Snap, i: nat, src: seq<int>, off: nat, r: nat, w: nat)
    requires Inv(sb, s.d, s.ins, s.owner) && Inv(sb, s'.d, s'.ins, s'.owner) && i < |s.ins| == |s'.ins|
    requires off <= s.ins[i].size && r <= w <= |src| && Poked(sb, s.d, s.ins, s'.d, s'.ins, i, off, src[..w])
    requires s'.ins[i].size == if off + r > s.ins[i].size then off + r else s.ins[i].size
    requires forall j | 0 <= j < |s.ins| && j != i :: s'.ins[j].size == s.ins[j].size
    ensures Content(sb, s'.d, s'.ins, i) == Splice(Content(sb, s.d, s.ins, i), src, off, r, w)
    ensures forall j | 0 <= j < |s.ins| && j != i :: Content(sb, s'.d, s'.ins, j) == Content(sb, s.d, s.ins, j)
  {
    hide ByteAt, Inv;
    InvSizes(sb, s.d, s.ins, s.owner);
    InvSizes(sb, s'.d, s'.ins, s'.owner);
    forall j | 0 <= j < |s.ins| && j != i ensures Content(sb, s'.d, s'.ins, j) == Content(sb, s.d, s.ins, j) {
      SameContent(sb, s.d, s.ins, s'.d, s'.ins, j);
    }
    var was, now := Content(sb, s.d, s.ins, i), Content(sb, s'.d, s'.ins, i);
    var told := Splice(was, src, off, r, w);
    assert |now| == |told|;
    forall x | 0 <= x < |now| ensures now[x] == told[x] {
      assert now[x] == ByteAt(sb, s'.d, s'.ins, i, x);
      if x < |was| { assert was[x] == ByteAt(sb, s.d, s.ins, i, x); }
    }
  }

  /** A writei call splices the stored bytes in; the other files keep theirs. */
  lemma WriteContent(sb: Super, s: Snap, s': Snap, i: nat, src: seq<int>, off: nat, n: nat, r: nat, w: nat)
    requires Inv(sb, s.d, s.ins, s.owner) && Inv(sb, s'.d, s'.ins, s'.owner) && i < |s.ins| == |s'.ins|
    requires off <= s.ins[i].size && Wrote(sb, s, s', i, src, off, n, r, w)
    ensures Content(sb, s'.d, s'.ins, i) == Splice(Content(sb, s.d, s.ins, i), src, off, r, w)
    ensures forall j | 0 <= j < |s.ins| && j != i :: Content(sb, s'.d, s'.ins, j) == Content(sb, s.d, s.ins, j)
  {
    hide Grows, DataLogged, Stuck, Span, Iblock, Inv, Local, CutShort, Edge, Poked, Content, Splice, Logs;
    InvSizes(sb, s.d, s.ins, s.owner);
    InvSizes(sb, s'.d, s'.ins, s'.owner);
    PokedContent(sb, s, s', i, src, off, r, w);
  }

  lemma WriteCalled(sb: Super, s: Snap, s': Snap, i: nat, src: seq<int>, off: nat, n: nat, r: int, w: nat)
    requires Inv(sb, s.d, s.ins, s.owner) && Inv(sb, s'.d, s'.ins, s'.owner) && i < |s.ins| == |s'.ins|
    requires r == -1 <==> off > s.ins[i].size || off + n > FILEMAX
    requires r == -1 ==> s' == s
    requires r != -1 ==> r >= 0 && Wrote(sb, s, s', i, src, off, n, r, w)
    ensures Called(sb, s, s', WriteCall(i, src, off, n), r, w)
  {
    if r != -1 {
      assert Ended(sb, s'.d, s'.ins, i, src, off, n, r, w);
      WriteContent(sb, s, s', i, src, off, n, r, w);
    }
    hide Wrote, Inv, Ended, Content, Splice;
  }

  lemma TruncCalled(sb: Super, s: Snap, s': Snap, i: nat)
    requires Inv(sb, s.d, s.ins, s.owner) && Inv(sb, s'.d, s'.ins, s'.owner) && i < |s.ins| == |s'.ins|
    requires Truncated(sb, s.d, s.ins, s.owner, s'.d, s'.ins, s'.owner, i)
    requires forall j, x | 0 <= j < |s.ins| && 0 <= x < FILEMAX && j != i ::
      ByteAt(sb, s'.d, s'.ins, j, x) == ByteAt(sb, s.d, s.ins, j, x)
    ensures Called(sb, s, s', TruncCall(i), 0, 0)
  {
    hide ByteAt, Refs, Bits, Solid;
    InvSizes(sb, s.d, s.ins, s.owner);
    InvSizes(sb, s'.d, s'.ins, s'.owner);
    forall j | 0 <= j < |s.ins| && j != i ensures Content(sb, s'.d, s'.ins, j) == Content(sb, s.d, s.ins, j) {
      SameContent(sb, s.d, s.ins, s'.d, s'.ins, j);
    }
    assert Content(sb, s'.d, s'.ins, i) == [];
  }

  lemma CalledFiles(sb: Super, s: Snap, s': Snap, c: FsCall, r: int, w: nat)
    requires Called(sb, s, s', c, r, w)
    ensures Inv(sb, s.d, s.ins, s.owner) && Inv(sb, s'.d, s'.ins, s'.owner) && c.i < |s.ins| == |s'.ins|
    ensures c.WriteCall? && r != -1 ==> c.off <= |Files(sb, s)[c.i]| && 0 <= r <= w <= |c.src|
    ensures Files(sb, s') == Told(Files(sb, s), c, r, w)
  {
    hide Inv, Lookup, Full, Told, Stuck, Piece, Edge;
  }

  /** Runs one call. */
  method Step(fs: FileSystem, c: FsCall) returns (ok: bool, r: int, ghost w: nat)
    requires fs.Valid() && CallOk(c, |fs.inodes|)
    modifies fs
    ensures ok && fs.Valid() && |fs.inodes| == |old(fs.inodes)| && Called(fs.sb, old(fs.Now()), fs.Now(), c, r, w)
  {
    hide Inv, Wrote, Mapped, Truncated, Called, Content, ByteAt;
    w := 0;
    match c {
      case MapCall(i, bn) =>
        ghost var bm;
        r, bm := fs.Bmap(i, bn);
        MapCalled(fs.sb, old(fs.Now()), fs.Now(), i, bn, r, bm);
        return true, r, 0;
      case WriteCall(i, src, off, n) =>
        r, w := fs.Writei(i, src, off, n);
        WriteCalled(fs.sb, old(fs.Now()), fs.Now(), i, src, off, n, r, w);
        return true, r, w;
      case TruncCall(i) =>
        ok := fs.Itrunc(i);
        TruncCalled(fs.sb, old(fs.Now()), fs.Now(), i);
        return ok, 0, 0;
    }
  }

  /** The states of a run, one for each call and the first. */
  ghost predicate Ran(sb: Super, snaps: seq<Snap>, calls: seq<FsCall>, rs: seq<int>, ws: seq<nat>)
    requires |rs| == |ws| <= |calls| && |snaps| == |rs| + 1
  {
    && (forall k | 0 <= k < |snaps| ::
          Inv(sb, snaps[k].d, snaps[k].ins, snaps[k].owner) && |snaps[k].ins| == |snaps[0].ins|)
    && (forall k | 0 <= k < |rs| :: Called(sb, snaps[k], snaps[k + 1], calls[k], rs[k], ws[k]))
  }

  lemma RanNone(sb: Super, s: Snap, calls: seq<FsCall>)
    requires Inv(sb, s.d, s.ins, s.owner)
    ensures Ran(sb, [s], calls, [], [])
  {
  }

  lemma RanNext(sb: Super, snaps: seq<Snap>, s: Snap, calls: seq<FsCall>, rs: seq<int>, ws: seq<nat>, r: int, w: nat)
    requires |rs| == |ws| < |calls| && |snaps| == |rs| + 1 && Ran(sb, snaps, calls, rs, ws)
    requires Inv(sb, s.d, s.ins, s.owner) && Called(sb, snaps[|rs|], s, calls[|rs|], r, w)
    ensures Ran(sb, snaps + [s], calls, rs + [r], ws + [w])
  {
    hide Called, Inv;
    CalledFiles(sb, snaps[|rs|], s, calls[|rs|], r, w);
    var snaps', rs', ws' := snaps + [s], rs + [r], ws + [w];
    forall k | 0 <= k < |rs'| ensures Called(sb, snaps'[k], snaps'[k + 1], calls[k], rs'[k], ws'[k]) {
      assert k < |rs| ==> snaps'[k + 1] == snaps[k + 1];
    }
  }

  /** Any sequence of calls: each does to the files, taken as byte sequences, what its result says and nothing else, the
      file system stays well formed, and no bfree panics. */
  method Perform(fs: FileSystem, calls: seq<FsCall>)
    returns (ok: bool, rs: seq<int>, ghost ws: seq<nat>, ghost snaps: seq<Snap>)
    requires fs.Valid() && forall c | c in calls :: CallOk(c, |fs.inodes|)
    modifies fs
    ensures ok && fs.Valid() && |fs.inodes| == |old(fs.inodes)| && |rs| == |ws| == |calls| && |snaps| == |calls| + 1
    ensures Ran(fs.sb, snaps, calls, rs, ws) && snaps[0] == old(fs.Now()) && snaps[|calls|] == fs.Now()
  {
    hide Inv, Called, Ran;
    rs, ws, snaps := [], [], [fs.Now()];
    RanNone(fs.sb, fs.Now(), calls);
    var k := 0;
    while k < |calls|
      invariant 0 <= k <= |calls| && |rs| == |ws| == k && |snaps| == k + 1 && fs.Valid()
      invariant |fs.inodes| == |old(fs.inodes)|
      invariant Ran(fs.sb, snaps, calls, rs, ws) && snaps[0] == old(fs.Now()) && snaps[k] == fs.Now()
    {
      var r;
      ghost var w;
      ok, r, w := Step(fs, calls[k]);
      RanNext(fs.sb, snaps, fs.Now(), calls, rs, ws, r, w);
      rs, ws, snaps := rs + [r], ws + [w], snaps + [fs.Now()];
      k := k + 1;
    }
    return true, rs, ws, snaps;
  }

  /** Call `k` stored byte `x` of file `i`. */
  ghost predicate Stores(c: FsCall, r: int, w: nat, i: nat, x: nat) {
    c.WriteCall? && c.i == i && r != -1 && c.off <= x < c.off + w && w <= |c.src|
  }

  /** Byte `x` of file `i` as the last of the first `k` calls that stored it left it. */
  ghost function LastByte(first: seq<int>, calls: seq<FsCall>, rs: seq<int>, ws: seq<nat>, k: nat, i: nat, x: nat): int
    requires k <= |rs| == |ws| <= |calls|
  {
    if k == 0 then (if x < |first| then first[x] else 0)
    else if Stores(calls[k - 1], rs[k - 1], ws[k - 1], i, x) then calls[k - 1].src[x - calls[k - 1].off]
    else LastByte(first, calls, rs, ws, k - 1, i, x)
  }

  lemma ToldByte(files: seq<seq<int>>, c: FsCall, r: int, w: nat, i: nat, x: nat)
    requires c.i < |files| && (c.WriteCall? && r != -1 ==> c.off <= |files[c.i]| && 0 <= r <= w <= |c.src|)
    requires i < |files| && x < |Told(files, c, r, w)[i]|
    ensures if Stores(c, r, w, i, x) then Told(files, c, r, w)[i][x] == c.src[x - c.off]
            else x < |files[i]| && Told(files, c, r, w)[i][x] == files[i][x]
  {
  }

  /** Last writer wins: every byte below a file's size is what the last call that stored it gave, through any number of
      truncations and writes that stopped short. */
  lemma {:induction false} LastWriter(sb: Super, snaps: seq<Snap>, calls: seq<FsCall>, rs: seq<int>, ws: seq<nat>,
                                      k: nat, i: nat, x: nat)
    requires k <= |rs| == |ws| <= |calls| && |snaps| == |rs| + 1 && Ran(sb, snaps, calls, rs, ws)
    requires i < |snaps[k].ins| && x < |Files(sb, snaps[k])[i]|
    ensures i < |snaps[0].ins| && Files(sb, snaps[k])[i][x] == LastByte(Files(sb, snaps[0])[i], calls, rs, ws, k, i, x)
  {
    hide Inv, Content, Called, Told, Stores;
    if k > 0 {
      var c := calls[k - 1];
      assert Called(sb, snaps[k - 1], snaps[k], c, rs[k - 1], ws[k - 1]);
      CalledFiles(sb, snaps[k - 1], snaps[k], c, rs[k - 1], ws[k - 1]);
      ToldByte(Files(sb, snaps[k - 1]), c, rs[k - 1], ws[k - 1], i, x);
      if !Stores(c, rs[k - 1], ws[k - 1], i, x) { LastWriter(sb, snaps, calls, rs, ws, k - 1, i, x); }
    }
  }

  /** Reading after any sequence of calls. */
  method ReadBack(fs: FileSystem, calls: seq<FsCall>, i: nat, off: nat, n: nat)
    returns (r: int, out: seq<int>, rs: seq<int>, ghost ws: seq<nat>, ghost snaps: seq<Snap>)
    requires fs.Valid() && (forall c | c in calls :: CallOk(c, |fs.inodes|)) && i < |fs.inodes| && off + n < WORD32
    modifies fs
    ensures |rs| == |ws| == |calls| && |snaps| == |calls| + 1 && Ran(fs.sb, snaps, calls, rs, ws)
    ensures snaps[0] == old(fs.Now()) && snaps[|calls|] == fs.Now() && fs.Valid() && |fs.inodes| == |old(fs.inodes)|
    ensures r == |out| <= n && (r < n ==> off + r == fs.inodes[i].size || off > fs.inodes[i].size)
    ensures forall x | 0 <= x < |out| ::
      out[x] == LastByte(Files(fs.sb, old(fs.Now()))[i], calls, rs, ws, |calls|, i, off + x)
  {
    hide Inv, Called, Ran, Content, LastByte;
    var ok;
    ok, rs, ws, snaps := Perform(fs, calls);
    r, out := fs.Readi(i, off, n, n);
    forall x | 0 <= x < |out|
      ensures out[x] == LastByte(Files(fs.sb, snaps[0])[i], calls, rs, ws, |calls|, i, off + x)
    {
      LastWriter(fs.sb, snaps, calls, rs, ws, |calls|, i, off + x);
    }
  }

  /** A write whose source ends inside a block that is there: nothing is counted, the size stays, and yet the bytes that
      could be read are in the file, in a block that was not logged. */
  method WriteFault(fs: FileSystem, i: nat, src: seq<int>, n: nat) returns (r: int)
    requires fs.Valid() && i < |fs.inodes| && 0 < |src| < n <= BSIZE && n <= fs.inodes[i].size
    modifies fs
    ensures fs.Valid() && |fs.inodes| == |old(fs.inodes)| && r == 0
    ensures Content(fs.sb, fs.disk, fs.inodes, i) == src + Content(fs.sb, old(fs.disk), old(fs.inodes), i)[|src|..]
    ensures fs.logged == old(fs.logged) + {Iblock(fs.sb, i)}
  {
    hide Inv, Wrote, Content;
    InvSizes(fs.sb, fs.disk, fs.inodes, fs.owner);
    ghost var w;
    r, w := fs.Writei(i, src, 0, n);
    FaultEnd(fs.sb, old(fs.Now()), fs.Now(), i, src, n, r, w);
  }

  lemma FaultEnd(sb: Super, s: Snap, s': Snap, i: nat, src: seq<int>, n: nat, r: nat, w: nat)
    requires Inv(sb, s.d, s.ins, s.owner) && Inv(sb, s'.d, s'.ins, s'.owner) && i < |s.ins| == |s'.ins|
    requires 0 < |src| < n <= BSIZE && n <= s.ins[i].size && Wrote(sb, s, s', i, src, 0, n, r, w)
    ensures r == 0 && w == |src| && s'.logged == s.logged + {Iblock(sb, i)}
    ensures Content(sb, s'.d, s'.ins, i) == src + Content(sb, s.d, s.ins, i)[|src|..]
  {
    hide Grows, DataLogged, Span, Iblock, ByteAt, Refs, Bits, Solid, Local, Content;
    InvSizes(sb, s.d, s.ins, s.owner);
    ReadFacts(sb, s.d, s.ins, s.owner, i, 0);
    assert Lookup(sb, s.d, s.ins, i, 0) != 0;
    StillThere(sb, s, s', i, 0);
    WriteContent(sb, s, s', i, src, 0, n, r, w);
  }

  lemma StillThere(sb: Super, s: Snap, s': Snap, i: nat, bn: nat)
    requires Inv(sb, s.d, s.ins, s.owner) && Inv(sb, s'.d, s'.ins, s'.owner) && i < |s.ins| == |s'.ins| && bn < MAXFILE
    requires Grows(sb, s.d, s.ins, s.owner, s.logged, s'.d, s'.ins, s'.owner, s'.logged, i)
    requires Lookup(sb, s.d, s.ins, i, bn) != 0
    ensures Lookup(sb, s'.d, s'.ins, i, bn) == Lookup(sb, s.d, s.ins, i, bn)
  {
    assert PlaceOk(s.ins, Spot(i, bn));
  }
}
