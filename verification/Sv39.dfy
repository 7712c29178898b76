/** The address translation of the hardware, read off memory word by word, and that the tree model is just that. */
module Sv39 {
  import opened Option
  import opened Params
  import opened PageTree

  /** The word at index `i` of the page at `p`. */
  ghost function WordAt(mem: Mem, p: int, i: int): Option<int> {
    if p in mem && 0 <= i < |mem[p]| then Some(mem[p][i]) else None
  }

  /** One level down: a valid entry without R, W and X points to the next table. */
  ghost function Below(w: Option<int>): Option<int> {
    if w.Some? && w.value % 2 == 1 && w.value / 2 % 8 == 0 then Some(w.value / 1024 * 4096) else None
  }

  /** The leaf entry that three loads find for a virtual address: nine bits of index for each level from bit 30, from
      bit 21 and from bit 12. */
  ghost function Leaf39(mem: Mem, root: int, va: nat): Option<int> {
    var p1 := Below(WordAt(mem, root, va / 0x4000_0000 % 512));
    if p1 == None then None
    else
      var p0 := Below(WordAt(mem, p1.value, va / 0x20_0000 % 512));
      if p0 == None then None
      else
        var w := WordAt(mem, p0.value, va / 0x1000 % 512);
        if w.Some? && w.value % 2 == 1 then w else None
  }

  lemma Indices(va: nat)
    ensures PX(2, va / PGSIZE) == va / 0x4000_0000 % 512
    ensures PX(1, va / PGSIZE) == va / 0x20_0000 % 512 && PX(0, va / PGSIZE) == va / 0x1000 % 512
  {
    var v := va / PGSIZE;
    assert Up(1, v) == v / 512 && Up(2, v) == Up(1, v) / 512;
    assert v / 512 == va / 0x20_0000;
    assert va / 0x20_0000 / 512 == va / 0x4000_0000;
  }

  /** A pointer entry of a well-formed tree, as the hardware decodes it. */
  lemma Pointer(mem: Mem, root: int, t: Tree, q: int, i: nat)
    requires Wf(mem, root, t) && q in t && t[q].level > 0 && i < 512
    ensures WordAt(mem, q, i) == Some(mem[q][i])
    ensures Below(WordAt(mem, q, i)) == if Valid(mem[q][i]) then Some(Pa(mem[q][i])) else None
  {
    var w := mem[q][i];
    assert EntryOk(t, t[q], i, w);
    if Valid(w) { WordDigits(w / 1024, 1); }
  }

  /** For every well-formed tree and every address: the flat map of the model is what the hardware finds. */
  lemma HardwareWalk(mem: Mem, root: int, t: Tree, va: nat)
    requires Wf(mem, root, t) && va < MAXVA
    ensures var f, w := Flat(mem, root, t), Leaf39(mem, root, va);
      (va / PGSIZE in f <==> w.Some?) && (w.Some? ==> f[va / PGSIZE] == w.value)
  {
    var v := va / PGSIZE;
    Indices(va);
    PageBound(va);
    FlatAt(mem, root, t, v);
    Pointer(mem, root, t, root, PX(2, v));
    var q1 := TableAt(mem, root, t, 1, v);
    if q1.Some? {
      Pointer(mem, root, t, q1.value, PX(1, v));
    }
  }
}
