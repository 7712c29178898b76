/** The Sv39 radix tree as it lies in physical memory, and the flat map of
    virtual pages it stands for.  A `Tree` names every page-table page together
    with the one index path that leads to it, so a well-formed tree cannot
    share a table page between two paths. */
module PageTree {
  import opened Option
  import opened Params

  const PTE_V: nat := 1
  const PTE_R: nat := 2
  const PTE_U: nat := 16

  type Mem = map<int, seq<int>>     // page address -> its 512 words

  datatype Node = Node(level: nat, idx: nat)
  type Tree = map<int, Node>

  predicate Valid(w: int) { w % 2 == 1 }

  predicate User(w: int) { w / 16 % 2 == 1 }

  predicate NoAccess(w: int) { w / 2 % 8 == 0 }   // none of R, W, X

  function Flags(w: int): nat { w % 1024 }

  function Pa(w: int): int { w / 1024 * PGSIZE }

  function Pte(pa: int, flags: nat): int { pa / PGSIZE * 1024 + flags }

  function WithV(perm: nat): nat { if perm % 2 == 1 then perm else perm + 1 }

  /** What memset leaves in a page whose words all become `w`. */
  function Filled(w: int): (s: seq<int>)
    ensures |s| == 512 && forall i | 0 <= i < 512 :: s[i] == w
  {
    seq(512, _ => w)
  }

  /** Store word `w` at index `i` of page `p`. */
  function Poke(mem: Mem, p: int, i: nat, w: int): Mem
    requires p in mem && i < |mem[p]|
  {
    mem[p := mem[p][i := w]]
  }

  lemma Div2(x: int, q: int, r: int)
    requires 0 <= r < 2 && x == 2 * q + r
    ensures x / 2 == q && x % 2 == r
  {
  }

  lemma Div8(x: int, q: int, r: int)
    requires 0 <= r < 8 && x == 8 * q + r
    ensures x / 8 == q && x % 8 == r
  {
  }

  lemma Div16(x: int, q: int, r: int)
    requires 0 <= r < 16 && x == 16 * q + r
    ensures x / 16 == q && x % 16 == r
  {
  }

  lemma Div1024(x: int, q: int, r: int)
    requires 0 <= r < 1024 && x == 1024 * q + r
    ensures x / 1024 == q && x % 1024 == r
  {
  }

  lemma WordDigits(k: int, flags: nat)
    requires flags < 1024
    ensures var w := 1024 * k + flags;
      && w / 1024 == k && w % 1024 == flags && w % 2 == flags % 2
      && w / 16 % 2 == flags / 16 % 2 && w / 2 % 8 == flags / 2 % 8
  {
    var w, a, b := 1024 * k + flags, flags / 16, flags / 2;
    Div1024(w, k, flags);
    Div2(w, 512 * k + b, flags % 2);
    Div16(w, 64 * k + a, flags % 16);
    Div2(64 * k + a, 32 * k + a / 2, a % 2);
    Div8(512 * k + b, 64 * k + b / 8, b % 8);
  }

  lemma PteRoundTrip(pa: int, flags: nat)
    requires pa % PGSIZE == 0 && flags < 1024
    ensures Pa(Pte(pa, flags)) == pa && Flags(Pte(pa, flags)) == flags
    ensures Valid(Pte(pa, flags)) <==> Valid(flags)
    ensures User(Pte(pa, flags)) <==> User(flags)
    ensures NoAccess(Pte(pa, flags)) <==> NoAccess(flags)
  {
    WordDigits(pa / PGSIZE, flags);
  }

  lemma LeafWord(pa: int, perm: nat)
    requires perm < 1024
    ensures WithV(perm) < 1024 && Valid(Pte(pa, WithV(perm)))
  {
    WordDigits(pa / PGSIZE, WithV(perm));
  }

  lemma PageOf(a: int, v: int)
    requires a == v * PGSIZE
    ensures a / PGSIZE == v && a % PGSIZE == 0
  {
  }

  lemma PageBound(va: nat)
    ensures va >= MAXVA <==> va / PGSIZE >= NVPN
  {
  }

  /** The page number `vpn` with its `level` lowest 9-bit indices dropped. */
  function Up(level: nat, vpn: nat): nat
    requires level <= 3
  {
    if level == 0 then vpn else Up(level - 1, vpn) / 512
  }

  function PX(level: nat, vpn: nat): (i: nat)
    requires level <= 2
    ensures i < 512
  {
    Up(level, vpn) % 512
  }

  ghost predicate PageOk(mem: Mem, p: int) {
    p in mem && |mem[p]| == 512 && p % PGSIZE == 0
  }

  /** A valid interior entry is a bare pointer to the table one level down on its own path. */
  ghost predicate EntryOk(t: Tree, n: Node, i: nat, w: int)
    requires n.level > 0
  {
    Valid(w) ==> Flags(w) == PTE_V && Pa(w) in t && t[Pa(w)] == Node(n.level - 1, n.idx * 512 + i)
  }

  ghost predicate LinkFrom(mem: Mem, t: Tree, q: int, p: int)
    requires p in t
  {
    && q in t && q in mem && |mem[q]| == 512
    && t[q] == Node(t[p].level + 1, t[p].idx / 512)
    && Valid(mem[q][t[p].idx % 512]) && Pa(mem[q][t[p].idx % 512]) == p
  }

  ghost predicate HasParent(mem: Mem, t: Tree, p: int)
    requires p in t
  {
    exists q :: LinkFrom(mem, t, q, p)
  }

  /** A node that some page number below NVPN passes through. */
  ghost predicate NodeOk(n: Node) {
    match n.level
    case 2 => n.idx == 0
    case 1 => n.idx < 256
    case 0 => n.idx < 131072
    case _ => false
  }

  lemma PathNode(level: nat, vpn: nat)
    requires level <= 2 && vpn < NVPN
    ensures NodeOk(Node(level, Up(level + 1, vpn)))
    ensures Up(level + 1, vpn) * 512 + PX(level, vpn) == Up(level, vpn)
  {
    assert Up(1, vpn) == vpn / 512 && Up(2, vpn) == Up(1, vpn) / 512 && Up(3, vpn) == Up(2, vpn) / 512;
  }

  ghost predicate Wf(mem: Mem, root: int, t: Tree) {
    && root in t && t[root] == Node(2, 0)
    && (forall p | p in t :: PageOk(mem, p) && NodeOk(t[p]))
    && (forall p, i {:trigger EntryOk(t, t[p], i, mem[p][i])} | p in t && t[p].level > 0 && 0 <= i < 512 ::
          EntryOk(t, t[p], i, mem[p][i]))
    && (forall p | p in t && p != root :: t[p].level < 2)
    && (forall p {:trigger HasParent(mem, t, p)} | p in t && p != root :: HasParent(mem, t, p))
  }

  /** The table page that the walk for `vpn` reaches at `level`. */
  ghost function TableAt(mem: Mem, root: int, t: Tree, level: nat, vpn: nat): (r: Option<int>)
    requires Wf(mem, root, t) && level <= 2 && vpn < NVPN
    ensures r.Some? ==> r.value in t && t[r.value] == Node(level, Up(level + 1, vpn))
    decreases 2 - level
  {
    if level == 2 then PathNode(2, vpn); Some(root)
    else
      match TableAt(mem, root, t, level + 1, vpn)
      case None => None
      case Some(q) =>
        var w := mem[q][PX(level + 1, vpn)];
        assert EntryOk(t, t[q], PX(level + 1, vpn), w);
        if Valid(w) then Some(Pa(w)) else None
  }

  /** The leaf word for `vpn`; 0 when the walk stops early. */
  ghost function Leaf(mem: Mem, root: int, t: Tree, vpn: nat): int
    requires Wf(mem, root, t) && vpn < NVPN
  {
    match TableAt(mem, root, t, 0, vpn)
    case None => 0
    case Some(p) => mem[p][PX(0, vpn)]
  }

  /** `f` holds exactly the valid leaves. */
  ghost predicate IsFlat(mem: Mem, root: int, t: Tree, f: map<nat, int>)
    requires Wf(mem, root, t)
  {
    && (forall v | v in f :: v < NVPN)
    && (forall v: nat {:trigger Leaf(mem, root, t, v)} | v < NVPN ::
          (v in f <==> Valid(Leaf(mem, root, t, v))) && (v in f ==> f[v] == Leaf(mem, root, t, v)))
  }

  /** The flat partial map the tree stands for. */
  ghost function Flat(mem: Mem, root: int, t: Tree): (f: map<nat, int>)
    requires Wf(mem, root, t)
    ensures IsFlat(mem, root, t, f)
  {
    var g := map v: nat | v < NVPN && Valid(Leaf(mem, root, t, v)) :: Leaf(mem, root, t, v);
    assert IsFlat(mem, root, t, g);
    var f :| IsFlat(mem, root, t, f);
    f
  }

  lemma FlatUnique(mem: Mem, root: int, t: Tree, f: map<nat, int>)
    requires Wf(mem, root, t) && IsFlat(mem, root, t, f)
    ensures f == Flat(mem, root, t)
  {
    var g := Flat(mem, root, t);
    forall v: nat ensures v in f <==> v in g {
      if v < NVPN { var w := Leaf(mem, root, t, v); }
    }
    forall v: nat | v in f ensures f[v] == g[v] {
      var w := Leaf(mem, root, t, v);
    }
  }

  /** What a walk for `v` without allocation finds, against the flat map. */
  lemma FlatAt(mem: Mem, root: int, t: Tree, v: nat)
    requires Wf(mem, root, t) && v < NVPN
    ensures var f := Flat(mem, root, t);
      match TableAt(mem, root, t, 0, v)
      case None => v !in f
      case Some(p) => (v in f <==> Valid(mem[p][PX(0, v)])) && (v in f ==> f[v] == mem[p][PX(0, v)])
  {
    var w := Leaf(mem, root, t, v);
  }

  /** Every table page is where its path says, and nowhere else. */
  lemma {:induction false} PathTo(mem: Mem, root: int, t: Tree, p: int, vpn: nat)
    requires Wf(mem, root, t) && vpn < NVPN
    requires p in t && t[p].idx == Up(t[p].level + 1, vpn)
    ensures TableAt(mem, root, t, t[p].level, vpn) == Some(p)
    decreases 2 - t[p].level
  {
    if p != root {
      assert HasParent(mem, t, p);
      var q :| LinkFrom(mem, t, q, p);
      PathTo(mem, root, t, q, vpn);
    }
  }

  /** No two table pages stand on the same path. */
  lemma TablesNotShared(mem: Mem, root: int, t: Tree, p: int, p': int, vpn: nat)
    requires Wf(mem, root, t) && vpn < NVPN
    requires p in t && p' in t && t[p] == t[p'] && t[p].idx == Up(t[p].level + 1, vpn)
    ensures p == p'
  {
    PathTo(mem, root, t, p, vpn);
    PathTo(mem, root, t, p', vpn);
  }

  // ---- writing one leaf ----

  lemma SetLeafWf(mem: Mem, root: int, t: Tree, p: int, i: nat, w: int)
    requires Wf(mem, root, t) && p in t && t[p].level == 0 && i < 512
    ensures Wf(Poke(mem, p, i, w), root, t)
  {
    var mem' := Poke(mem, p, i, w);
    forall c | c in t && c != root
      ensures t[c].level < 2 && HasParent(mem', t, c)
    {
      assert HasParent(mem, t, c);
      var q :| LinkFrom(mem, t, q, c);
      assert LinkFrom(mem', t, q, c);
    }
  }

  lemma {:induction false} SetLeafTables(mem: Mem, root: int, t: Tree, p: int, i: nat, w: int, level: nat, v: nat)
    requires Wf(mem, root, t) && p in t && t[p].level == 0 && i < 512
    requires Wf(Poke(mem, p, i, w), root, t) && v < NVPN && level <= 2
    ensures TableAt(Poke(mem, p, i, w), root, t, level, v) == TableAt(mem, root, t, level, v)
    decreases 2 - level
  {
    if level < 2 { SetLeafTables(mem, root, t, p, i, w, level + 1, v); }
  }

  lemma SetLeaf(mem: Mem, root: int, t: Tree, p: int, vpn: nat, w: int)
    requires Wf(mem, root, t) && vpn < NVPN && TableAt(mem, root, t, 0, vpn) == Some(p)
    ensures var mem' := Poke(mem, p, PX(0, vpn), w);
      && Wf(mem', root, t)
      && forall v | 0 <= v < NVPN ::
           Leaf(mem', root, t, v) == if v == vpn then w else Leaf(mem, root, t, v)
  {
    var mem' := Poke(mem, p, PX(0, vpn), w);
    SetLeafWf(mem, root, t, p, PX(0, vpn), w);
    forall v | 0 <= v < NVPN
      ensures Leaf(mem', root, t, v) == if v == vpn then w else Leaf(mem, root, t, v)
    {
      SetLeafTables(mem, root, t, p, PX(0, vpn), w, 0, v);
      assert Up(1, v) == v / 512 && Up(1, vpn) == vpn / 512;
    }
  }

  lemma SetFlat(mem: Mem, root: int, t: Tree, p: int, vpn: nat, w: int)
    requires Wf(mem, root, t) && vpn < NVPN && TableAt(mem, root, t, 0, vpn) == Some(p)
    ensures var mem' := Poke(mem, p, PX(0, vpn), w);
      && Wf(mem', root, t)
      && Flat(mem', root, t) == if Valid(w) then Flat(mem, root, t)[vpn := w] else Flat(mem, root, t) - {vpn}
  {
    SetLeaf(mem, root, t, p, vpn, w);
    var f := if Valid(w) then Flat(mem, root, t)[vpn := w] else Flat(mem, root, t) - {vpn};
    FlatUnique(Poke(mem, p, PX(0, vpn), w), root, t, f);
  }

  // ---- hanging a fresh zeroed table under an empty interior entry ----

  ghost predicate CanLink(mem: Mem, root: int, t: Tree, q: int, i: nat, c: int) {
    && Wf(mem, root, t) && q in t && t[q].level > 0 && i < 512 && !Valid(mem[q][i])
    && c !in t && c % PGSIZE == 0 && NodeOk(Node(t[q].level - 1, t[q].idx * 512 + i))
  }

  function Linked(mem: Mem, q: int, i: nat, c: int): Mem
    requires q in mem && i < |mem[q]| && q != c
  {
    Poke(mem[c := Filled(0)], q, i, Pte(c, PTE_V))
  }

  function LinkedTree(t: Tree, q: int, i: nat, c: int): Tree
    requires q in t && t[q].level > 0
  {
    t[c := Node(t[q].level - 1, t[q].idx * 512 + i)]
  }

  lemma LinkWf(mem: Mem, root: int, t: Tree, q: int, i: nat, c: int)
    requires CanLink(mem, root, t, q, i, c)
    ensures Wf(Linked(mem, q, i, c), root, LinkedTree(t, q, i, c))
  {
    var mem', t' := Linked(mem, q, i, c), LinkedTree(t, q, i, c);
    PteRoundTrip(c, PTE_V);
    forall p, k | p in t' && t'[p].level > 0 && 0 <= k < 512
      ensures EntryOk(t', t'[p], k, mem'[p][k])
    {
      if p != c { assert EntryOk(t, t[p], k, mem[p][k]); }
    }
    forall p | p in t' && p != root
      ensures t'[p].level < 2 && HasParent(mem', t', p)
    {
      if p == c {
        assert LinkFrom(mem', t', q, c);
      } else {
        assert HasParent(mem, t, p);
        var q' :| LinkFrom(mem, t, q', p);
        assert LinkFrom(mem', t', q', p);
      }
    }
  }

  /** The new table changes the walk only below its own entry, where there was nothing. */
  lemma {:induction false} LinkTables(mem: Mem, root: int, t: Tree, q: int, i: nat, c: int, level: nat, v: nat)
    requires CanLink(mem, root, t, q, i, c) && v < NVPN && level <= 2
    requires Wf(Linked(mem, q, i, c), root, LinkedTree(t, q, i, c))
    ensures var mem', t' := Linked(mem, q, i, c), LinkedTree(t, q, i, c);
      var was, now := TableAt(mem, root, t, level, v), TableAt(mem', root, t', level, v);
      was == now || (was == None && now == Some(c) && level == t[q].level - 1)
    decreases 2 - level
  {
    PteRoundTrip(c, PTE_V);
    if level < 2 { LinkTables(mem, root, t, q, i, c, level + 1, v); }
  }

  lemma LinkLeaf(mem: Mem, root: int, t: Tree, q: int, i: nat, c: int)
    requires CanLink(mem, root, t, q, i, c)
    ensures var mem', t' := Linked(mem, q, i, c), LinkedTree(t, q, i, c);
      && Wf(mem', root, t')
      && forall v | 0 <= v < NVPN :: Leaf(mem', root, t', v) == Leaf(mem, root, t, v)
  {
    var mem', t' := Linked(mem, q, i, c), LinkedTree(t, q, i, c);
    LinkWf(mem, root, t, q, i, c);
    forall v | 0 <= v < NVPN ensures Leaf(mem', root, t', v) == Leaf(mem, root, t, v) {
      LinkTables(mem, root, t, q, i, c, 0, v);
    }
  }

  /** One level of walk, when the entry is there and when it is not. */
  lemma Descend(mem: Mem, root: int, t: Tree, level: nat, v: nat, table: int)
    requires Wf(mem, root, t) && v < NVPN && 0 < level <= 2 && TableAt(mem, root, t, level, v) == Some(table)
    ensures Valid(mem[table][PX(level, v)]) ==>
      TableAt(mem, root, t, level - 1, v) == Some(Pa(mem[table][PX(level, v)]))
    ensures !Valid(mem[table][PX(level, v)]) ==> TableAt(mem, root, t, 0, v) == None
  {
    if level == 2 && !Valid(mem[table][PX(level, v)]) {
      assert TableAt(mem, root, t, 1, v) == None;
    }
  }

  /** The level of walk that adds a table. */
  lemma Grow(mem: Mem, root: int, t: Tree, level: nat, v: nat, table: int, page: int)
    requires Wf(mem, root, t) && v < NVPN && 0 < level <= 2 && TableAt(mem, root, t, level, v) == Some(table)
    requires !Valid(mem[table][PX(level, v)]) && page !in t && page % PGSIZE == 0
    ensures var mem', t' := Linked(mem, table, PX(level, v), page), LinkedTree(t, table, PX(level, v), page);
      && Wf(mem', root, t') && TableAt(mem', root, t', level - 1, v) == Some(page)
      && forall u | 0 <= u < NVPN :: Leaf(mem', root, t', u) == Leaf(mem, root, t, u)
  {
    PathNode(level, v);
    PathNode(level - 1, v);
    LinkLeaf(mem, root, t, table, PX(level, v), page);
    PathTo(Linked(mem, table, PX(level, v), page), root, LinkedTree(t, table, PX(level, v), page), page, v);
  }

  // ---- writes outside the tree ----

  lemma {:induction false} OutsideTables(mem: Mem, mem': Mem, root: int, t: Tree, level: nat, v: nat)
    requires Wf(mem, root, t) && Wf(mem', root, t) && v < NVPN && level <= 2
    requires forall p | p in t :: mem'[p] == mem[p]
    ensures TableAt(mem', root, t, level, v) == TableAt(mem, root, t, level, v)
    decreases 2 - level
  {
    if level < 2 { OutsideTables(mem, mem', root, t, level + 1, v); }
  }

  lemma Outside(mem: Mem, mem': Mem, root: int, t: Tree)
    requires Wf(mem, root, t) && forall p | p in t :: p in mem' && mem'[p] == mem[p]
    ensures Wf(mem', root, t) && Flat(mem', root, t) == Flat(mem, root, t)
    ensures forall v | 0 <= v < NVPN :: Leaf(mem', root, t, v) == Leaf(mem, root, t, v)
  {
    forall c | c in t && c != root ensures t[c].level < 2 && HasParent(mem', t, c) {
      assert HasParent(mem, t, c);
      var q :| LinkFrom(mem, t, q, c);
      assert LinkFrom(mem', t, q, c);
    }
    assert Wf(mem', root, t);
    forall v | 0 <= v < NVPN ensures Leaf(mem', root, t, v) == Leaf(mem, root, t, v) {
      OutsideTables(mem, mem', root, t, 0, v);
    }
    FlatUnique(mem', root, t, Flat(mem, root, t));
  }

  /** A zeroed root page alone is a tree that maps nothing. */
  lemma EmptyTree(mem: Mem, root: int)
    requires PageOk(mem, root) && mem[root] == Filled(0)
    ensures Wf(mem, root, map[root := Node(2, 0)]) && Flat(mem, root, map[root := Node(2, 0)]) == map[]
  {
    var t: Tree := map[root := Node(2, 0)];
    assert Wf(mem, root, t);
    forall v: nat | v < NVPN ensures Leaf(mem, root, t, v) == 0 {
      Descend(mem, root, t, 2, v, root);
    }
    FlatUnique(mem, root, t, map[]);
  }

  // ---- subtrees ----

  ghost predicate Below(m: Node, n: Node) {
    m.level <= n.level <= 2 && Up(n.level - m.level, m.idx) == n.idx
  }

  ghost function Child(n: Node, i: nat): Node
    requires n.level > 0
  {
    Node(n.level - 1, n.idx * 512 + i)
  }

  ghost function Sub(t: Tree, n: Node): Tree { map q | q in t && Below(t[q], n) :: t[q] }

  /** `t` is the whole tree hanging from table `p`, which stands at node `n`. */
  ghost predicate SubWf(mem: Mem, p: int, t: Tree, n: Node) {
    && p in t && t[p] == n
    && (forall q | q in t :: PageOk(mem, q) && Below(t[q], n))
    && (forall q, i {:trigger EntryOk(t, t[q], i, mem[q][i])} | q in t && t[q].level > 0 && 0 <= i < 512 ::
          EntryOk(t, t[q], i, mem[q][i]))
    && (forall q | q in t && q != p :: t[q].level < n.level)
    && (forall q {:trigger HasParent(mem, t, q)} | q in t && q != p :: HasParent(mem, t, q))
  }

  ghost predicate NoLeaf(mem: Mem, t: Tree) {
    forall q, i | q in t && PageOk(mem, q) && t[q].level == 0 && 0 <= i < 512 :: !Valid(mem[q][i])
  }

  lemma UpShift(d: nat, y: nat)
    requires d <= 2
    ensures Up(d + 1, y) == Up(d, y / 512)
  {
    if d > 0 { assert Up(1, y) == y / 512 && Up(2, y) == Up(1, y) / 512 && Up(1, y / 512) == y / 512 / 512; }
  }

  lemma ChildBelow(m: Node, n: Node, i: nat)
    requires Below(m, n) && 0 < m.level && i < 512
    ensures Below(Child(m, i), n)
  {
    UpShift(n.level - m.level, m.idx * 512 + i);
  }

  lemma ParentBelow(m: Node, n: Node)
    requires Below(m, n) && m.level < n.level
    ensures Below(Node(m.level + 1, m.idx / 512), n)
  {
    UpShift(n.level - m.level - 1, m.idx);
  }

  /** The one page at a child node is the one the parent's entry points at. */
  lemma ChildPage(mem: Mem, p: int, t: Tree, n: Node, i: nat, q: int)
    requires SubWf(mem, p, t, n) && n.level > 0 && i < 512 && q in t && t[q] == Child(n, i)
    ensures Valid(mem[p][i]) && Pa(mem[p][i]) == q
  {
    assert HasParent(mem, t, q);
    var r :| LinkFrom(mem, t, r, q);
    assert (n.idx * 512 + i) % 512 == i;
  }

  lemma {:induction false} SubNone(mem: Mem, p: int, t: Tree, n: Node, i: nat, q: int)
    requires SubWf(mem, p, t, n) && n.level > 0 && i < 512 && q in t && Below(t[q], Child(n, i))
    ensures Valid(mem[p][i])
    decreases n.level - t[q].level
  {
    if t[q].level == n.level - 1 {
      ChildPage(mem, p, t, n, i, q);
    } else {
      assert HasParent(mem, t, q);
      var r :| LinkFrom(mem, t, r, q);
      ParentBelow(t[q], Child(n, i));
      SubNone(mem, p, t, n, i, r);
    }
  }

  lemma SubChild(mem: Mem, p: int, t: Tree, n: Node, i: nat)
    requires SubWf(mem, p, t, n) && n.level > 0 && i < 512 && Valid(mem[p][i])
    ensures SubWf(mem, Pa(mem[p][i]), Sub(t, Child(n, i)), Child(n, i))
    ensures NoAccess(mem[p][i])
  {
    var c, s, m := Pa(mem[p][i]), Sub(t, Child(n, i)), Child(n, i);
    assert EntryOk(t, t[p], i, mem[p][i]);
    WordDigits(mem[p][i] / 1024, 1);
    forall q, k | q in s && s[q].level > 0 && 0 <= k < 512 ensures EntryOk(s, s[q], k, mem[q][k]) {
      assert EntryOk(t, t[q], k, mem[q][k]);
      ChildBelow(t[q], m, k);
    }
    forall q | q in s && q != c ensures s[q].level < m.level && HasParent(mem, s, q) {
      if s[q].level == m.level { ChildPage(mem, p, t, n, i, q); }
      assert HasParent(mem, t, q);
      var r :| LinkFrom(mem, t, r, q);
      ParentBelow(t[q], m);
      assert LinkFrom(mem, s, r, q);
    }
  }

  lemma SubFrame(mem: Mem, mem': Mem, p: int, t: Tree, n: Node)
    requires SubWf(mem, p, t, n) && forall q | q in t :: q in mem' && mem'[q] == mem[q]
    ensures SubWf(mem', p, t, n)
  {
    forall q | q in t && q != p ensures t[q].level < n.level && HasParent(mem', t, q) {
      assert HasParent(mem, t, q);
      var r :| LinkFrom(mem, t, r, q);
      assert LinkFrom(mem', t, r, q);
    }
  }

  /** The pages under the first `i` entries of a table at `n`. */
  ghost predicate InPart(t: Tree, n: Node, i: nat, q: int) {
    q in t && t[q].level < n.level <= 2 && Up(n.level - 1 - t[q].level, t[q].idx) < n.idx * 512 + i
  }

  lemma PartStep(mem: Mem, p: int, t: Tree, n: Node, i: nat, q: int)
    requires SubWf(mem, p, t, n) && n.level > 0 && i < 512
    ensures !InPart(t, n, 0, q) && (InPart(t, n, 512, q) <==> q in t && q != p)
    ensures InPart(t, n, i + 1, q) <==> InPart(t, n, i, q) || q in Sub(t, Child(n, i))
    ensures !(InPart(t, n, i, q) && q in Sub(t, Child(n, i)))
  {
    if q in t && q != p {
      assert HasParent(mem, t, q);
      var d := n.level - 1 - t[q].level;
      assert Up(d + 1, t[q].idx) == Up(d, t[q].idx) / 512;
    }
  }

  /** A whole tree is the subtree of its root; when it maps nothing it has no leaves. */
  lemma WholeSub(mem: Mem, root: int, t: Tree)
    requires Wf(mem, root, t) && Flat(mem, root, t) == map[]
    ensures SubWf(mem, root, t, Node(2, 0)) && NoLeaf(mem, t)
  {
    forall q | q in t ensures PageOk(mem, q) && Below(t[q], Node(2, 0)) {
      assert Up(1, t[q].idx) == t[q].idx / 512 && Up(2, t[q].idx) == Up(1, t[q].idx) / 512;
    }
    forall q, i | q in t && t[q].level == 0 && 0 <= i < 512 ensures !Valid(mem[q][i]) {
      var v := t[q].idx * 512 + i;
      assert Up(1, v) == v / 512;
      PathTo(mem, root, t, q, v);
      FlatAt(mem, root, t, v);
    }
  }
}
