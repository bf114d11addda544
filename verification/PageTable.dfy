/** Four-level page tables as values, hal/x86/halmmu.c and include/halinc/halmmu.h, in the layout of
    section 4.5 of the Intel 64 and IA-32 Architectures Software Developer's Manual, Volume 3A.
    Level 0 is the root (tdir), then sdir, idir and mdir; an mdir entry points to a page. */
module PageTable {
  import opened Bits
  import opened Lists
  import opened Options

  const ENTRIES: nat := 512
  const PAGE: nat := 0x1000
  const ADDRESS_LIMIT: nat := 0x10_0000_0000_0000 // 2^52
  const USER_LIMIT: nat := 0x8000_0000_0000       // 2^47
  const USER_SLOTS: nat := 256

  // ---------------------------------------------------------------- indices and entries

  /** 2^39, 2^30, 2^21 and 2^12: dividing by it is the right shift of mmu_tdire_index and the others. */
  function Divisor(l: nat): (d: nat)
    requires l < 4
    ensures d > 0
  {
    if l == 0 then 0x80_0000_0000 else if l == 1 then 0x4000_0000 else if l == 2 then 0x20_0000 else 0x1000
  }

  function Index(v: nat, l: nat): (i: nat)
    requires l < 4
    ensures i < ENTRIES
  {
    var i := BitAnd(v / Divisor(l), 0x1ff);
    MaskNine(v / Divisor(l));
    i
  }

  lemma MaskNine(n: nat)
    ensures BitAnd(n, 0x1ff) == n % 512
  {
    MaskLow(n, 9);
    assert Pow2(9) == 512;
  }

  /** The four indices of a user address determine its page, and nothing else. */
  lemma IndicesArePage(v: nat, w: nat)
    requires v < USER_LIMIT && w < USER_LIMIT
    ensures (forall l :: 0 <= l < 4 ==> Index(v, l) == Index(w, l)) <==> v / PAGE == w / PAGE
    ensures Index(v, 0) < USER_SLOTS
  {
    hide Index;
    IndexDigits(v);
    IndexDigits(w);
    FourDigits(v / PAGE);
    FourDigits(w / PAGE);
    if forall l :: 0 <= l < 4 ==> Index(v, l) == Index(w, l) {
      assert Index(v, 0) == Index(w, 0) && Index(v, 1) == Index(w, 1) && Index(v, 2) == Index(w, 2)
        && Index(v, 3) == Index(w, 3);
    }
  }

  lemma FourDigits(n: nat)
    ensures n == n / 0x800_0000 * 0x800_0000 + n / 0x4_0000 % 512 * 0x4_0000 + n / 512 % 512 * 512 + n % 512
  {
    var a, b := n / 512, n / 0x4_0000;
    assert a / 512 == b && b / 512 == n / 0x800_0000;
  }

  lemma IndexDigits(v: nat)
    requires v < USER_LIMIT
    ensures Index(v, 0) == (v / PAGE) / 0x800_0000 < USER_SLOTS
    ensures Index(v, 1) == (v / PAGE) / 0x4_0000 % 512
    ensures Index(v, 2) == (v / PAGE) / 512 % 512
    ensures Index(v, 3) == (v / PAGE) % 512
  {
    forall l | 0 <= l < 4 ensures Index(v, l) == v / Divisor(l) % 512 {
      MaskNine(v / Divisor(l));
    }
    assert v / 0x80_0000_0000 == (v / PAGE) / 0x800_0000;
    assert v / 0x4000_0000 == (v / PAGE) / 0x4_0000;
    assert v / 0x20_0000 == (v / PAGE) / 512;
  }

  /** The 40-bit address field of an entry. */
  function Field(e: nat): (f: nat) { (e / PAGE) % 0x100_0000_0000 }

  /** sdire_is_have, idire_is_have, mdire_is_have and mmumsa_is_have */
  predicate Have(e: nat) { Field(e) > 0 }

  /** sdire_ret_padr and the others */
  function Target(e: nat): (p: nat) { Field(e) * PAGE }

  function Entry(p: nat, flags: nat): (e: nat) { BitOr(p, flags) }

  predicate IsPage(p: nat) { p % PAGE == 0 && 0 < p < ADDRESS_LIMIT }

  /** Packing an address with flags and unpacking it gives the address back. */
  lemma EntryRoundTrip(p: nat, flags: nat)
    requires IsPage(p) && flags < PAGE
    ensures Have(Entry(p, flags)) && Target(Entry(p, flags)) == p
    ensures Entry(p, flags) != 0 && Entry(p, flags) % PAGE == flags && Entry(p, flags) / PAGE == p / PAGE
  {
    hide BitOr;
    assert Entry(p, flags) == p + flags by {
      assert Pow2(12) == PAGE;
      OrIsAdd(p, flags, 12);
    }
    var e := p + flags;
    assert e / PAGE == p / PAGE;
    assert p / PAGE < 0x100_0000_0000;
  }

  // ---------------------------------------------------------------- the tables of one address space

  /** Where a table hangs: its level, the table above it and the slot there. */
  datatype Node = Node(level: nat, parent: nat, slot: nat)

  /** `mem` holds the table pages this space created, by physical address; `lists[l]` is the list of
      its table pages of level l (`mud_tdirhead` and so on), front first; `own` places each table. */
  datatype Space = Space(root: nat, mem: map<nat, seq<nat>>, lists: seq<seq<nat>>, own: map<nat, Node>)

  /** mdirearr_is_allzero and the others */
  predicate AllZero(t: seq<nat>) {
    forall i :: 0 <= i < |t| ==> t[i] == 0
  }

  ghost function LevelOf(sp: Space, x: nat): (l: nat) {
    if x in sp.own then sp.own[x].level else 0
  }

  /** Slot i of table y is under the control of this space; the upper half of the root is not. */
  ghost predicate Slot(sp: Space, y: nat, i: nat) {
    y in sp.mem && i < ENTRIES && i < |sp.mem[y]| && (y == sp.root ==> i < USER_SLOTS)
  }

  ghost predicate Pages(sp: Space) {
    && |sp.lists| == 4 && sp.root !in sp.own
    && sp.mem.Keys == sp.own.Keys + {sp.root}
    && (forall x :: x in sp.mem ==> |sp.mem[x]| == ENTRIES && IsPage(x))
  }

  ghost predicate Parents(sp: Space) {
    forall x :: x in sp.own ==>
      var n := sp.own[x];
      && 1 <= n.level <= 3
      && Slot(sp, n.parent, n.slot)
      && LevelOf(sp, n.parent) == n.level - 1
      && Have(sp.mem[n.parent][n.slot]) && Target(sp.mem[n.parent][n.slot]) == x
  }

  ghost predicate Children(sp: Space) {
    forall y: nat, i: nat :: Slot(sp, y, i) && LevelOf(sp, y) < 3 && Have(sp.mem[y][i]) ==>
      Target(sp.mem[y][i]) in sp.own && sp.own[Target(sp.mem[y][i])] == Node(LevelOf(sp, y) + 1, y, i)
  }

  ghost predicate Tidy(sp: Space) {
    forall y: nat, i: nat :: Slot(sp, y, i) && !Have(sp.mem[y][i]) ==> sp.mem[y][i] == 0
  }

  ghost predicate Listed(sp: Space) {
    && |sp.lists| == 4 && sp.lists[0] == [sp.root]
    && (forall l :: 1 <= l < 4 ==> NoDup(sp.lists[l]))
    && (forall l, x :: 1 <= l < 4 ==> (x in sp.lists[l] <==> x in sp.own && sp.own[x].level == l))
  }

  /** The tables form a tree of four levels, each table referenced by exactly one slot. */
  ghost predicate Tree(sp: Space) {
    Pages(sp) && Parents(sp) && Children(sp) && Tidy(sp) && Listed(sp)
  }

  /** No table below the root, except possibly x, is all zero. */
  ghost predicate NoEmpty(sp: Space, x: Option<nat>) {
    forall y :: y in sp.own && x != Some(y) && y in sp.mem ==> !AllZero(sp.mem[y])
  }

  // ---------------------------------------------------------------- lookup

  /** mmu_find_sdirearr and the others: the table of level l on the path of v; for l == 4 the page. */
  function Find(sp: Space, v: nat, l: nat): (r: Option<nat>)
    requires l <= 4
    decreases l
  {
    if l == 0 then Some(sp.root)
    else
      var y := Find(sp, v, l - 1);
      if y.None? || y.value !in sp.mem || |sp.mem[y.value]| != ENTRIES then None
      else
        var e := sp.mem[y.value][Index(v, l - 1)];
        if Have(e) then Some(Target(e)) else None
  }

  function Translate(sp: Space, v: nat): (r: Option<nat>) {
    Find(sp, v, 4)
  }

  lemma {:induction false} FindOwned(sp: Space, v: nat, l: nat)
    requires Tree(sp) && v < USER_LIMIT && l < 4 && Find(sp, v, l).Some?
    ensures var x := Find(sp, v, l).value;
      && x in sp.mem && LevelOf(sp, x) == l && Slot(sp, x, Index(v, l))
      && (l > 0 ==> x in sp.own && sp.own[x].slot == Index(v, l - 1) && Find(sp, v, l - 1) == Some(sp.own[x].parent))
  {
    hide Have, Target, Index;
    IndicesArePage(v, v);
    if l > 0 {
      FindOwned(sp, v, l - 1);
      var y := Find(sp, v, l - 1).value;
      assert Slot(sp, y, Index(v, l - 1));
    }
  }

  /** Two addresses that reach the same table agree on every index above it. */
  lemma {:induction false} SameTable(sp: Space, v: nat, w: nat, l: nat)
    requires Tree(sp) && v < USER_LIMIT && w < USER_LIMIT && l < 4
    requires Find(sp, v, l).Some? && Find(sp, v, l) == Find(sp, w, l)
    ensures forall j :: 0 <= j < l ==> Index(v, j) == Index(w, j)
  {
    hide Have, Target, Index, Tree;
    if l > 0 {
      FindOwned(sp, v, l);
      FindOwned(sp, w, l);
      SameTable(sp, v, w, l - 1);
    }
  }

  // ---------------------------------------------------------------- elementary steps

  function ZeroTable(): (t: seq<nat>)
    ensures |t| == ENTRIES && forall i :: 0 <= i < ENTRIES ==> t[i] == 0
  {
    seq(ENTRIES, _ => 0)
  }

  function Write(mem: map<nat, seq<nat>>, y: nat, i: nat, e: nat): (r: map<nat, seq<nat>>)
    requires y in mem && i < |mem[y]|
  {
    var t: seq<nat> := mem[y][i := e];
    mem[y := t]
  }

  function Drop(l: seq<nat>, x: nat): (r: seq<nat>)
  {
    var i := IndexOf(l, x);
    if i < |l| then Without(l, i) else l
  }

  /** Hang a fresh zero table x of level l into slot i of table y. */
  function Link(sp: Space, y: nat, i: nat, x: nat, l: nat, e: nat): (r: Space)
    requires y in sp.mem && i < |sp.mem[y]| && l < |sp.lists|
  {
    Space(sp.root, Write(sp.mem, y, i, e)[x := ZeroTable()], sp.lists[l := [x] + sp.lists[l]],
      sp.own[x := Node(l, y, i)])
  }

  /** Take table x out of the tree and clear the slot that points to it. */
  function Unlink(sp: Space, x: nat): (r: Space)
    requires x in sp.own && sp.own[x].level < |sp.lists|
    requires var n := sp.own[x]; n.parent in sp.mem && n.slot < |sp.mem[n.parent]|
  {
    var n := sp.own[x];
    Space(sp.root, Write(sp.mem, n.parent, n.slot, 0) - {x}, sp.lists[n.level := Drop(sp.lists[n.level], x)],
      sp.own - {x})
  }

  /** Write an entry of an mdir table. */
  function Leaf(sp: Space, y: nat, i: nat, e: nat): (r: Space)
    requires y in sp.mem && i < |sp.mem[y]|
  {
    sp.(mem := Write(sp.mem, y, i, e))
  }

  /** A slot that can take a new table x of level l. */
  ghost predicate CanLink(sp: Space, y: nat, i: nat, x: nat, l: nat, e: nat) {
    && Slot(sp, y, i) && 1 <= l <= 3 && LevelOf(sp, y) == l - 1 && !Have(sp.mem[y][i])
    && x !in sp.mem && IsPage(x) && Have(e) && Target(e) == x
  }

  lemma LinkListed(sp: Space, y: nat, i: nat, x: nat, l: nat, e: nat)
    requires Tree(sp) && CanLink(sp, y, i, x, l, e)
    ensures Listed(Link(sp, y, i, x, l, e))
  {
    hide Have, Target, IsPage, Parents, Children, Tidy;
    var sp' := Link(sp, y, i, x, l, e);
    forall k | 1 <= k < 4 ensures NoDup(sp'.lists[k]) {
      assert NoDup(sp.lists[k]) && x !in sp.lists[k];
    }
  }

  lemma LinkPages(sp: Space, y: nat, i: nat, x: nat, l: nat, e: nat)
    requires Tree(sp) && CanLink(sp, y, i, x, l, e)
    ensures y in sp.mem && i < |sp.mem[y]| && 1 <= l <= 3 && |sp.lists| == 4
    ensures var sp' := Link(sp, y, i, x, l, e);
      && Pages(sp') && x !in sp.own && y != x
      && (forall z :: z in sp.mem ==> LevelOf(sp', z) == LevelOf(sp, z)) && LevelOf(sp', x) == l
      && (forall z: nat, j: nat :: Slot(sp', z, j) <==> Slot(sp, z, j) || (z == x && j < ENTRIES))
      && (forall z: nat, j: nat :: Slot(sp, z, j) ==> sp'.mem[z][j] == if z == y && j == i then e else sp.mem[z][j])
      && (forall j :: 0 <= j < ENTRIES ==> sp'.mem[x][j] == 0)
  {
    hide Have, Target, IsPage, Parents, Children, Tidy, Listed;
    var sp' := Link(sp, y, i, x, l, e);
    assert sp'.mem.Keys == sp.mem.Keys + {x};
  }

  lemma LinkTree(sp: Space, y: nat, i: nat, x: nat, l: nat, e: nat)
    requires Tree(sp) && CanLink(sp, y, i, x, l, e)
    ensures Tree(Link(sp, y, i, x, l, e))
  {
    hide Pages, Parents, Children, Tidy, Listed;
    LinkPages(sp, y, i, x, l, e);
    LinkListed(sp, y, i, x, l, e);
    LinkParents(sp, y, i, x, l, e);
    LinkChildren(sp, y, i, x, l, e);
  }

  lemma LinkParents(sp: Space, y: nat, i: nat, x: nat, l: nat, e: nat)
    requires Tree(sp) && CanLink(sp, y, i, x, l, e)
    ensures Parents(Link(sp, y, i, x, l, e))
  {
    hide Have, Target, IsPage, Listed, Children;
    var sp' := Link(sp, y, i, x, l, e);
    LinkPages(sp, y, i, x, l, e);
    forall z | z in sp'.own
      ensures var n := sp'.own[z];
        && 1 <= n.level <= 3 && Slot(sp', n.parent, n.slot) && LevelOf(sp', n.parent) == n.level - 1
        && Have(sp'.mem[n.parent][n.slot]) && Target(sp'.mem[n.parent][n.slot]) == z
    {
      if z != x {
        var n := sp.own[z];
        assert Slot(sp, n.parent, n.slot);
      }
    }
  }

  lemma LinkChildren(sp: Space, y: nat, i: nat, x: nat, l: nat, e: nat)
    requires Tree(sp) && CanLink(sp, y, i, x, l, e)
    ensures Children(Link(sp, y, i, x, l, e)) && Tidy(Link(sp, y, i, x, l, e))
  {
    hide Target, IsPage, Listed;
    LinkPages(sp, y, i, x, l, e);
    assert !Have(0);
  }

  /** A new table changes no lookup except that its own slot now leads to it. */
  lemma {:induction false} LinkFind(sp: Space, y: nat, i: nat, x: nat, l: nat, e: nat, w: nat, j: nat)
    requires Tree(sp) && CanLink(sp, y, i, x, l, e) && w < USER_LIMIT && j <= 4
    ensures y in sp.mem && i < |sp.mem[y]| && 1 <= l <= 3 && |sp.lists| == 4
    ensures Find(Link(sp, y, i, x, l, e), w, j) ==
      if j == l && Find(sp, w, l - 1) == Some(y) && Index(w, l - 1) == i then Some(x) else Find(sp, w, j)
    decreases j
  {
    hide Tree, CanLink, Target, Have, Index, IsPage;
    LinkPages(sp, y, i, x, l, e);
    if j > 0 {
      LinkFind(sp, y, i, x, l, e, w, j - 1);
      LinkFindStep(sp, y, i, x, l, e, w, j);
    }
  }

  lemma LinkFindStep(sp: Space, y: nat, i: nat, x: nat, l: nat, e: nat, w: nat, j: nat)
    requires Tree(sp) && CanLink(sp, y, i, x, l, e) && w < USER_LIMIT && 0 < j <= 4 && |sp.lists| == 4
    requires Find(Link(sp, y, i, x, l, e), w, j - 1) ==
      if j - 1 == l && Find(sp, w, l - 1) == Some(y) && Index(w, l - 1) == i then Some(x) else Find(sp, w, j - 1)
    ensures Find(Link(sp, y, i, x, l, e), w, j) ==
      if j == l && Find(sp, w, l - 1) == Some(y) && Index(w, l - 1) == i then Some(x) else Find(sp, w, j)
  {
    hide Target, Have, IsPage, Index, Tree, Slot;
    LinkPages(sp, y, i, x, l, e);
    var sp', z := Link(sp, y, i, x, l, e), Find(sp, w, j - 1);
    NoEntry();
    if z.Some? {
      FindOwned(sp, w, j - 1);
      assert Slot(sp', z.value, Index(w, j - 1));
    }
  }

  // removing a table

  /** What the tree says of one table. */
  lemma Placement(sp: Space, x: nat)
    requires Tree(sp) && x in sp.own
    ensures var n := sp.own[x];
      && 1 <= n.level <= 3 && Slot(sp, n.parent, n.slot) && LevelOf(sp, n.parent) == n.level - 1
      && Have(sp.mem[n.parent][n.slot]) && Target(sp.mem[n.parent][n.slot]) == x
      && |sp.lists| == 4 && n.parent != x && x != sp.root
  {
    hide Have, Target, IsPage, Children, Tidy;
  }

  ghost predicate CanUnlink(sp: Space, x: nat) {
    x in sp.own && x in sp.mem && AllZero(sp.mem[x])
  }

  lemma DropMembers(l: seq<nat>, x: nat)
    requires NoDup(l)
    ensures NoDup(Drop(l, x))
    ensures forall z :: z in Drop(l, x) <==> z in l && z != x
  {
    if IndexOf(l, x) < |l| {
      WithoutMembers(l, IndexOf(l, x));
    }
  }

  lemma UnlinkListed(sp: Space, x: nat)
    requires Tree(sp) && CanUnlink(sp, x)
    ensures |sp.lists| == 4 && sp.own[x].level < 4 && Slot(sp, sp.own[x].parent, sp.own[x].slot)
      && Listed(Unlink(sp, x))
  {
    hide Have, Target, Slot, Pages, Parents, Children, Tidy, NoDup, Drop;
    Placement(sp, x);
    assert NoDup(sp.lists[sp.own[x].level]);
    DropMembers(sp.lists[sp.own[x].level], x);
  }

  lemma UnlinkPages(sp: Space, x: nat)
    requires Tree(sp) && CanUnlink(sp, x)
    ensures var n := sp.own[x];
      && Slot(sp, n.parent, n.slot) && |sp.lists| == 4 && n.level < 4
      && var sp' := Unlink(sp, x);
      && Pages(sp') && n.parent != x && n.parent in sp'.mem
      && (forall z :: z in sp'.mem ==> LevelOf(sp', z) == LevelOf(sp, z))
      && (forall z: nat, j: nat :: Slot(sp', z, j) <==> Slot(sp, z, j) && z != x)
      && (forall z: nat, j: nat :: Slot(sp', z, j) ==>
          sp'.mem[z][j] == if z == n.parent && j == n.slot then 0 else sp.mem[z][j])
  {
    hide Have, Target, IsPage, Parents, Children, Tidy, Listed;
    Placement(sp, x);
    assert Unlink(sp, x).mem.Keys == sp.mem.Keys - {x};
  }

  /** An empty table has no children: no table hangs below it. */
  lemma NoChildren(sp: Space, x: nat, z: nat)
    requires Tree(sp) && CanUnlink(sp, x) && z in sp.own
    ensures sp.own[z].parent != x
  {
    hide Target, IsPage, Tidy, Listed, Children;
    assert !Have(0);
  }

  lemma UnlinkTree(sp: Space, x: nat)
    requires Tree(sp) && CanUnlink(sp, x)
    ensures Tree(Unlink(sp, x))
  {
    hide Pages, Parents, Children, Tidy, Listed;
    UnlinkListed(sp, x);
    UnlinkPages(sp, x);
    UnlinkParents(sp, x);
    UnlinkChildren(sp, x);
  }

  lemma UnlinkParents(sp: Space, x: nat)
    requires Tree(sp) && CanUnlink(sp, x)
    ensures Parents(Unlink(sp, x))
  {
    hide Have, Target, IsPage, Tidy, Listed, Children;
    var sp' := Unlink(sp, x);
    UnlinkPages(sp, x);
    forall z | z in sp'.own
      ensures var n := sp'.own[z];
        && 1 <= n.level <= 3 && Slot(sp', n.parent, n.slot) && LevelOf(sp', n.parent) == n.level - 1
        && Have(sp'.mem[n.parent][n.slot]) && Target(sp'.mem[n.parent][n.slot]) == z
    {
      NoChildren(sp, x, z);
      assert Slot(sp, sp.own[z].parent, sp.own[z].slot);
    }
  }

  lemma UnlinkChildren(sp: Space, x: nat)
    requires Tree(sp) && CanUnlink(sp, x)
    ensures Children(Unlink(sp, x)) && Tidy(Unlink(sp, x))
  {
    hide Target, Have, IsPage, Listed, Parents, Slot, Pages;
    NoEntry();
    Placement(sp, x);
    UnlinkPages(sp, x);
  }

  /** Removing an empty table changes no lookup except the one that led to it. */
  lemma {:induction false} UnlinkFind(sp: Space, x: nat, w: nat, j: nat)
    requires Tree(sp) && CanUnlink(sp, x) && w < USER_LIMIT && j <= 4
    ensures |sp.lists| == 4 && sp.own[x].level < 4 && Slot(sp, sp.own[x].parent, sp.own[x].slot)
    ensures Find(Unlink(sp, x), w, j) == if j == sp.own[x].level && Find(sp, w, j) == Some(x) then None
      else Find(sp, w, j)
    decreases j
  {
    hide Tree;
    Placement(sp, x);
    if j > 0 {
      UnlinkFind(sp, x, w, j - 1);
      UnlinkFindStep(sp, x, w, j);
    }
  }

  lemma UnlinkFindStep(sp: Space, x: nat, w: nat, j: nat)
    requires Tree(sp) && CanUnlink(sp, x) && w < USER_LIMIT && 0 < j <= 4
    requires |sp.lists| == 4 && sp.own[x].level < 4 && Slot(sp, sp.own[x].parent, sp.own[x].slot)
    requires Find(Unlink(sp, x), w, j - 1) ==
      if j - 1 == sp.own[x].level && Find(sp, w, j - 1) == Some(x) then None else Find(sp, w, j - 1)
    ensures Find(Unlink(sp, x), w, j) == if j == sp.own[x].level && Find(sp, w, j) == Some(x) then None
      else Find(sp, w, j)
  {
    hide Target, Have, IsPage, Index, Tree;
    var sp', n := Unlink(sp, x), sp.own[x];
    var z := Find(sp, w, j - 1);
    NoEntry();
    Placement(sp, x);
    UnlinkPages(sp, x);
    if z.Some? {
      FindOwned(sp, w, j - 1);
      var y, i := z.value, Index(w, j - 1);
      assert Slot(sp, y, i);
      if j < 4 && Find(sp, w, j).Some? {
        FindOwned(sp, w, j);
      }
      if y == x {
        assert sp.mem[x][i] == 0;
      } else {
        assert Slot(sp', y, i);
      }
    }
  }

  lemma NoEntry()
    ensures !Have(0)
  {
  }

  // writing a page entry

  lemma LeafSlots(sp: Space, y: nat, i: nat, e: nat)
    requires Pages(sp) && y in sp.own && i < ENTRIES
    ensures var sp' := Leaf(sp, y, i, e);
      && Pages(sp')
      && (forall z: nat, j: nat :: Slot(sp', z, j) <==> Slot(sp, z, j))
      && (forall z :: LevelOf(sp', z) == LevelOf(sp, z))
      && (forall z: nat, j: nat :: Slot(sp, z, j) ==> sp'.mem[z][j] == if z == y && j == i then e else sp.mem[z][j])
  {
    hide IsPage;
    assert Leaf(sp, y, i, e).mem.Keys == sp.mem.Keys;
  }

  lemma LeafTree(sp: Space, y: nat, i: nat, e: nat)
    requires Tree(sp) && y in sp.own && LevelOf(sp, y) == 3 && i < ENTRIES && (e == 0 || Have(e))
    ensures Tree(Leaf(sp, y, i, e))
  {
    hide Target, IsPage, Have, Pages, Slot;
    LeafSlots(sp, y, i, e);
  }

  lemma {:induction false} LeafFind(sp: Space, y: nat, i: nat, e: nat, w: nat, j: nat)
    requires Tree(sp) && y in sp.own && LevelOf(sp, y) == 3 && i < ENTRIES && w < USER_LIMIT && j <= 4
    ensures Find(Leaf(sp, y, i, e), w, j) ==
      if j == 4 && Find(sp, w, 3) == Some(y) && Index(w, 3) == i then (if Have(e) then Some(Target(e)) else None)
      else Find(sp, w, j)
    decreases j
  {
    hide Target, Have, IsPage, Index, Tidy, Listed, Children, Parents;
    if j > 0 {
      LeafFind(sp, y, i, e, w, j - 1);
      if Find(sp, w, j - 1).Some? {
        FindOwned(sp, w, j - 1);
      }
    }
  }
}
