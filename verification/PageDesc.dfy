/** The page descriptors `msadsc_t` and how their flags record a block: only the first and the
    last descriptor of a block carry its shape. Every change hal/x86/memdivmer.c makes to them is
    an update of the descriptor array; each lemma ties one such update to the step of the pool. */
module PageDesc {
  import opened Bits
  import opened PagePool

  /** `mf_olkty`: what `md_odlink` means. */
  datatype LinkType = Init | Oder | Bafh

  /** `md_odlink`: null, the last descriptor of the block, or the list the block belongs to. */
  datatype Link = Null | Page(index: nat) | List(order: nat)

  datatype Desc = Desc(olkty: LinkType, odlink: Link, marty: nat, mocty: nat, uindx: nat, alloc: bool, padrs: nat)

  function Last(s: nat, k: nat): (e: nat) { s + Pow2(k) - 1 }

  /** Unused descriptors from s to e. */
  ghost predicate Quiet(a: seq<Desc>, s: nat, e: nat) {
    e < |a| && forall q :: s <= q <= e ==> a[q].uindx == 0 && !a[q].alloc
  }

  ghost predicate FreeShape(a: seq<Desc>, s: nat, k: nat) {
    var e := Last(s, k);
    && Quiet(a, s, e)
    && a[e].olkty == Bafh && a[e].odlink == List(k)
    && (k > 0 ==> a[s].olkty == Oder && a[s].odlink == Page(e))
  }

  ghost predicate LiveShape(a: seq<Desc>, s: nat, k: nat) {
    var e := Last(s, k);
    && e < |a|
    && a[s].olkty == Oder && a[s].odlink == Page(e)
    && a[s].uindx == 1 && a[s].alloc && a[e].uindx == 1 && a[e].alloc
    && (forall q :: s < q < e ==> a[q].uindx == 0 && !a[q].alloc)
  }

  /** A block taken off a list and being cut down. */
  ghost predicate CutShape(a: seq<Desc>, s: nat, k: nat) {
    var e := Last(s, k);
    && Quiet(a, s, e)
    && ((a[s].olkty == Oder && a[s].odlink == Page(e)) || (k == 0 && a[s].olkty == Bafh && a[s].odlink == List(0)))
  }

  ghost predicate IsHead(p: Pool, q: nat) {
    exists k: nat :: IsBlock(p, q, k)
  }

  /** A link to the last page of a block stays inside the array. */
  ghost predicate LinksInside(a: seq<Desc>) {
    forall q :: 0 <= q < |a| && a[q].olkty == Oder ==> a[q].odlink.Page? && a[q].odlink.index < |a|
  }

  /** The descriptors agree with the pool, except for a block h in transit (none when h is -1). */
  ghost predicate Described(a: seq<Desc>, area: nat, managed: set<nat>, p: Pool, h: int) {
    && (forall s, k :: IsFree(p, s, k) ==> FreeShape(a, s, k))
    && (forall s :: s in p.live && s != h ==> LiveShape(a, s, p.live[s]))
    && (forall q: nat :: q < |a| && a[q].marty == area && a[q].olkty == Oder ==> IsHead(p, q))
    && (forall q :: q in managed ==> q < |a| && a[q].marty == area)
    && LinksInside(a)
  }

  /** a' differs from a only in the flags of the descriptors from s to e. */
  ghost predicate SameOutside(a: seq<Desc>, a': seq<Desc>, s: nat, e: nat) {
    && |a'| == |a|
    && (forall q :: 0 <= q < |a| && (q < s || e < q) ==> a'[q] == a[q])
    && (forall q :: 0 <= q < |a| ==>
        a'[q].marty == a[q].marty && a'[q].mocty == a[q].mocty && a'[q].padrs == a[q].padrs)
  }

  // ---------------------------------------------------------------- updates

  /** `mrdmb_add_msa_bafh`: write the shape of a free block of order k. */
  function ShapeFree(a: seq<Desc>, s: nat, e: nat, k: nat): (r: seq<Desc>)
    requires s < |a| && e < |a|
    ensures |r| == |a|
  {
    var b := a[s := a[s].(olkty := Oder, odlink := Page(e))];
    b[e := b[e].(olkty := Bafh, odlink := List(k))]
  }

  /** One round of the split loop: list the upper half, shorten the block kept. */
  function Cut(a: seq<Desc>, s: nat, k: nat): (r: seq<Desc>)
    requires Last(s, k + 1) < |a|
    ensures |r| == |a|
  {
    var m := s + Pow2(k);
    var b := ShapeFree(a, m, m + Pow2(k) - 1, k);
    b[s := b[s].(odlink := Page(m - 1))]
  }

  /** `mm_divpages_opmsadsc`: mark the block from s to e handed out. */
  function MarkTaken(a: seq<Desc>, s: nat, e: nat): (r: seq<Desc>)
    requires s < |a| && e < |a|
    ensures |r| == |a|
  {
    var b := a[s := a[s].(uindx := a[s].uindx + 1, alloc := true, olkty := Oder, odlink := Page(e))];
    if s == e then b else b[e := b[e].(uindx := b[e].uindx + 1, alloc := true)]
  }

  /** `mm_merpages_opmsadsc`: mark the block from s to e returned to the list of order k. */
  function MarkReturned(a: seq<Desc>, s: nat, e: nat, k: nat): (r: seq<Desc>)
    requires s < |a| && e < |a| && a[s].uindx >= 1 && a[e].uindx >= 1
    ensures |r| == |a|
  {
    if s == e then a[s := a[s].(uindx := a[s].uindx - 1, alloc := false, olkty := Bafh, odlink := List(k))]
    else
      var b := a[s := a[s].(uindx := a[s].uindx - 1, alloc := false, olkty := Oder, odlink := Page(e))];
      b[e := b[e].(uindx := b[e].uindx - 1, alloc := false, olkty := Bafh, odlink := List(k))]
  }

  /** `mm_clear_2msaolflg`: give two neighbouring blocks the shape of one of order k. */
  function Fuse(a: seq<Desc>, s1: nat, e1: nat, s2: nat, e2: nat, k: nat): (r: seq<Desc>)
    requires s1 < |a| && e1 < |a| && s2 < |a| && e2 < |a|
    ensures |r| == |a|
  {
    var b := a[e1 := a[e1].(olkty := Init, odlink := Null)];
    var c := b[s2 := b[s2].(olkty := Init, odlink := Null)];
    ShapeFree(c, s1, e2, k)
  }

  /** Field by field: taking and returning a block count at its two ends only, and link its first descriptor to
      its last; returning links the last one to the list. */
  lemma MarksAre(a: seq<Desc>, s: nat, e: nat, k: nat, q: nat)
    requires s <= e < |a| && q < |a|
    ensures var d, x, end := a[q], MarkTaken(a, s, e)[q], q == s || q == e;
      && x.uindx == d.uindx + (if end then 1 else 0) && x.alloc == (end || d.alloc)
      && x.olkty == (if q == s then Oder else d.olkty) && x.odlink == (if q == s then Page(e) else d.odlink)
      && x.marty == d.marty && x.mocty == d.mocty && x.padrs == d.padrs
    ensures a[s].uindx >= 1 && a[e].uindx >= 1 ==>
      var d, x, end := a[q], MarkReturned(a, s, e, k)[q], q == s || q == e;
      && x.uindx == d.uindx - (if end then 1 else 0) && x.alloc == (!end && d.alloc)
      && x.olkty == (if q == e then Bafh else if q == s then Oder else d.olkty)
      && x.odlink == (if q == e then List(k) else if q == s then Page(e) else d.odlink)
      && x.marty == d.marty && x.mocty == d.mocty && x.padrs == d.padrs
  {
  }

  // ---------------------------------------------------------------- each update follows the pool

  /** A block away from the changed range keeps its shape. */
  lemma FarBlocks(a: seq<Desc>, a': seq<Desc>, p: Pool, s: nat, n: nat)
    requires Apart(p) && IsBlock(p, s, n) && SameOutside(a, a', s, Last(s, n))
    ensures forall t: nat, j: nat :: IsBlock(p, t, j) && (t != s || j != n) && FreeShape(a, t, j) ==>
      FreeShape(a', t, j)
    ensures forall t: nat, j: nat :: IsBlock(p, t, j) && (t != s || j != n) && LiveShape(a, t, j) ==>
      LiveShape(a', t, j)
  {
    forall t: nat, j: nat | IsBlock(p, t, j) && (t != s || j != n)
      ensures FreeShape(a, t, j) ==> FreeShape(a', t, j)
      ensures LiveShape(a, t, j) ==> LiveShape(a', t, j)
    {
      assert Last(t, j) < s || Last(s, n) < t;
    }
  }

  lemma TakeDescribed(a: seq<Desc>, area: nat, g: seq<nat>, managed: set<nat>, p: Pool, k: nat)
    requires Partition(g, managed, p) && k < ORDERS && p.free[k] != []
    requires Described(a, area, managed, p, -1)
    ensures var s := p.free[k][0]; Described(a, area, managed, Take(p, k), s) && CutShape(a, s, k)
  {
    var s := p.free[k][0];
    var p' := Take(p, k);
    assert IsFree(p, s, k);
    assert p.free[k] == [s] + p.free[k][1..];
    forall t, j | IsFree(p', t, j) ensures IsFree(p, t, j) {}
    forall q: nat, j: nat | IsBlock(p, q, j) ensures IsHead(p', q) {
      assert IsBlock(p', q, j);
    }
  }

  /** Only x and y may become first descriptors of a block. */
  ghost predicate HeadsAmong(a: seq<Desc>, a': seq<Desc>, x: nat, y: nat) {
    && |a'| == |a|
    && (forall q :: 0 <= q < |a| && a'[q].olkty == Oder ==>
          && (q == x || q == y || a[q].olkty == Oder)
          && a'[q].odlink.Page? && a'[q].odlink.index < |a|)
  }

  lemma CutShapes(a: seq<Desc>, s: nat, k: nat)
    requires CutShape(a, s, k + 1) && LinksInside(a)
    ensures var a' := Cut(a, s, k);
      && SameOutside(a, a', s, Last(s, k + 1))
      && HeadsAmong(a, a', s, s + Pow2(k))
      && CutShape(a', s, k) && FreeShape(a', s + Pow2(k), k)
  {
    hide Cut, SameOutside, HeadsAmong, CutShape, FreeShape, LinksInside;
    CutOutside(a, s, k);
    CutHeads(a, s, k);
    CutLower(a, s, k);
    CutUpper(a, s, k);
  }

  lemma CutOutside(a: seq<Desc>, s: nat, k: nat)
    requires CutShape(a, s, k + 1)
    ensures Last(s, k + 1) < |a| && SameOutside(a, Cut(a, s, k), s, Last(s, k + 1))
  {
    hide Cut, Pow2;
    DoublePow2(k);
    CutPoints(a, s, s + Pow2(k), Last(s, k + 1), k);
  }

  lemma CutHeads(a: seq<Desc>, s: nat, k: nat)
    requires CutShape(a, s, k + 1) && LinksInside(a)
    ensures Last(s, k + 1) < |a| && HeadsAmong(a, Cut(a, s, k), s, s + Pow2(k))
  {
    hide Cut, Pow2;
    DoublePow2(k);
    CutPoints(a, s, s + Pow2(k), Last(s, k + 1), k);
  }

  lemma CutLower(a: seq<Desc>, s: nat, k: nat)
    requires CutShape(a, s, k + 1)
    ensures Last(s, k + 1) < |a| && CutShape(Cut(a, s, k), s, k)
  {
    hide Cut, Pow2;
    DoublePow2(k);
    CutPoints(a, s, s + Pow2(k), Last(s, k + 1), k);
  }

  lemma CutUpper(a: seq<Desc>, s: nat, k: nat)
    requires CutShape(a, s, k + 1)
    ensures Last(s, k + 1) < |a| && FreeShape(Cut(a, s, k), s + Pow2(k), k)
  {
    hide Cut, Pow2;
    DoublePow2(k);
    CutPoints(a, s, s + Pow2(k), Last(s, k + 1), k);
  }

  lemma DoublePow2(k: nat)
    ensures Pow2(k + 1) == 2 * Pow2(k) && (k > 0 ==> Pow2(k) >= 2)
  {
  }

  /** What one cut writes, descriptor by descriptor. */
  lemma CutPoints(a: seq<Desc>, s: nat, m: nat, e: nat, k: nat)
    requires s < m <= e < |a| && m == s + Pow2(k) && e == Last(s, k + 1)
    ensures var a' := Cut(a, s, k);
      && a'[s] == a[s].(odlink := Page(m - 1))
      && (m < e ==> a'[m] == a[m].(olkty := Oder, odlink := Page(e)))
      && a'[e] == a[e].(olkty := Bafh, odlink := List(k))
      && forall q :: 0 <= q < |a| && q != s && q != m && q != e ==> a'[q] == a[q]
  {
  }

  lemma HalveHeads(p: Pool, s: nat, q: nat)
    requires Shaped(p) && Apart(p) && s in p.live && p.live[s] > 0
    requires IsHead(p, q) || q == s || q == s + Pow2(p.live[s] - 1)
    ensures IsHead(Halve(p, s), q)
  {
    var k := p.live[s] - 1;
    var p' := Halve(p, s);
    HalveBlocks(p, s);
    if q == s || q == s + Pow2(k) {
      assert IsBlock(p', q, k);
    } else {
      var j: nat :| IsBlock(p, q, j);
      assert IsBlock(p', q, j);
    }
  }

  lemma HalveDescribed(a: seq<Desc>, a': seq<Desc>, area: nat, g: seq<nat>, managed: set<nat>, p: Pool, s: nat)
    requires Partition(g, managed, p) && s in p.live && p.live[s] > 0 && Described(a, area, managed, p, s)
    requires var k := p.live[s] - 1;
      && SameOutside(a, a', s, Last(s, k + 1))
      && HeadsAmong(a, a', s, s + Pow2(k))
      && FreeShape(a', s + Pow2(k), k)
    ensures Described(a', area, managed, Halve(p, s), s)
  {
    hide FreeShape, LiveShape, IsHead, Placed, Covers;
    var k := p.live[s] - 1;
    var m := s + Pow2(k);
    var p' := Halve(p, s);
    assert IsBlock(p, s, k + 1);
    HalveBlocks(p, s);
    FarBlocks(a, a', p, s, k + 1);
    forall t | t in p'.live && t != s ensures LiveShape(a', t, p'.live[t]) {
      assert IsBlock(p, t, p.live[t]);
    }
    forall t: nat, j: nat | IsFree(p', t, j) ensures FreeShape(a', t, j) {
      assert IsFree(p, t, j) ==> IsBlock(p, t, j);
    }
    forall q: nat | q < |a| && a'[q].marty == area && a'[q].olkty == Oder ensures IsHead(p', q) {
      HalveHeads(p, s, q);
    }
  }

  lemma CutDescribed(a: seq<Desc>, area: nat, g: seq<nat>, managed: set<nat>, p: Pool, s: nat)
    requires Partition(g, managed, p) && s in p.live && p.live[s] > 0
    requires Described(a, area, managed, p, s) && CutShape(a, s, p.live[s])
    ensures var k := p.live[s] - 1; var a' := Cut(a, s, k);
      && SameOutside(a, a', s, Last(s, k + 1))
      && Described(a', area, managed, Halve(p, s), s) && CutShape(a', s, k)
  {
    hide Cut, FreeShape, LiveShape, SameOutside, HeadsAmong, Shaped, Placed, Apart, Covers, IsHead;
    var k := p.live[s] - 1;
    CutShapes(a, s, k);
    HalveDescribed(a, Cut(a, s, k), area, g, managed, p, s);
  }

  /** Redrawing the flags inside one block handed out: h and h' tell whether it is in transit. */
  lemma RedrawDescribed(a: seq<Desc>, a': seq<Desc>, area: nat, managed: set<nat>, p: Pool, s: nat, h: int, h': int)
    requires Shaped(p) && Apart(p) && Described(a, area, managed, p, h) && s in p.live && (h == -1 || h == s)
      && (h' == -1 || h' == s)
    requires SameOutside(a, a', s, Last(s, p.live[s])) && HeadsAmong(a, a', s, s)
    requires h' == -1 ==> LiveShape(a', s, p.live[s])
    ensures Described(a', area, managed, p, h')
  {
    hide FreeShape, LiveShape;
    var k := p.live[s];
    assert IsBlock(p, s, k) && IsHead(p, s);
    FarBlocks(a, a', p, s, k);
    forall t | t in p.live && t != h' ensures LiveShape(a', t, p.live[t]) {
      assert IsBlock(p, t, p.live[t]);
    }
    forall t: nat, j: nat | IsFree(p, t, j) ensures FreeShape(a', t, j) {
      assert IsBlock(p, t, j);
    }
  }

  lemma MarkTakenShapes(a: seq<Desc>, s: nat, k: nat)
    requires CutShape(a, s, k) && LinksInside(a)
    ensures var e := Last(s, k); var a' := MarkTaken(a, s, e);
      SameOutside(a, a', s, e) && HeadsAmong(a, a', s, s) && LiveShape(a', s, k)
  {
  }

  lemma MarkReturnedShapes(a: seq<Desc>, s: nat, k: nat)
    requires LiveShape(a, s, k) && LinksInside(a)
    ensures var e := Last(s, k); var a' := MarkReturned(a, s, e, k);
      SameOutside(a, a', s, e) && HeadsAmong(a, a', s, s) && FreeShape(a', s, k)
  {
  }

  lemma MarkTakenDescribed(a: seq<Desc>, area: nat, g: seq<nat>, managed: set<nat>, p: Pool, s: nat)
    requires Partition(g, managed, p) && s in p.live
    requires Described(a, area, managed, p, s) && CutShape(a, s, p.live[s])
    ensures var e := Last(s, p.live[s]); var a' := MarkTaken(a, s, e);
      SameOutside(a, a', s, e) && Described(a', area, managed, p, -1)
  {
    hide LiveShape, FreeShape, Placed, Covers, SameOutside, HeadsAmong, Shaped, Apart;
    MarkTakenShapes(a, s, p.live[s]);
    RedrawDescribed(a, MarkTaken(a, s, Last(s, p.live[s])), area, managed, p, s, s, -1);
  }

  lemma MarkReturnedDescribed(a: seq<Desc>, area: nat, g: seq<nat>, managed: set<nat>, p: Pool, s: nat)
    requires Partition(g, managed, p) && s in p.live
    requires Described(a, area, managed, p, -1)
    ensures LiveShape(a, s, p.live[s])
    ensures var k := p.live[s]; var e := Last(s, k); var a' := MarkReturned(a, s, e, k);
      SameOutside(a, a', s, e) && Described(a', area, managed, p, s) && FreeShape(a', s, k)
  {
    hide FreeShape, Placed, Covers, SameOutside, HeadsAmong, Shaped, Apart;
    MarkReturnedShapes(a, s, p.live[s]);
    RedrawDescribed(a, MarkReturned(a, s, Last(s, p.live[s]), p.live[s]), area, managed, p, s, -1, s);
  }

  /** Neighbouring free blocks m and u have become one free block of order n. */
  ghost predicate FuseEffect(a: seq<Desc>, a': seq<Desc>, m: nat, u: nat, n: nat) {
    && SameOutside(a, a', m, Last(m, n))
    && HeadsAmong(a, a', m, m)
    && u < |a| && a'[u].olkty != Oder
    && FreeShape(a', m, n)
  }

  lemma FuseShapes(a: seq<Desc>, m: nat, u: nat, k: nat)
    requires u == m + Pow2(k) && FreeShape(a, m, k) && FreeShape(a, u, k)
    requires LinksInside(a)
    ensures Last(u, k) < |a| && FuseEffect(a, Fuse(a, m, Last(m, k), u, Last(u, k), k + 1), m, u, k + 1)
  {
  }

  /** p' is p with blocks m and u, one of them the held block h, made one block of order n. */
  ghost predicate Fused(p: Pool, p': Pool, h: int, m: nat, u: nat, n: nat) {
    && Apart(p')
    && (forall x: nat, j: nat :: IsFree(p', x, j) ==> IsFree(p, x, j) && (x != m || j != n))
    && (forall x: nat :: IsHead(p, x) && x != m && x != u ==> IsHead(p', x))
    && IsBlock(p', m, n)
    && (forall x :: x in p'.live && x != m ==> x in p.live && x != h && p'.live[x] == p.live[x])
  }

  lemma FuseDescribed(a: seq<Desc>, a': seq<Desc>, area: nat, managed: set<nat>, p: Pool, p': Pool, h: int, m: nat,
                      u: nat, n: nat)
    requires Described(a, area, managed, p, h) && Fused(p, p', h, m, u, n)
    requires FuseEffect(a, a', m, u, n)
    ensures Described(a', area, managed, p', m)
  {
    FarBlocks(a, a', p', m, n);
    forall x | x in p'.live && x != m ensures LiveShape(a', x, p'.live[x]) {
      assert IsBlock(p', x, p'.live[x]);
    }
    forall x: nat, j: nat | IsFree(p', x, j) ensures FreeShape(a', x, j) {
      assert IsBlock(p', x, j);
    }
    assert IsHead(p', m);
  }

  lemma JoinFuses(g: seq<nat>, p: Pool, s: nat, i: nat)
    requires Shaped(p) && Apart(p) && s in p.live && p.live[s] + 1 < ORDERS && i < |p.free[p.live[s]]|
    requires Touch(g, s, p.free[p.live[s]][i], p.live[s])
    ensures var k := p.live[s]; var m := Min(s, p.free[k][i]);
      Fused(p, Join(p, s, i), s, m, m + Pow2(k), k + 1)
  {
    var p' := Join(p, s, i);
    var k := p.live[s];
    var t := p.free[k][i];
    JoinBlocks(g, p, s, i);
    JoinApart(g, p, s, i);
    assert IsFree(p, t, k) && IsBlock(p, s, k) && IsBlock(p, t, k);
    forall x: nat | IsHead(p, x) && x != s && x != t ensures IsHead(p', x) {
      var j: nat :| IsBlock(p, x, j);
      assert IsBlock(p', x, j);
    }
  }

  lemma GiveDescribed(a: seq<Desc>, area: nat, g: seq<nat>, managed: set<nat>, p: Pool, s: nat)
    requires Partition(g, managed, p) && s in p.live
    requires Described(a, area, managed, p, s) && FreeShape(a, s, p.live[s])
    ensures Described(a, area, managed, Give(p, s), -1)
  {
    var k := p.live[s];
    var p' := Give(p, s);
    forall t, j | IsFree(p', t, j) ensures IsFree(p, t, j) || (t == s && j == k) {}
    forall q: nat, j: nat | IsBlock(p, q, j) ensures IsHead(p', q) {
      assert IsBlock(p', q, j);
    }
  }
}
