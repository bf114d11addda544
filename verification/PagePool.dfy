/** The free lists of one memory area as values: what hal/x86/memdivmer.c does to the 52 lists
    `dm_mdmlielst` and to the set of blocks handed out, without the page descriptors.
    A block is a run of 2^k descriptors named by the index of its first one. */
module PagePool {
  import opened Bits
  import opened Lists
  import opened Options

  const ORDERS: nat := 52

  /** `free[k]` is `af_frelst` of order k, front first; `live` maps the first page of every
      outstanding allocation to its order. */
  datatype Pool = Pool(free: seq<seq<nat>>, live: map<nat, nat>)

  // ---------------------------------------------------------------- invariants

  ghost predicate IsFree(p: Pool, s: nat, k: nat) {
    k < |p.free| && s in p.free[k]
  }

  ghost predicate IsBlock(p: Pool, s: nat, k: nat) {
    IsFree(p, s, k) || (s in p.live && p.live[s] == k)
  }

  /** Page numbers `g` grow by one along the n descriptors from s. */
  ghost predicate Contiguous(g: seq<nat>, s: nat, n: nat) {
    s + n <= |g| && forall i :: s <= i < s + n ==> g[i] == g[s] + (i - s)
  }

  ghost predicate Shaped(p: Pool) {
    && |p.free| == ORDERS
    && (forall s :: s in p.live ==> p.live[s] < ORDERS)
    && (forall k :: 0 <= k < ORDERS ==> NoDup(p.free[k]))
    && (forall s, k :: IsFree(p, s, k) ==> s !in p.live)
  }

  ghost predicate Placed(g: seq<nat>, p: Pool) {
    forall s, k :: IsBlock(p, s, k) ==> Contiguous(g, s, Pow2(k))
  }

  ghost predicate Apart(p: Pool) {
    forall s: nat, k: nat, t: nat, j: nat :: IsBlock(p, s, k) && IsBlock(p, t, j) && (s != t || k != j) ==>
      s + Pow2(k) <= t || t + Pow2(j) <= s
  }

  ghost predicate Covers(p: Pool, q: nat) {
    exists s: nat, k: nat :: IsBlock(p, s, k) && s <= q < s + Pow2(k)
  }

  /** Free and live blocks partition the managed pages into contiguous runs of 2^k. */
  ghost predicate Partition(g: seq<nat>, managed: set<nat>, p: Pool) {
    && Shaped(p)
    && Placed(g, p)
    && Apart(p)
    && (forall q: nat :: q in managed <==> Covers(p, q))
  }

  /** Blocks s and t of order k touch, in descriptor index and in page number. */
  predicate Touch(g: seq<nat>, s: nat, t: nat, k: nat) {
    || (s + Pow2(k) == t && t < |g| && g[t - 1] + 1 == g[t])
    || (t + Pow2(k) == s && s < |g| && g[s - 1] + 1 == g[s])
  }

  /** No two free blocks of one order below the top order touch. */
  ghost predicate Coalesced(g: seq<nat>, p: Pool) {
    forall s: nat, t: nat, k: nat :: IsFree(p, s, k) && IsFree(p, t, k) && k + 1 < ORDERS ==> !Touch(g, s, t, k)
  }

  ghost predicate Good(g: seq<nat>, managed: set<nat>, p: Pool) {
    Partition(g, managed, p) && Coalesced(g, p)
  }

  // ---------------------------------------------------------------- elementary steps

  function Min(a: nat, b: nat): (r: nat) { if a < b then a else b }

  /** Unlink the front block of order k and hand it out. */
  function Take(p: Pool, k: nat): (r: Pool)
    requires k < |p.free| && p.free[k] != []
  {
    Pool(p.free[k := p.free[k][1..]], p.live[p.free[k][0] := k])
  }

  /** Cut a held block in two and list its second half. */
  function Halve(p: Pool, s: nat): (r: Pool)
    requires s in p.live && 0 < p.live[s] <= |p.free|
  {
    var k := p.live[s] - 1;
    Pool(p.free[k := [s + Pow2(k)] + p.free[k]], p.live[s := k])
  }

  /** Merge a held block with the i-th free block of its order. */
  function Join(p: Pool, s: nat, i: nat): (r: Pool)
    requires s in p.live && p.live[s] < |p.free| && i < |p.free[p.live[s]]|
  {
    var k := p.live[s];
    var t := p.free[k][i];
    Pool(p.free[k := Without(p.free[k], i)], (p.live - {s})[Min(s, t) := k + 1])
  }

  /** Put a held block at the front of the list of its order. */
  function Give(p: Pool, s: nat): (r: Pool)
    requires s in p.live && p.live[s] < |p.free|
  {
    var k := p.live[s];
    Pool(p.free[k := [s] + p.free[k]], p.live - {s})
  }

  lemma TakeKeepsPartition(g: seq<nat>, managed: set<nat>, p: Pool, k: nat)
    requires Partition(g, managed, p) && k < ORDERS && p.free[k] != []
    ensures Partition(g, managed, Take(p, k))
  {
    var p' := Take(p, k);
    var s := p.free[k][0];
    var l := p.free[k];
    assert l == [s] + l[1..];
    assert IsFree(p, s, k);
    forall t, j
      ensures IsFree(p', t, j) <==> IsFree(p, t, j) && (t != s || j != k)
    {
      if j == k && t in l[1..] {
        var i :| 0 <= i < |l[1..]| && l[1..][i] == t;
        assert l[0] != l[i + 1];
      }
    }
    assert forall t, j :: IsBlock(p', t, j) <==> IsBlock(p, t, j);
    forall t, j | IsFree(p', t, j) ensures t !in p'.live {
      if t == s {
        assert IsBlock(p, s, j) && IsBlock(p, s, k);
      }
    }
    assert forall q: nat :: Covers(p', q) <==> Covers(p, q);
  }

  lemma GiveKeepsPartition(g: seq<nat>, managed: set<nat>, p: Pool, s: nat)
    requires Partition(g, managed, p) && s in p.live
    ensures Partition(g, managed, Give(p, s))
  {
    var p' := Give(p, s);
    var k := p.live[s];
    assert IsBlock(p, s, k);
    assert forall t: nat, j: nat :: IsFree(p', t, j) <==> IsFree(p, t, j) || (t == s && j == k);
    assert forall t: nat, j: nat :: IsBlock(p', t, j) <==> IsBlock(p, t, j);
    forall j | 0 <= j < ORDERS ensures NoDup(p'.free[j]) {
      assert NoDup(p.free[j]) && !IsFree(p, s, k);
    }
    assert forall q: nat :: Covers(p', q) <==> Covers(p, q);
  }

  lemma HalveBlocks(p: Pool, s: nat)
    requires Shaped(p) && Apart(p) && s in p.live && p.live[s] > 0
    ensures var k := p.live[s] - 1; var m := s + Pow2(k); var p' := Halve(p, s);
      && Pow2(k + 1) == 2 * Pow2(k)
      && (forall t: nat, j: nat :: IsFree(p', t, j) <==> IsFree(p, t, j) || (t == m && j == k))
      && (forall t: nat, j: nat :: IsBlock(p', t, j) <==>
           (IsBlock(p, t, j) && (t != s || j != k + 1)) || (j == k && (t == s || t == m)))
      && m !in p.live
      && (forall j: nat :: !IsBlock(p, m, j))
  {
    var k := p.live[s] - 1;
    var m := s + Pow2(k);
    assert IsBlock(p, s, k + 1);
    forall j: nat ensures !IsBlock(p, m, j) {
      assert IsBlock(p, m, j) ==> s + Pow2(k + 1) <= m || m + Pow2(j) <= s;
    }
    assert m in p.live ==> IsBlock(p, m, p.live[m]);
    assert forall j: nat :: IsBlock(p, s, j) ==> j == k + 1;
  }

  lemma HalvePlaced(g: seq<nat>, p: Pool, s: nat)
    requires Shaped(p) && Placed(g, p) && Apart(p) && s in p.live && p.live[s] > 0
    ensures Placed(g, Halve(p, s))
  {
    var k := p.live[s] - 1;
    HalveBlocks(p, s);
    assert IsBlock(p, s, k + 1);
    assert Contiguous(g, s, Pow2(k)) && Contiguous(g, s + Pow2(k), Pow2(k));
  }

  lemma HalveApart(p: Pool, s: nat)
    requires Shaped(p) && Apart(p) && s in p.live && p.live[s] > 0
    ensures Apart(Halve(p, s))
  {
    var k := p.live[s] - 1;
    var p' := Halve(p, s);
    HalveBlocks(p, s);
    assert IsBlock(p, s, k + 1);
    hide IsBlock;
    forall x: nat, i: nat, y: nat, j: nat | IsBlock(p', x, i) && IsBlock(p', y, j) && (x != y || i != j)
      ensures x + Pow2(i) <= y || y + Pow2(j) <= x
    {
    }
  }

  lemma HalveShaped(p: Pool, s: nat)
    requires Shaped(p) && Apart(p) && s in p.live && p.live[s] > 0
    ensures Shaped(Halve(p, s))
  {
    var p' := Halve(p, s);
    var k := p.live[s] - 1;
    var m := s + Pow2(k);
    HalveBlocks(p, s);
    forall j | 0 <= j < ORDERS ensures NoDup(p'.free[j]) {
      assert NoDup(p.free[j]) && !IsBlock(p, m, k);
    }
  }

  lemma HalveKeepsPartition(g: seq<nat>, managed: set<nat>, p: Pool, s: nat)
    requires Partition(g, managed, p) && s in p.live && p.live[s] > 0
    ensures Partition(g, managed, Halve(p, s))
  {
    var p' := Halve(p, s);
    var k := p.live[s] - 1;
    var m := s + Pow2(k);
    HalveBlocks(p, s);
    HalveShaped(p, s);
    HalveApart(p, s);
    HalvePlaced(g, p, s);
    forall q: nat ensures Covers(p', q) <==> Covers(p, q) {
      if Covers(p, q) {
        var t: nat, j: nat :| IsBlock(p, t, j) && t <= q < t + Pow2(j);
        if t == s && j == k + 1 {
          assert IsBlock(p', s, k) && IsBlock(p', m, k);
        } else {
          assert IsBlock(p', t, j);
        }
      }
      if Covers(p', q) {
        var t: nat, j: nat :| IsBlock(p', t, j) && t <= q < t + Pow2(j);
        if j == k && (t == s || t == m) {
          assert IsBlock(p, s, k + 1);
        }
      }
    }
  }

  /** What joining s with the i-th free block does to the set of blocks. */
  lemma JoinBlocks(g: seq<nat>, p: Pool, s: nat, i: nat)
    requires Shaped(p) && Apart(p) && s in p.live && p.live[s] + 1 < ORDERS && i < |p.free[p.live[s]]|
    requires Touch(g, s, p.free[p.live[s]][i], p.live[s])
    ensures var k := p.live[s]; var t := p.free[k][i]; var m := Min(s, t); var p' := Join(p, s, i);
      && Pow2(k + 1) == 2 * Pow2(k)
      && (forall x: nat, j: nat :: IsFree(p', x, j) <==> IsFree(p, x, j) && (x != t || j != k))
      && (forall x: nat, j: nat :: IsBlock(p', x, j) <==>
           (IsBlock(p, x, j) && (j != k || (x != s && x != t))) || (x == m && j == k + 1))
  {
    var k := p.live[s];
    var t := p.free[k][i];
    assert IsFree(p, t, k) && IsBlock(p, s, k);
    WithoutMembers(p.free[k], i);
    assert t !in p.live;
  }

  lemma JoinShaped(g: seq<nat>, p: Pool, s: nat, i: nat)
    requires Shaped(p) && Apart(p) && s in p.live && p.live[s] + 1 < ORDERS && i < |p.free[p.live[s]]|
    requires Touch(g, s, p.free[p.live[s]][i], p.live[s])
    ensures Shaped(Join(p, s, i))
  {
    var k := p.live[s];
    var p' := Join(p, s, i);
    JoinApart(g, p, s, i);
    WithoutMembers(p.free[k], i);
    forall j | 0 <= j < ORDERS ensures NoDup(p'.free[j]) {
      assert NoDup(p.free[j]);
    }
  }

  lemma JoinPlaced(g: seq<nat>, p: Pool, s: nat, i: nat)
    requires Shaped(p) && Placed(g, p) && Apart(p) && s in p.live && p.live[s] + 1 < ORDERS && i < |p.free[p.live[s]]|
    requires Touch(g, s, p.free[p.live[s]][i], p.live[s])
    ensures Placed(g, Join(p, s, i))
  {
    var k := p.live[s];
    var t := p.free[k][i];
    JoinBlocks(g, p, s, i);
    assert IsFree(p, t, k) && IsBlock(p, s, k) && IsBlock(p, t, k);
    assert Contiguous(g, s, Pow2(k)) && Contiguous(g, t, Pow2(k));
    assert Contiguous(g, Min(s, t), Pow2(k + 1));
    hide IsBlock;
  }

  lemma JoinCovers(g: seq<nat>, p: Pool, s: nat, i: nat, q: nat)
    requires Shaped(p) && Apart(p) && s in p.live && p.live[s] + 1 < ORDERS && i < |p.free[p.live[s]]|
    requires Touch(g, s, p.free[p.live[s]][i], p.live[s])
    ensures Covers(Join(p, s, i), q) <==> Covers(p, q)
  {
    var k := p.live[s];
    var t := p.free[k][i];
    var m := Min(s, t);
    var p' := Join(p, s, i);
    JoinBlocks(g, p, s, i);
    assert IsFree(p, t, k) && IsBlock(p, s, k) && IsBlock(p, t, k);
    hide IsBlock;
    if Covers(p, q) {
      var x: nat, j: nat :| IsBlock(p, x, j) && x <= q < x + Pow2(j);
      if j == k && (x == s || x == t) {
        assert IsBlock(p', m, k + 1);
      } else {
        assert IsBlock(p', x, j);
      }
    }
    if Covers(p', q) {
      var x: nat, j: nat :| IsBlock(p', x, j) && x <= q < x + Pow2(j);
      if x == m && j == k + 1 {
        assert s <= q < s + Pow2(k) || t <= q < t + Pow2(k);
      }
    }
  }

  lemma JoinKeepsPartition(g: seq<nat>, managed: set<nat>, p: Pool, s: nat, i: nat)
    requires Partition(g, managed, p) && s in p.live && p.live[s] + 1 < ORDERS && i < |p.free[p.live[s]]|
    requires Touch(g, s, p.free[p.live[s]][i], p.live[s])
    ensures Partition(g, managed, Join(p, s, i))
  {
    hide Covers, Apart, Placed;
    JoinShaped(g, p, s, i);
    JoinPlaced(g, p, s, i);
    JoinApart(g, p, s, i);
    forall q: nat ensures Covers(Join(p, s, i), q) <==> Covers(p, q) {
      JoinCovers(g, p, s, i, q);
    }
  }

  lemma JoinApart(g: seq<nat>, p: Pool, s: nat, i: nat)
    requires Shaped(p) && Apart(p) && s in p.live && p.live[s] + 1 < ORDERS && i < |p.free[p.live[s]]|
    requires Touch(g, s, p.free[p.live[s]][i], p.live[s])
    ensures Apart(Join(p, s, i)) && forall x: nat, j: nat :: IsFree(Join(p, s, i), x, j) ==> x !in Join(p, s, i).live
  {
    var k := p.live[s];
    var t := p.free[k][i];
    var m := Min(s, t);
    var p' := Join(p, s, i);
    JoinBlocks(g, p, s, i);
    assert IsBlock(p, s, k) && IsBlock(p, t, k);
    forall x: nat, j: nat | IsBlock(p, x, j) && (j != k || (x != s && x != t))
      ensures x != m && (x + Pow2(j) <= m || m + Pow2(k + 1) <= x)
    {
      assert x + Pow2(j) <= s || s + Pow2(k) <= x;
      assert x + Pow2(j) <= t || t + Pow2(k) <= x;
    }
    forall x: nat, j: nat | IsFree(p', x, j) ensures x !in p'.live {
      assert IsFree(p, x, j) && IsBlock(p, x, j);
    }
  }

  // ---------------------------------------------------------------- allocation and release

  /** `DMF_RELDIV` with a page count, or `DMF_MAXDIV`. */
  datatype Request = Fit(pages: nat) | Biggest

  /** The list index for a page count: ceiling of its binary logarithm. */
  function OrderFor(pages: nat): (r: nat)
    requires pages >= 1
  {
    BitLengthBounds(pages);
    BitLength(pages) - 1 + if BitAnd(pages, pages - 1) != 0 then 1 else 0
  }

  lemma OrderForIsCeilingLog(pages: nat)
    requires pages >= 1
    ensures pages <= Pow2(OrderFor(pages)) < 2 * pages
    ensures forall k: nat :: pages <= Pow2(k) <==> OrderFor(pages) <= k
  {
    BitLengthBounds(pages);
    PowerOfTwoTest(pages);
    var r := OrderFor(pages);
    forall k: nat ensures pages <= Pow2(k) <==> r <= k {
      if r <= k {
        Pow2Monotone(r, k);
      } else {
        Pow2Monotone(k, r - 1);
      }
    }
  }

  /** First order from k on with a free block; ORDERS when there is none. */
  function Smallest(free: seq<seq<nat>>, k: nat): (d: nat)
    requires |free| == ORDERS && k <= ORDERS
    ensures k <= d <= ORDERS
    ensures d < ORDERS ==> free[d] != []
    ensures forall j :: k <= j < d ==> free[j] == []
    decreases ORDERS - k
  {
    if k == ORDERS || free[k] != [] then k else Smallest(free, k + 1)
  }

  /** Last order below n with a free block. */
  function Largest(free: seq<seq<nat>>, n: nat): (d: Option<nat>)
    requires n <= |free|
    ensures d.Some? ==> d.value < n && free[d.value] != [] && forall j :: d.value < j < n ==> free[j] == []
    ensures d.None? ==> forall j :: 0 <= j < n ==> free[j] == []
  {
    if n == 0 then None else if free[n - 1] != [] then Some(n - 1) else Largest(free, n - 1)
  }

  /** The order to hand out and the order to take it from. */
  function Choose(p: Pool, req: Request): (c: Option<(nat, nat)>)
    requires |p.free| == ORDERS
    ensures c.Some? ==> c.value.0 <= c.value.1 < ORDERS && p.free[c.value.1] != []
    ensures c.Some? ==> forall j :: c.value.0 <= j < c.value.1 ==> p.free[j] == []
  {
    match req
    case Fit(pages) =>
      if pages < 1 || OrderFor(pages) >= ORDERS then None
      else
        var d := Smallest(p.free, OrderFor(pages));
        if d == ORDERS then None else Some((OrderFor(pages), d))
    case Biggest =>
      var d := Largest(p.free, ORDERS);
      if d.None? then None else Some((d.value, d.value))
  }

  function SplitTo(p: Pool, s: nat, r: nat): (q: Pool)
    requires s in p.live && r <= p.live[s] <= |p.free|
    ensures |q.free| == |p.free|
    ensures q.live == p.live[s := r]
    decreases p.live[s]
  {
    if p.live[s] == r then p else SplitTo(Halve(p, s), s, r)
  }

  function Alloc(p: Pool, req: Request): (a: Option<(Pool, nat)>)
    requires |p.free| == ORDERS
  {
    var c := Choose(p, req);
    if c.None? then None
    else
      var (r, d) := c.value;
      var s := p.free[d][0];
      Some((SplitTo(Take(p, d), s, r), s))
  }

  /** Position of the first block of l touching s. */
  function FirstTouching(g: seq<nat>, l: seq<nat>, s: nat, k: nat): (i: nat)
    ensures i <= |l|
    ensures i < |l| ==> Touch(g, s, l[i], k)
    ensures forall j :: 0 <= j < i ==> !Touch(g, s, l[j], k)
  {
    if l == [] || Touch(g, s, l[0], k) then 0 else 1 + FirstTouching(g, l[1..], s, k)
  }

  /** Merge the held block s upward until nothing touches it, then list it. */
  function Release(g: seq<nat>, p: Pool, s: nat): (q: Pool)
    requires s in p.live && p.live[s] < |p.free| == ORDERS
    decreases ORDERS - p.live[s]
  {
    var k := p.live[s];
    var i := FirstTouching(g, p.free[k], s, k);
    if k + 1 < ORDERS && i < |p.free[k]| then
      Release(g, Join(p, s, i), Min(s, p.free[k][i]))
    else
      Give(p, s)
  }

  // ---------------------------------------------------------------- every operation keeps the invariants

  lemma {:induction false} SplitKeepsPartition(g: seq<nat>, managed: set<nat>, p: Pool, s: nat, r: nat)
    requires Partition(g, managed, p) && s in p.live && r <= p.live[s]
    ensures Partition(g, managed, SplitTo(p, s, r))
    decreases p.live[s]
  {
    if p.live[s] != r {
      HalveKeepsPartition(g, managed, p, s);
      SplitKeepsPartition(g, managed, Halve(p, s), s, r);
    }
  }

  /** Splitting adds one block to each list below, at the start of its upper half. */
  lemma {:induction false} SplitLists(p: Pool, s: nat, r: nat)
    requires s in p.live && r <= p.live[s] <= |p.free|
    ensures forall j :: 0 <= j < |p.free| ==>
      SplitTo(p, s, r).free[j] == if r <= j < p.live[s] then [s + Pow2(j)] + p.free[j] else p.free[j]
    decreases p.live[s]
  {
    if p.live[s] != r {
      SplitLists(Halve(p, s), s, r);
    }
  }

  lemma NotSelf(g: seq<nat>, s: nat, k: nat)
    ensures !Touch(g, s, s, k)
  {
  }

  lemma AllocKeepsCoalesced(g: seq<nat>, p: Pool, req: Request)
    requires |p.free| == ORDERS && Coalesced(g, p) && Alloc(p, req).Some?
    ensures Coalesced(g, Alloc(p, req).value.0)
  {
    hide SplitTo, Touch, Pow2;
    var (r, d) := Choose(p, req).value;
    var s := p.free[d][0];
    var p1 := Take(p, d);
    var p2 := SplitTo(p1, s, r);
    SplitLists(p1, s, r);
    forall x: nat, y: nat, k: nat | IsFree(p2, x, k) && IsFree(p2, y, k) && k + 1 < ORDERS
      ensures !Touch(g, x, y, k)
    {
      if r <= k < d {
        assert p2.free[k] == [s + Pow2(k)];
        NotSelf(g, s + Pow2(k), k);
      } else {
        assert p.free[d] == [s] + p.free[d][1..];
        assert IsFree(p, x, k) && IsFree(p, y, k);
      }
    }
  }

  lemma AllocKeepsGood(g: seq<nat>, managed: set<nat>, p: Pool, req: Request)
    requires Good(g, managed, p) && Alloc(p, req).Some?
    ensures Good(g, managed, Alloc(p, req).value.0)
  {
    hide Coalesced;
    var (r, d) := Choose(p, req).value;
    TakeKeepsPartition(g, managed, p, d);
    SplitKeepsPartition(g, managed, Take(p, d), p.free[d][0], r);
    AllocKeepsCoalesced(g, p, req);
  }

  lemma {:induction false} ReleaseKeepsGood(g: seq<nat>, managed: set<nat>, p: Pool, s: nat)
    requires Good(g, managed, p) && s in p.live
    ensures Good(g, managed, Release(g, p, s))
    decreases ORDERS - p.live[s]
  {
    var k := p.live[s];
    var i := FirstTouching(g, p.free[k], s, k);
    if k + 1 < ORDERS && i < |p.free[k]| {
      var p' := Join(p, s, i);
      JoinBlocks(g, p, s, i);
      JoinKeepsPartition(g, managed, p, s, i);
      ReleaseKeepsGood(g, managed, p', Min(s, p.free[k][i]));
    } else {
      var p' := Give(p, s);
      GiveKeepsPartition(g, managed, p, s);
      forall x: nat, y: nat, j: nat | IsFree(p', x, j) && IsFree(p', y, j) && j + 1 < ORDERS
        ensures !Touch(g, x, y, j)
      {
        assert x != s || j != k ==> IsFree(p, x, j);
        assert y != s || j != k ==> IsFree(p, y, j);
      }
    }
  }

  // ---------------------------------------------------------------- allocate then release

  /** Releasing a block just halved first rejoins its upper half. */
  lemma RejoinHalves(g: seq<nat>, p: Pool, s: nat)
    requires |p.free| == ORDERS && s in p.live && 0 < p.live[s] < ORDERS
    requires Contiguous(g, s, Pow2(p.live[s])) && s + Pow2(p.live[s] - 1) !in p.live
    ensures Release(g, Halve(p, s), s) == Release(g, p, s)
  {
    var k := p.live[s] - 1;
    var h := Halve(p, s);
    var m := s + Pow2(k);
    assert h.free[k][0] == m && Touch(g, s, m, k);
    assert Without(h.free[k], 0) == p.free[k];
    assert Join(h, s, 0).free == p.free;
    assert Join(h, s, 0).live == p.live;
  }

  lemma {:induction false} RejoinSplit(g: seq<nat>, managed: set<nat>, p: Pool, s: nat, r: nat)
    requires Partition(g, managed, p) && s in p.live && r <= p.live[s]
    ensures Release(g, SplitTo(p, s, r), s) == Release(g, p, s)
    decreases p.live[s]
  {
    if p.live[s] != r {
      HalveBlocks(p, s);
      HalveKeepsPartition(g, managed, p, s);
      assert IsBlock(p, s, p.live[s]);
      RejoinSplit(g, managed, Halve(p, s), s, r);
      RejoinHalves(g, p, s);
    }
  }

  /** Allocating and releasing at once gives back every list, element for element. */
  lemma AllocThenRelease(g: seq<nat>, managed: set<nat>, p: Pool, req: Request)
    requires Good(g, managed, p) && Alloc(p, req).Some?
    ensures var (q, s) := Alloc(p, req).value;
      s in q.live && q.live[s] < |q.free| == ORDERS && Release(g, q, s) == p
  {
    var (r, d) := Choose(p, req).value;
    var s := p.free[d][0];
    var p1 := Take(p, d);
    TakeKeepsPartition(g, managed, p, d);
    RejoinSplit(g, managed, p1, s, r);
    assert IsFree(p, s, d);
    var i := FirstTouching(g, p1.free[d], s, d);
    if i < |p1.free[d]| {
      assert IsFree(p, p.free[d][i + 1], d);
    }
    assert [s] + p.free[d][1..] == p.free[d];
    assert Give(p1, s).free == p.free;
    assert Give(p1, s).live == p.live;
  }

  // ---------------------------------------------------------------- completeness and page counts

  /** A request fails exactly when no free block is large enough; otherwise the smallest
      sufficient free block is used and less than twice the request is handed out. */
  lemma AllocIsBestFit(p: Pool, pages: nat)
    requires Shaped(p) && pages >= 1
    ensures Alloc(p, Fit(pages)).None? <==> forall k :: 0 <= k < ORDERS && pages <= Pow2(k) ==> p.free[k] == []
    ensures Alloc(p, Fit(pages)).Some? ==>
      var (q, s) := Alloc(p, Fit(pages)).value;
      && s in q.live && pages <= Pow2(q.live[s]) < 2 * pages
      && exists d :: && 0 <= d < ORDERS && pages <= Pow2(d) && p.free[d] != [] && p.free[d][0] == s
                     && forall k :: 0 <= k < d && pages <= Pow2(k) ==> p.free[k] == []
  {
    OrderForIsCeilingLog(pages);
  }

  /** What an allocation does to every list: the block comes from the front of list d, and each order between
      what is handed out and d gains the upper half that was split off. */
  ghost predicate Handed(p: Pool, q: Pool, s: nat, r: nat, d: nat) {
    && |p.free| == |q.free| == ORDERS && r <= d < ORDERS && p.free[d] != [] && p.free[d][0] == s
    && q.live == p.live[s := r]
    && forall j :: 0 <= j < ORDERS ==>
         q.free[j] == if j == d then p.free[j][1..] else if r <= j < d then [s + Pow2(j)] + p.free[j] else p.free[j]
  }

  /** A request for the biggest block fails exactly when nothing is free, and takes the front block of the
      highest list that has one, undivided. */
  lemma AllocLists(p: Pool, req: Request)
    requires Shaped(p)
    ensures Alloc(p, Biggest).None? <==> forall k :: 0 <= k < ORDERS ==> p.free[k] == []
    ensures Alloc(p, req).Some? ==>
      var (q, s) := Alloc(p, req).value;
      && s in q.live
      && exists d: nat :: Handed(p, q, s, q.live[s], d) &&
           (req == Biggest ==> q.live[s] == d && forall k :: d < k < ORDERS ==> p.free[k] == [])
  {
    hide Handed, SplitTo, Take, Smallest, Largest, OrderFor;
    var c := Choose(p, req);
    if c.Some? {
      var (r, d) := c.value;
      SplitHands(p, r, d);
    }
  }

  lemma SplitHands(p: Pool, r: nat, d: nat)
    requires |p.free| == ORDERS && r <= d < ORDERS && p.free[d] != []
    ensures var s := p.free[d][0]; Handed(p, SplitTo(Take(p, d), s, r), s, r, d)
  {
    hide SplitTo, Pow2;
    SplitLists(Take(p, d), p.free[d][0], r);
  }

  ghost function FreePages(free: seq<seq<nat>>, n: nat): (r: nat)
    requires n <= |free|
  {
    if n == 0 then 0 else FreePages(free, n - 1) + |free[n - 1]| * Pow2(n - 1)
  }

  ghost function Pick(live: map<nat, nat>): (s: nat)
    requires |live| > 0
    ensures s in live
  {
    var s :| s in live;
    s
  }

  ghost function LivePages(live: map<nat, nat>): (r: nat) {
    if |live| == 0 then 0 else Pow2(live[Pick(live)]) + LivePages(live - {Pick(live)})
  }

  lemma {:induction false} LivePagesRemove(live: map<nat, nat>, s: nat)
    requires s in live
    ensures LivePages(live) == Pow2(live[s]) + LivePages(live - {s})
    decreases |live|
  {
    hide Pow2;
    var t := Pick(live);
    if s != t {
      LivePagesRemove(live - {t}, s);
      LivePagesRemove(live - {s}, t);
      assert live - {t} - {s} == live - {s} - {t};
    }
  }

  lemma {:induction false} LivePagesPut(live: map<nat, nat>, s: nat, k: nat)
    ensures LivePages(live[s := k]) == LivePages(live - {s}) + Pow2(k)
  {
    var m := live[s := k];
    LivePagesRemove(m, s);
    assert m - {s} == live - {s};
  }

  /** Replacing one list changes the free pages by its change in length. */
  lemma {:induction false} FreePagesUpdate(free: seq<seq<nat>>, k: nat, l: seq<nat>, n: nat)
    requires k < |free| && n <= |free|
    ensures FreePages(free[k := l], n) ==
            FreePages(free, n) + if k < n then (|l| - |free[k]|) * Pow2(k) else 0
  {
    if n > 0 {
      FreePagesUpdate(free, k, l, n - 1);
    }
  }

  ghost predicate SamePages(p: Pool, q: Pool)
    requires |p.free| == ORDERS && |q.free| == ORDERS
  {
    FreePages(p.free, ORDERS) + LivePages(p.live) == FreePages(q.free, ORDERS) + LivePages(q.live)
  }

  /** How many pages one elementary change of a list and of the held blocks moves. */
  lemma {:induction false} MovePages(p: Pool, k: nat, l: seq<nat>)
    requires |p.free| == ORDERS && k < ORDERS
    ensures |l| == |p.free[k]| + 1 ==> FreePages(p.free[k := l], ORDERS) == FreePages(p.free, ORDERS) + Pow2(k)
    ensures |l| + 1 == |p.free[k]| ==> FreePages(p.free[k := l], ORDERS) == FreePages(p.free, ORDERS) - Pow2(k)
  {
    FreePagesUpdate(p.free, k, l, ORDERS);
    var n := |l| - |p.free[k]|;
    assert n == 1 ==> n * Pow2(k) == Pow2(k);
    assert n == -1 ==> n * Pow2(k) == 0 - Pow2(k);
  }

  lemma {:induction false} SplitPages(p: Pool, s: nat, r: nat)
    requires |p.free| == ORDERS && s in p.live && r <= p.live[s] <= ORDERS
    ensures SamePages(p, SplitTo(p, s, r))
    decreases p.live[s]
  {
    if p.live[s] != r {
      var k := p.live[s] - 1;
      var h := Halve(p, s);
      MovePages(p, k, h.free[k]);
      LivePagesPut(p.live, s, k);
      LivePagesRemove(p.live, s);
      SplitPages(h, s, r);
    }
  }

  /** Allocation moves exactly the pages it reports from free to allocated. */
  lemma {:induction false} AllocMovesPages(p: Pool, req: Request)
    requires Shaped(p) && Alloc(p, req).Some?
    ensures var (q, s) := Alloc(p, req).value;
      && |q.free| == ORDERS && s in q.live && s !in p.live
      && q.live == p.live[s := q.live[s]]
      && FreePages(q.free, ORDERS) == FreePages(p.free, ORDERS) - Pow2(q.live[s])
      && LivePages(q.live) == LivePages(p.live) + Pow2(q.live[s])
  {
    hide FreePages, LivePages, Pow2, SplitTo;
    var (r, d) := Choose(p, req).value;
    var s := p.free[d][0];
    var p1 := Take(p, d);
    assert IsFree(p, s, d);
    TakePages(p, d);
    SplitPages(p1, s, r);
    assert p1.live[s := r] == p.live[s := r];
    LivePagesPut(p.live, s, r);
    assert p.live - {s} == p.live;
  }

  lemma {:induction false} TakePages(p: Pool, d: nat)
    requires Shaped(p) && d < ORDERS && p.free[d] != []
    ensures SamePages(p, Take(p, d))
  {
    var s := p.free[d][0];
    assert IsFree(p, s, d);
    MovePages(p, d, p.free[d][1..]);
    LivePagesPut(p.live, s, d);
    assert p.live - {s} == p.live;
  }

  lemma {:induction false} ReleasePages(g: seq<nat>, managed: set<nat>, p: Pool, s: nat)
    requires Partition(g, managed, p) && s in p.live
    ensures var q := Release(g, p, s);
      && |q.free| == ORDERS
      && q.live == p.live - {s}
      && FreePages(q.free, ORDERS) == FreePages(p.free, ORDERS) + Pow2(p.live[s])
    decreases ORDERS - p.live[s]
  {
    var k := p.live[s];
    var i := FirstTouching(g, p.free[k], s, k);
    if k + 1 < ORDERS && i < |p.free[k]| {
      var t := p.free[k][i];
      var p' := Join(p, s, i);
      MovePages(p, k, p'.free[k]);
      assert IsFree(p, t, k);
      assert p'.live - {Min(s, t)} == p.live - {s};
      JoinBlocks(g, p, s, i);
      JoinKeepsPartition(g, managed, p, s, i);
      ReleasePages(g, managed, p', Min(s, t));
    } else {
      MovePages(p, k, Give(p, s).free[k]);
    }
  }

  // ---------------------------------------------------------------- whole runs

  /** One call on an area: a request, or the return of an outstanding block. */
  datatype Op = Ask(req: Request) | Return(start: nat)

  function Step(g: seq<nat>, p: Pool, op: Op): (q: Pool)
    requires |p.free| == ORDERS && forall s :: s in p.live ==> p.live[s] < ORDERS
  {
    match op
    case Ask(req) => var a := Alloc(p, req); if a.Some? then a.value.0 else p
    case Return(s) => if s in p.live then Release(g, p, s) else p
  }

  /** A possible history of an area: every prefix state is the step of the one before. */
  ghost predicate Run(g: seq<nat>, states: seq<Pool>, ops: seq<Op>) {
    && |states| == |ops| + 1
    && forall i :: 0 <= i < |ops| ==>
         && |states[i].free| == ORDERS
         && (forall s :: s in states[i].live ==> states[i].live[s] < ORDERS)
         && states[i + 1] == Step(g, states[i], ops[i])
  }

  ghost function AllPages(p: Pool): (r: nat)
    requires |p.free| == ORDERS
  {
    FreePages(p.free, ORDERS) + LivePages(p.live)
  }

  lemma {:induction false} StepKeepsGood(g: seq<nat>, managed: set<nat>, p: Pool, op: Op)
    requires Good(g, managed, p)
    ensures Good(g, managed, Step(g, p, op))
    ensures AllPages(Step(g, p, op)) == AllPages(p)
  {
    hide Partition, Coalesced, Alloc, Release, FreePages, LivePages, NoDup, Pow2;
    GoodShaped(g, managed, p);
    match op {
      case Ask(req) =>
        if Alloc(p, req).Some? {
          AllocKeepsGood(g, managed, p, req);
          AllocMovesPages(p, req);
        }
      case Return(s) =>
        if s in p.live {
          ReleaseKeepsGood(g, managed, p, s);
          ReleasePages(g, managed, p, s);
          LivePagesRemove(p.live, s);
        }
    }
  }

  lemma GoodShaped(g: seq<nat>, managed: set<nat>, p: Pool)
    requires Good(g, managed, p)
    ensures Shaped(p) && Partition(g, managed, p)
  {
  }

  lemma RunStep(g: seq<nat>, states: seq<Pool>, ops: seq<Op>, n: nat)
    requires Run(g, states, ops) && n < |ops|
    ensures |states| == |ops| + 1 && |states[n].free| == ORDERS
    ensures forall s :: s in states[n].live ==> states[n].live[s] < ORDERS
    ensures states[n + 1] == Step(g, states[n], ops[n])
  {
    hide Step;
  }

  lemma RunLength(g: seq<nat>, states: seq<Pool>, ops: seq<Op>)
    requires Run(g, states, ops)
    ensures |states| == |ops| + 1
  {
    hide Step;
  }

  /** Partition, full coalescing and the number of pages survive every run. */
  lemma {:induction false} RunKeepsGood(g: seq<nat>, managed: set<nat>, states: seq<Pool>, ops: seq<Op>, n: nat)
    requires Run(g, states, ops) && Good(g, managed, states[0]) && n < |states|
    ensures Good(g, managed, states[n])
    ensures AllPages(states[n]) == AllPages(states[0])
  {
    hide Good, Run, Step, AllPages;
    RunLength(g, states, ops);
    if n > 0 {
      RunKeepsGood(g, managed, states, ops, n - 1);
      RunStep(g, states, ops, n - 1);
      StepKeepsGood(g, managed, states[n - 1], ops[n - 1]);
    }
  }
}
