/** Building the free lists at boot, hal/x86/memarea.c, for a kernel or hardware area: the scan for
    runs of free contiguous pages and the greedy tiling of each run by powers of two. */
module PageBoot {
  import opened Bits
  import opened Lists
  import opened PagePool
  import opened PageDesc

  /** A free page of the area. */
  predicate Candidate(d: Desc, area: nat) {
    d.marty == area && d.uindx == 0 && d.mocty == 0 && !d.alloc
  }

  /** Descriptors i and i + 1 belong to one run: continumsadsc_is_ok returns 2. */
  predicate Continues(a: seq<Desc>, area: nat, i: nat) {
    && i + 1 < |a| && Candidate(a[i], area) && Candidate(a[i + 1], area)
    && a[i].padrs + 1 == a[i + 1].padrs
  }

  /** scan_len_msadsc: how many of the next n - 1 descriptors continue the run from i. */
  function ScanLen(a: seq<Desc>, area: nat, i: nat, n: nat): (r: nat)
    ensures r < n || r == n == 0
    ensures forall j :: i <= j < i + r ==> Continues(a, area, j)
    ensures r + 1 < n ==> !Continues(a, area, i + r)
    decreases n
  {
    if n <= 1 || !Continues(a, area, i) then 0 else 1 + ScanLen(a, area, i + 1, n - 1)
  }

  /** The boot loop from descriptor i on takes only runs that end inside the array of n descriptors: it
      skips a descriptor that is not free, or takes the run found there and goes on behind it. */
  predicate StaysInside(a: seq<Desc>, area: nat, n: nat, i: nat)
    requires i <= n <= |a|
    decreases n - i
  {
    if i == n then true
    else if !Candidate(a[i], area) then StaysInside(a, area, n, i + 1)
    else
      var e := i + ScanLen(a, area, i, n) + 1;
      e <= n && StaysInside(a, area, n, e)
  }

  /** The memory behind the array does not continue its last run, or the whole array is one run. */
  predicate Closed(a: seq<Desc>, area: nat, n: nat) {
    n == 0 || !Continues(a, area, n - 1) || forall j: nat :: j < n - 1 ==> Continues(a, area, j)
  }

  /** Each scan is given the length of the whole array, not what is left of it: exactly this keeps the
      boot loop inside the array. */
  lemma BootInsideIff(a: seq<Desc>, area: nat, n: nat)
    requires n <= |a|
    ensures StaysInside(a, area, n, 0) <==> Closed(a, area, n)
  {
    if n == 0 || !Continues(a, area, n - 1) {
      ClosedInside(a, area, n, 0);
    } else if forall j: nat :: j < n - 1 ==> Continues(a, area, j) {
      assert ScanLen(a, area, 0, n) == n - 1;
      assert StaysInside(a, area, n, n);
    } else {
      var j: nat :| j < n - 1 && !Continues(a, area, j);
      OpenOverruns(a, area, n, 0, j);
    }
  }

  lemma {:induction false} ClosedInside(a: seq<Desc>, area: nat, n: nat, i: nat)
    requires i <= n <= |a| && (n == 0 || !Continues(a, area, n - 1))
    ensures StaysInside(a, area, n, i)
    decreases n - i
  {
    if i < n {
      var e := if Candidate(a[i], area) then i + ScanLen(a, area, i, n) + 1 else i + 1;
      var last: nat := n - 1;
      assert e > n ==> Continues(a, area, last);
      ClosedInside(a, area, n, e);
    }
  }

  /** A run that goes on behind the array is overrun once the loop has a break at j ahead of it. */
  lemma {:induction false} OpenOverruns(a: seq<Desc>, area: nat, n: nat, i: nat, j: nat)
    requires i <= j < n - 1 && n <= |a| && Continues(a, area, n - 1) && !Continues(a, area, j)
    ensures !StaysInside(a, area, n, i)
    decreases n - i
  {
    if StaysInside(a, area, n, i) {
      var e := if Candidate(a[i], area) then i + ScanLen(a, area, i, n) + 1 else i + 1;
      if e <= j {
        OpenOverruns(a, area, n, e, j);
      } else {
        assert e == j + 1;
        LastRunOverruns(a, area, n, e);
      }
    }
  }

  lemma {:induction false} LastRunOverruns(a: seq<Desc>, area: nat, n: nat, i: nat)
    requires 0 < i < n <= |a| && Continues(a, area, n - 1)
    ensures !StaysInside(a, area, n, i)
    decreases n - i
  {
    var e := if Candidate(a[i], area) then i + ScanLen(a, area, i, n) + 1 else i + 1;
    if e < n {
      LastRunOverruns(a, area, n, e);
    }
  }

  /** A page that is not free, a free one, and a free one behind the array of two: the loop takes a run
      whose last page lies outside. */
  lemma BootOverruns(x: Desc, d: Desc, area: nat)
    requires !Candidate(x, area) && Candidate(d, area)
    ensures var a := [x, d, d.(padrs := d.padrs + 1)];
      !StaysInside(a, area, 2, 0) && 1 + ScanLen(a, area, 1, 2) == 2
  {
    var a := [x, d, d.(padrs := d.padrs + 1)];
    assert Continues(a, area, 1) && ScanLen(a, area, 2, 1) == 0;
    assert !StaysInside(a, area, 2, 1);
  }

  // ---------------------------------------------------------------- greedy tiling

  /** 2^51, the first run length find_continumsa_inbafhlst refuses. */
  const RUN_MAX: nat := 0x8_0000_0000_0000

  lemma RunMaxIsPow2()
    ensures RUN_MAX == Pow2(ORDERS - 1)
  {
    assert Pow2(8) == 256;
    Pow2Add(8, 8);
    Pow2Add(16, 16);
    Pow2Add(32, 16);
    Pow2Add(48, 3);
  }

  lemma OrderBelowTop(len: nat)
    requires 0 < len < RUN_MAX
    ensures 1 <= BitLength(len) < ORDERS
    ensures Pow2(BitLength(len) - 1) <= len < 2 * Pow2(BitLength(len) - 1)
  {
    BitLengthBounds(len);
    RunMaxIsPow2();
    if BitLength(len) >= ORDERS {
      Pow2Monotone(ORDERS - 1, BitLength(len) - 1);
    }
  }

  lemma PowerFits(li: nat, len: nat)
    requires len > 0
    ensures Pow2(li) <= len <==> li < BitLength(len)
    ensures len < RUN_MAX <==> BitLength(len) < ORDERS
  {
    BitLengthBounds(len);
    if li < BitLength(len) {
      Pow2Monotone(li, BitLength(len) - 1);
    } else {
      Pow2Monotone(BitLength(len), li);
    }
    RunMaxIsPow2();
    if BitLength(len) < ORDERS {
      Pow2Monotone(BitLength(len), ORDERS - 1);
    } else {
      Pow2Monotone(ORDERS - 1, BitLength(len) - 1);
    }
  }

  /** List the largest block that fits at s, then go on with the rest of the run. */
  function Tile(free: seq<seq<nat>>, s: nat, len: nat): (r: seq<seq<nat>>)
    requires |free| == ORDERS && len < RUN_MAX
    ensures |r| == ORDERS
    decreases len
  {
    if len == 0 then free
    else
      OrderBelowTop(len);
      var k := BitLength(len) - 1;
      Tile(free[k := [s] + free[k]], s + Pow2(k), len - Pow2(k))
  }

  /** The k-th binary digit. */
  function Digit(n: nat, k: nat): (d: nat)
    ensures d <= 1
    decreases k
  {
    if k == 0 then n % 2 else Digit(n / 2, k - 1)
  }

  lemma {:induction false} TopDigit(n: nat, t: nat, k: nat)
    requires Pow2(t) <= n < 2 * Pow2(t)
    ensures k == t ==> Digit(n, k) == 1
    ensures k != t ==> Digit(n, k) == Digit(n - Pow2(t), k)
    decreases k
  {
    if k > 0 {
      if t == 0 {
        NoDigits(k);
      } else {
        TopDigit(n / 2, t - 1, k - 1);
      }
    }
  }

  lemma {:induction false} NoDigits(k: nat)
    ensures Digit(0, k) == 0
  {
    if k > 0 {
      NoDigits(k - 1);
    }
  }

  lemma {:induction false} HighDigit(n: nat, k: nat)
    requires n < Pow2(k)
    ensures Digit(n, k) == 0
  {
    if k > 0 {
      HighDigit(n / 2, k - 1);
    }
  }

  /** A run of len pages becomes one block for each binary digit 1 of len. */
  lemma {:induction false} TileDigits(free: seq<seq<nat>>, s: nat, len: nat, k: nat)
    requires |free| == ORDERS && len < RUN_MAX && k < ORDERS
    ensures |Tile(free, s, len)[k]| == |free[k]| + Digit(len, k)
    decreases len
  {
    hide Pow2, Digit, BitLength;
    if len == 0 {
      NoDigits(k);
    } else {
      OrderBelowTop(len);
      var t := BitLength(len) - 1;
      TopDigit(len, t, k);
      var rest := len - Pow2(t);
      HighDigit(rest, t);
      TileDigits(free[t := [s] + free[t]], s + Pow2(t), rest, k);
    }
  }

  lemma ProductGrows(a: nat, b: nat, m: nat)
    requires a <= b
    ensures a * m <= b * m
  {
  }

  lemma QuotientOf(x: nat, q: nat, m: nat)
    requires m > 0 && q * m <= x < q * m + m
    ensures x / m == q
  {
    ModUnique(x, m, q, x - q * m);
  }

  lemma QuotientShift(a: nat, b: nat, m: nat)
    requires m > 0
    ensures (b * m + a) / m == b + a / m
  {
    var q, r := a / m, a % m;
    assert a == q * m + r;
    assert b * m + a == (b + q) * m + r;
    QuotientOf(b * m + a, b + q, m);
  }

  function Whole(len: nat, k: nat): int {
    len / Pow2(k)
  }

  /** Quotients by powers of two of a number, and of what is left of it without its top power. */
  lemma WithoutTop(len: nat, t: nat, k: nat)
    requires Pow2(t) <= len < 2 * Pow2(t)
    ensures k == t ==> Whole(len, k) == 1
    ensures k > t ==> Whole(len, k) == 0
    ensures k < t ==> Whole(len, k) == Pow2(t - k) + Whole(len - Pow2(t), k)
    ensures k < t ==> Pow2(t) == Pow2(t - k) * Pow2(k)
    ensures k >= t ==> Whole(len - Pow2(t), k) == 0
  {
    if k >= t {
      Pow2Monotone(t, k);
      QuotientOf(len - Pow2(t), 0, Pow2(k));
    }
    if k == t {
      QuotientOf(len, 1, Pow2(k));
    } else if k > t {
      Pow2Monotone(t + 1, k);
      QuotientOf(len, 0, Pow2(k));
    } else {
      Pow2Add(t - k, k);
      QuotientShift(len - Pow2(t), Pow2(t - k), Pow2(k));
    }
  }

  predicate One(len: nat, k: nat) {
    Whole(len, k) % 2 == 1
  }

  /** Where the block of digit k starts in a run of len pages: behind the blocks of all higher digits. */
  function Place(len: nat, k: nat): int {
    Whole(len, k + 1) * Pow2(k + 1)
  }

  lemma OneNext(len: nat, t: nat, k: nat)
    requires Pow2(t) <= len < 2 * Pow2(t)
    ensures k == t ==> One(len, k) && !One(len - Pow2(t), k)
    ensures k != t ==> One(len, k) == One(len - Pow2(t), k)
    ensures k > t ==> !One(len, k)
  {
    hide Pow2, Whole;
    WithoutTop(len, t, k);
    if k < t {
      EvenPower(t - k);
      SameParity(Whole(len - Pow2(t), k), Pow2(t - k - 1));
    }
  }

  lemma EvenPower(e: nat)
    requires e > 0
    ensures Pow2(e) == 2 * Pow2(e - 1)
  {
  }

  lemma SameParity(a: int, h: int)
    ensures (2 * h + a) % 2 == a % 2
  {
  }

  lemma PlaceNext(len: nat, t: nat, k: nat)
    requires Pow2(t) <= len < 2 * Pow2(t) && k <= t
    ensures k == t ==> Place(len, k) == 0
    ensures k < t ==> Place(len, k) == Pow2(t) + Place(len - Pow2(t), k)
  {
    hide Pow2, Whole;
    WithoutTop(len, t, k + 1);
    if k + 1 < t {
      Distributes(Pow2(t - k - 1), Whole(len - Pow2(t), k + 1), Pow2(k + 1));
    }
  }

  lemma Distributes(a: int, b: int, m: int)
    ensures (a + b) * m == a * m + b * m
  {
  }

  lemma {:induction false} TileAt(free: seq<seq<nat>>, s: nat, len: nat, k: nat)
    requires |free| == ORDERS && len < RUN_MAX && k < ORDERS
    ensures var l := Tile(free, s, len)[k]; if One(len, k)
      then |l| == |free[k]| + 1 && l[0] == s + Place(len, k) && l[1..] == free[k]
      else l == free[k]
    decreases len
  {
    hide Pow2, BitLength, One, Place;
    if len == 0 {
      NothingPlaced(k);
    } else {
      OrderBelowTop(len);
      var t := BitLength(len) - 1;
      var rest := len - Pow2(t);
      TileAt(free[t := [s] + free[t]], s + Pow2(t), rest, k);
      OneNext(len, t, k);
      if k <= t {
        PlaceNext(len, t, k);
      }
    }
  }

  lemma NothingPlaced(k: nat)
    ensures !One(0, k)
  {
    QuotientOf(0, 0, Pow2(k));
  }

  /** l' is l with the block of order k of a run of len pages at i in front, if len has the binary digit k. */
  ghost predicate Dealt(l: seq<nat>, l': seq<nat>, i: nat, len: nat, k: nat) {
    if len / Pow2(k) % 2 == 1
    then |l'| == |l| + 1 && l'[0] == i + len / Pow2(k + 1) * Pow2(k + 1) && l'[1..] == l
    else l' == l
  }

  /** Tiling puts the block of each binary digit 1 of len at the front of the list of its order, behind the
      blocks of the higher digits in memory, and leaves the lists of the digits 0 as they are. */
  lemma TilePlaces(free: seq<seq<nat>>, s: nat, len: nat, k: nat)
    requires |free| == ORDERS && len < RUN_MAX && k < ORDERS
    ensures Dealt(free[k], Tile(free, s, len)[k], s, len, k)
  {
    hide Pow2, Tile;
    TileAt(free, s, len, k);
  }

  // ---------------------------------------------------------------- all runs of the array

  function PageNumbers(a: seq<Desc>): (g: seq<nat>)
    ensures |g| == |a| && forall i :: 0 <= i < |a| ==> g[i] == a[i].padrs
  {
    seq(|a|, i requires 0 <= i < |a| => a[i].padrs)
  }

  /** What boot needs of the n descriptors from i on and of the one behind them in memory. */
  predicate Bounded(a: seq<Desc>, area: nat, n: nat, i: nat) {
    i <= n < |a| && n < RUN_MAX && StaysInside(a, area, n, i)
  }

  lemma RunInside(a: seq<Desc>, area: nat, n: nat, i: nat)
    requires Bounded(a, area, n, i) && i < n && Candidate(a[i], area)
    ensures var len := ScanLen(a, area, i, n) + 1;
      && i + len <= n && Bounded(a, area, n, i + len) && (i + len < n ==> !Continues(a, area, i + len - 1))
      && Contiguous(PageNumbers(a), i, len)
      && forall j :: i <= j < i + len ==> Candidate(a[j], area)
  {
    RunContiguous(a, area, i, ScanLen(a, area, i, n));
  }

  lemma {:induction false} RunContiguous(a: seq<Desc>, area: nat, i: nat, r: nat)
    requires i + r < |a| && Candidate(a[i], area) && forall j :: i <= j < i + r ==> Continues(a, area, j)
    ensures forall j :: i <= j <= i + r ==> Candidate(a[j], area) && a[j].padrs == a[i].padrs + (j - i)
  {
    if r > 0 {
      RunContiguous(a, area, i, r - 1);
      assert Continues(a, area, i + r - 1);
    }
  }

  /** merlove_mem_onmemarea: the lists after the descriptors from i on have been tiled too. */
  function Layout(a: seq<Desc>, area: nat, n: nat, i: nat, free: seq<seq<nat>>): (r: seq<seq<nat>>)
    requires Bounded(a, area, n, i) && |free| == ORDERS
    ensures |r| == ORDERS
    decreases n - i
  {
    if i == n then free
    else if !Candidate(a[i], area) then Layout(a, area, n, i + 1, free)
    else
      RunInside(a, area, n, i);
      var len := ScanLen(a, area, i, n) + 1;
      Layout(a, area, n, i + len, Tile(free, i, len))
  }

  lemma LayoutStep(a: seq<Desc>, area: nat, n: nat, i: nat, free: seq<seq<nat>>)
    requires Bounded(a, area, n, i) && i < n && |free| == ORDERS
    ensures !Candidate(a[i], area) ==>
      Bounded(a, area, n, i + 1) && Layout(a, area, n, i + 1, free) == Layout(a, area, n, i, free)
    ensures Candidate(a[i], area) ==> var len := ScanLen(a, area, i, n) + 1;
      && i + len <= n && Bounded(a, area, n, i + len)
      && Layout(a, area, n, i + len, Tile(free, i, len)) == Layout(a, area, n, i, free)
      && forall j :: i <= j < i + len ==> Candidate(a[j], area)
  {
    hide Tile;
    if Candidate(a[i], area) {
      RunInside(a, area, n, i);
    }
  }

  /** The free pages below i are tiled, by blocks that lie below i and are coalesced. */
  ghost predicate Built(a: seq<Desc>, area: nat, p: Pool, i: nat) {
    && p.live == map[] && i <= |a|
    && Shaped(p) && Placed(PageNumbers(a), p) && Apart(p) && Coalesced(PageNumbers(a), p)
    && (forall s: nat, k: nat :: IsFree(p, s, k) ==> s + Pow2(k) <= i)
    && (forall q: nat :: Covers(p, q) <==> q < i && Candidate(a[q], area))
  }

  /** A block ending at i inside the run that goes on at i is longer than what is left of the run. */
  ghost predicate Edge(a: seq<Desc>, p: Pool, i: nat, rest: nat) {
    forall s: nat, k: nat :: IsFree(p, s, k) && s + Pow2(k) == i && i < |a| && a[i - 1].padrs + 1 == a[i].padrs ==>
      rest < Pow2(k)
  }

  function Put(p: Pool, k: nat, s: nat): (q: Pool)
    requires k < |p.free|
  {
    Pool(p.free[k := [s] + p.free[k]], p.live)
  }

  lemma PutBlocks(p: Pool, k: nat, s: nat)
    requires k < |p.free| && p.live == map[]
    ensures forall t: nat, j: nat :: IsFree(Put(p, k, s), t, j) <==> IsFree(p, t, j) || (t == s && j == k)
    ensures forall t: nat, j: nat :: IsBlock(Put(p, k, s), t, j) <==> IsBlock(p, t, j) || (t == s && j == k)
    ensures forall t: nat, j: nat :: IsBlock(p, t, j) <==> IsFree(p, t, j)
  {
  }

  lemma PutCovers(p: Pool, k: nat, s: nat, q: nat)
    requires k < |p.free| && p.live == map[]
    ensures Covers(Put(p, k, s), q) <==> Covers(p, q) || s <= q < s + Pow2(k)
  {
    hide IsBlock, IsFree;
    var p' := Put(p, k, s);
    PutBlocks(p, k, s);
    if Covers(p, q) {
      var t: nat, j: nat :| IsBlock(p, t, j) && t <= q < t + Pow2(j);
      assert IsBlock(p', t, j);
    }
    assert IsBlock(p', s, k);
  }

  lemma PutKeepsBuilt(a: seq<Desc>, area: nat, p: Pool, i: nat, rest: nat, k: nat)
    requires Built(a, area, p, i) && Edge(a, p, i, rest) && k < ORDERS
    requires Pow2(k) <= rest < 2 * Pow2(k) && i + rest <= |a|
    requires Contiguous(PageNumbers(a), i, rest) && forall j :: i <= j < i + rest ==> Candidate(a[j], area)
    ensures Built(a, area, Put(p, k, i), i + Pow2(k))
    ensures Edge(a, Put(p, k, i), i + Pow2(k), rest - Pow2(k))
  {
    hide Covers;
    var p' := Put(p, k, i);
    PutBlocks(p, k, i);
    forall q: nat ensures Covers(p', q) <==> q < i + Pow2(k) && Candidate(a[q], area) {
      PutCovers(p, k, i, q);
    }
    PutShaped(p, k, i);
    PutCoalesced(a, p, i, rest, k);
  }

  lemma PutShaped(p: Pool, k: nat, i: nat)
    requires Shaped(p) && p.live == map[] && k < ORDERS && forall s: nat, j: nat :: IsFree(p, s, j) ==> s + Pow2(j) <= i
    ensures Shaped(Put(p, k, i))
  {
    PutBlocks(p, k, i);
    forall j | 0 <= j < ORDERS ensures NoDup(Put(p, k, i).free[j]) {
      assert NoDup(p.free[j]) && !IsFree(p, i, k);
    }
  }

  lemma PutCoalesced(a: seq<Desc>, p: Pool, i: nat, rest: nat, k: nat)
    requires Coalesced(PageNumbers(a), p) && p.live == map[] && k < |p.free| && Pow2(k) <= rest && i <= |a|
    requires Edge(a, p, i, rest) && forall s: nat, j: nat :: IsFree(p, s, j) ==> s + Pow2(j) <= i
    ensures Coalesced(PageNumbers(a), Put(p, k, i))
  {
    hide IsFree;
    var p' := Put(p, k, i);
    PutBlocks(p, k, i);
    forall s: nat, t: nat, j: nat | IsFree(p', s, j) && IsFree(p', t, j) && j + 1 < ORDERS
      ensures !Touch(PageNumbers(a), s, t, j)
    {
    }
  }

  lemma {:induction false} TileKeepsBuilt(a: seq<Desc>, area: nat, p: Pool, i: nat, len: nat)
    requires |p.free| == ORDERS
    requires Built(a, area, p, i) && Edge(a, p, i, len) && len < RUN_MAX && i + len <= |a|
    requires Contiguous(PageNumbers(a), i, len) && forall j :: i <= j < i + len ==> Candidate(a[j], area)
    ensures Built(a, area, Pool(Tile(p.free, i, len), p.live), i + len)
    decreases len
  {
    hide Built, Edge, Candidate, Contiguous, Pow2, BitLength;
    if len > 0 {
      OrderBelowTop(len);
      var k := BitLength(len) - 1;
      PutKeepsBuilt(a, area, p, i, len, k);
      ContiguousTail(PageNumbers(a), i, len, Pow2(k));
      TileKeepsBuilt(a, area, Put(p, k, i), i + Pow2(k), len - Pow2(k));
    }
  }

  lemma ContiguousTail(g: seq<nat>, s: nat, n: nat, m: nat)
    requires Contiguous(g, s, n) && m <= n
    ensures Contiguous(g, s + m, n - m)
  {
  }

  /** No listed block ends at i inside a run that goes on there. */
  ghost predicate RunStart(a: seq<Desc>, area: nat, p: Pool, i: nat) {
    i < |a| && Candidate(a[i], area) ==> forall rest: nat :: Edge(a, p, i, rest)
  }

  lemma {:induction false} LayoutKeepsBuilt(a: seq<Desc>, area: nat, n: nat, i: nat, p: Pool)
    requires Bounded(a, area, n, i) && |p.free| == ORDERS
    requires Built(a, area, p, i) && (i < n ==> RunStart(a, area, p, i))
    ensures Built(a, area, Pool(Layout(a, area, n, i, p.free), p.live), n)
    decreases n - i
  {
    hide Built, Edge, Continues, Contiguous, ScanLen, Tile;
    if i == n {
      assert Pool(p.free, p.live) == p;
    } else if !Candidate(a[i], area) {
      SkipKeepsBuilt(a, area, p, i);
      LayoutKeepsBuilt(a, area, n, i + 1, p);
    } else {
      RunInside(a, area, n, i);
      var len := ScanLen(a, area, i, n) + 1;
      var p' := Pool(Tile(p.free, i, len), p.live);
      assert Edge(a, p, i, len);
      TileKeepsBuilt(a, area, p, i, len);
      if i + len < n {
        RunEnd(a, area, p', i + len);
      }
      LayoutKeepsBuilt(a, area, n, i + len, p');
    }
  }

  lemma SkipKeepsBuilt(a: seq<Desc>, area: nat, p: Pool, i: nat)
    requires Built(a, area, p, i) && i < |a| && !Candidate(a[i], area)
    ensures Built(a, area, p, i + 1) && RunStart(a, area, p, i + 1)
  {
    hide Covers;
  }

  lemma RunEnd(a: seq<Desc>, area: nat, p: Pool, e: nat)
    requires 0 < e <= |a| && Candidate(a[e - 1], area) && !Continues(a, area, e - 1)
    ensures RunStart(a, area, p, e)
  {
  }

  /** The len descriptors from i on are free pages of the area that follow each other in memory, and neither
      the descriptor before them nor the one behind them goes on with them. */
  ghost predicate IsRun(a: seq<Desc>, area: nat, n: nat, i: nat, len: nat) {
    && 0 < len && i + len <= n <= |a|
    && (forall j :: i <= j < i + len ==> Candidate(a[j], area) && a[j].padrs == a[i].padrs + (j - i))
    && (i > 0 ==> !Candidate(a[i - 1], area) || a[i - 1].padrs + 1 != a[i].padrs)
    && (i + len < n ==> !Candidate(a[i + len], area) || a[i].padrs + len != a[i + len].padrs)
  }

  /** x is the place of the block of order k in a run that ends by e. */
  ghost predicate Lands(a: seq<Desc>, area: nat, n: nat, e: nat, k: nat, x: nat) {
    exists i: nat, len: nat :: IsRun(a, area, n, i, len) && i + len <= e &&
      len / Pow2(k) % 2 == 1 && x == i + len / Pow2(k + 1) * Pow2(k + 1)
  }

  /** List k holds the blocks of order k of the runs up to e, the last one first. */
  ghost predicate Landed(a: seq<Desc>, area: nat, n: nat, e: nat, k: nat, l: seq<nat>) {
    && (forall x: nat :: x in l <==> Lands(a, area, n, e, k, x))
    && forall p, q :: 0 <= p < q < |l| ==> l[q] < l[p]
  }

  ghost predicate AllLanded(a: seq<Desc>, area: nat, n: nat, free: seq<seq<nat>>) {
    |free| == ORDERS && forall k :: 0 <= k < ORDERS ==> Landed(a, area, n, n, k, free[k])
  }

  ghost predicate Boundary(a: seq<Desc>, area: nat, n: nat, i: nat) {
    i == 0 || i >= n || !Continues(a, area, i - 1)
  }

  lemma SkipRuns(a: seq<Desc>, area: nat, n: nat, i: nat, j: nat, len: nat)
    requires i < n <= |a| && !Candidate(a[i], area) && IsRun(a, area, n, j, len) && j + len <= i + 1
    ensures j + len <= i
  {
    assert j + len == i + 1 ==> j <= i < j + len;
  }

  /** A run that ends behind i and by the end of the run at i is that run. */
  lemma SameRun(a: seq<Desc>, area: nat, n: nat, i: nat, len: nat, j: nat, m: nat)
    requires IsRun(a, area, n, i, len) && IsRun(a, area, n, j, m) && i < j + m <= i + len
    ensures i == j && len == m
  {
    if j < i || i < j || m < len {
      assert false;
    }
  }

  lemma FoundRun(a: seq<Desc>, area: nat, n: nat, i: nat)
    requires Bounded(a, area, n, i) && i < n && Candidate(a[i], area) && Boundary(a, area, n, i)
    ensures var len := ScanLen(a, area, i, n) + 1; IsRun(a, area, n, i, len) && Boundary(a, area, n, i + len)
  {
    RunInside(a, area, n, i);
    RunContiguous(a, area, i, ScanLen(a, area, i, n));
  }

  lemma PlaceInside(len: nat, k: nat)
    requires len / Pow2(k) % 2 == 1
    ensures 0 <= len / Pow2(k + 1) * Pow2(k + 1) < len
  {
    hide Pow2;
    EvenPower(k + 1);
    RestInside(len, Pow2(k), Pow2(k + 1));
  }

  lemma RestInside(len: nat, h: nat, m: nat)
    requires h > 0 && len / h % 2 == 1 && m == 2 * h
    ensures 0 <= len / m * m < len
  {
    var q := len / m;
    assert len == q * m + len % m;
    ProductGrows(0, q, m);
    if q * m == len {
      assert q * m == (2 * q) * h;
      QuotientOf(len, 2 * q, h);
      assert false;
    }
  }

  lemma LandsBelow(a: seq<Desc>, area: nat, n: nat, e: nat, k: nat, x: nat)
    requires Lands(a, area, n, e, k, x)
    ensures x < e
  {
    hide IsRun, Pow2;
    var i: nat, len: nat :| IsRun(a, area, n, i, len) && i + len <= e &&
      len / Pow2(k) % 2 == 1 && x == i + len / Pow2(k + 1) * Pow2(k + 1);
    PlaceInside(len, k);
  }

  /** With the run at i the lists gain the place it has for its own digit k. */
  lemma LandsMore(a: seq<Desc>, area: nat, n: nat, i: nat, len: nat, k: nat, x: nat)
    requires IsRun(a, area, n, i, len)
    ensures Lands(a, area, n, i + len, k, x) <==>
      Lands(a, area, n, i, k, x) || (len / Pow2(k) % 2 == 1 && x == i + len / Pow2(k + 1) * Pow2(k + 1))
  {
    hide IsRun, Pow2;
    if Lands(a, area, n, i + len, k, x) {
      var j: nat, m: nat :| IsRun(a, area, n, j, m) && j + m <= i + len &&
        m / Pow2(k) % 2 == 1 && x == j + m / Pow2(k + 1) * Pow2(k + 1);
      if j + m > i {
        SameRun(a, area, n, i, len, j, m);
      }
    }
  }

  lemma LandsSame(a: seq<Desc>, area: nat, n: nat, i: nat, k: nat, x: nat)
    requires i < n <= |a| && !Candidate(a[i], area)
    ensures Lands(a, area, n, i + 1, k, x) <==> Lands(a, area, n, i, k, x)
  {
    hide IsRun, Pow2;
    if Lands(a, area, n, i + 1, k, x) {
      var j: nat, m: nat :| IsRun(a, area, n, j, m) && j + m <= i + 1 &&
        m / Pow2(k) % 2 == 1 && x == j + m / Pow2(k + 1) * Pow2(k + 1);
      SkipRuns(a, area, n, i, j, m);
    }
  }

  lemma TileLands(a: seq<Desc>, area: nat, n: nat, i: nat, len: nat, k: nat, free: seq<seq<nat>>)
    requires |free| == ORDERS && len < RUN_MAX && k < ORDERS && IsRun(a, area, n, i, len)
    requires Landed(a, area, n, i, k, free[k])
    ensures Landed(a, area, n, i + len, k, Tile(free, i, len)[k])
  {
    hide IsRun, Lands, Pow2, Tile;
    var l := Tile(free, i, len)[k];
    TilePlaces(free, i, len, k);
    assert len / Pow2(k) % 2 == 1 ==> l == [l[0]] + free[k];
    forall x: nat ensures x in l <==> Lands(a, area, n, i + len, k, x) {
      LandsMore(a, area, n, i, len, k, x);
    }
    forall x | x in free[k] ensures x < i {
      LandsBelow(a, area, n, i, k, x);
    }
    if len / Pow2(k) % 2 == 1 {
      PlaceInside(len, k);
      forall p, q | 0 <= p < q < |l| ensures l[q] < l[p] {
        assert l[q] == free[k][q - 1] && l[q] in free[k];
        assert p > 0 ==> l[p] == free[k][p - 1];
      }
    }
  }

  lemma {:induction false} LayoutLands(a: seq<Desc>, area: nat, n: nat, i: nat, free: seq<seq<nat>>, k: nat)
    requires Bounded(a, area, n, i) && |free| == ORDERS && k < ORDERS
    requires Boundary(a, area, n, i) && Landed(a, area, n, i, k, free[k])
    ensures Landed(a, area, n, n, k, Layout(a, area, n, i, free)[k])
    decreases n - i
  {
    hide IsRun, Lands, Pow2, Tile, ScanLen;
    if i == n {
    } else if !Candidate(a[i], area) {
      forall x: nat ensures Lands(a, area, n, i + 1, k, x) <==> Lands(a, area, n, i, k, x) {
        LandsSame(a, area, n, i, k, x);
      }
      LayoutLands(a, area, n, i + 1, free, k);
    } else {
      RunInside(a, area, n, i);
      FoundRun(a, area, n, i);
      var len := ScanLen(a, area, i, n) + 1;
      TileLands(a, area, n, i, len, k, free);
      LayoutLands(a, area, n, i + len, Tile(free, i, len), k);
    }
  }

  /** After boot list k holds, from the last run to the first, the block of order k of each run whose length
      has the binary digit k, at its place behind the larger blocks of the run. */
  lemma BootLands(a: seq<Desc>, area: nat, n: nat)
    requires n < |a| && n < RUN_MAX && Closed(a, area, n)
    ensures Bounded(a, area, n, 0) && AllLanded(a, area, n, Layout(a, area, n, 0, NoLists()))
  {
    hide Layout, Landed;
    BootInsideIff(a, area, n);
    forall k | 0 <= k < ORDERS ensures Landed(a, area, n, n, k, Layout(a, area, n, 0, NoLists())[k]) {
      NoneLanded(a, area, n, k);
      LayoutLands(a, area, n, 0, NoLists(), k);
    }
  }

  lemma NoneLanded(a: seq<Desc>, area: nat, n: nat, k: nat)
    ensures Landed(a, area, n, 0, k, [])
  {
  }

  function NoLists(): (r: seq<seq<nat>>)
    ensures |r| == ORDERS && forall k :: 0 <= k < ORDERS ==> r[k] == []
  {
    seq(ORDERS, _ => [])
  }

  /** After boot the free lists partition the free pages of the area and are fully coalesced. */
  lemma BootGood(a: seq<Desc>, area: nat, n: nat)
    requires n < |a| && n < RUN_MAX && Closed(a, area, n)
    ensures Bounded(a, area, n, 0)
    ensures var managed := set q | 0 <= q < n && Candidate(a[q], area);
      && managed == (set q | 0 <= q < n && a[q].marty == area && a[q].uindx == 0 && a[q].mocty == 0 && !a[q].alloc)
      && Good(PageNumbers(a), managed, Pool(Layout(a, area, n, 0, NoLists()), map[]))
  {
    BootInsideIff(a, area, n);
    var none := Pool(NoLists(), map[]);
    assert Built(a, area, none, 0) && RunStart(a, area, none, 0);
    LayoutKeepsBuilt(a, area, n, 0, none);
  }

  // ---------------------------------------------------------------- descriptors during boot

  ghost predicate Below(p: Pool, i: nat) {
    forall s: nat, k: nat :: IsBlock(p, s, k) ==> s + Pow2(k) <= i
  }

  /** a' carries the same pages and allocation state as a. */
  ghost predicate SameBasics(a: seq<Desc>, a': seq<Desc>) {
    && |a'| == |a|
    && forall q :: 0 <= q < |a| ==>
         && a'[q].marty == a[q].marty && a'[q].mocty == a[q].mocty && a'[q].uindx == a[q].uindx
         && a'[q].alloc == a[q].alloc && a'[q].padrs == a[q].padrs
  }

  lemma ShapeIsFree(a: seq<Desc>, s: nat, k: nat)
    requires Last(s, k) < |a| && Quiet(a, s, Last(s, k))
    ensures FreeShape(ShapeFree(a, s, Last(s, k), k), s, k)
  {
  }

  lemma PutShape(a: seq<Desc>, p: Pool, k: nat, s: nat, t: nat, j: nat)
    requires p.live == map[] && k < |p.free| && Below(p, s) && Last(s, k) < |a| && Quiet(a, s, Last(s, k))
    requires IsFree(Put(p, k, s), t, j) && (IsFree(p, t, j) ==> Last(t, j) < |a| && FreeShape(a, t, j))
    ensures FreeShape(ShapeFree(a, s, Last(s, k), k), t, j)
  {
    hide Pow2;
    PutBlocks(p, k, s);
    ShapeIsFree(a, s, k);
    assert t != s || j != k ==> IsBlock(p, t, j) && Last(t, j) < s;
  }

  /** continumsadsc_add_bafhlst: writing the shape of a block above all listed ones. */
  lemma PutDescribed(a: seq<Desc>, area: nat, managed: set<nat>, p: Pool, k: nat, s: nat)
    requires p.live == map[] && k < |p.free| && Below(p, s) && Last(s, k) < |a|
    requires Described(a, area, managed, p, -1) && Quiet(a, s, Last(s, k))
    ensures var a' := ShapeFree(a, s, Last(s, k), k);
      && Described(a', area, managed, Put(p, k, s), -1)
      && SameBasics(a, a')
      && Below(Put(p, k, s), s + Pow2(k))
      && forall q :: Last(s, k) < q < |a| ==> a'[q] == a[q]
  {
    hide Pow2;
    var a', p' := ShapeFree(a, s, Last(s, k), k), Put(p, k, s);
    PutBlocks(p, k, s);
    forall t: nat, j: nat | IsFree(p', t, j) ensures FreeShape(a', t, j) {
      PutShape(a, p, k, s, t, j);
    }
    PutHeads(a, area, p, k, s);
  }

  /** A descriptor that starts a run starts a block of the new pool. */
  lemma PutHeads(a: seq<Desc>, area: nat, p: Pool, k: nat, s: nat)
    requires p.live == map[] && k < |p.free| && s <= Last(s, k) < |a|
    requires forall q: nat :: q < |a| && a[q].marty == area && a[q].olkty == Oder ==> IsHead(p, q)
    ensures var a' := ShapeFree(a, s, Last(s, k), k);
      forall q: nat :: q < |a| && a'[q].marty == area && a'[q].olkty == Oder ==> IsHead(Put(p, k, s), q)
  {
    hide Pow2;
    var a', p' := ShapeFree(a, s, Last(s, k), k), Put(p, k, s);
    PutBlocks(p, k, s);
    assert IsBlock(p', s, k);
    forall q: nat | q < |a| && a'[q].marty == area && a'[q].olkty == Oder ensures IsHead(p', q) {
      if q != s {
        var j: nat :| IsBlock(p, q, j);
        assert IsBlock(p', q, j);
      }
    }
  }
}
