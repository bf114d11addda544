/** One kernel or hardware memory area, hal/x86/memdivmer.c: descriptors, free lists and counters
    changed in place. Each method follows the C function named above it and is proved against the
    pool functions of PagePool; a branch that calls `system_error` ends in `assert false`. */
module PageArea {
  import opened Bits
  import opened Options
  import opened PagePool
  import opened PageDesc
  import opened PageBoot

  const COUNTER_MAX: nat := 0xffff_ffff_ffff_ffff
  const UINDX_MAX: nat := 0xff_ffff

  /** Result of comparing two blocks of one order, numbered as in the source. */
  datatype Side = Away | Before | After

  lemma ShapedOrder(g: seq<nat>, managed: set<nat>, p: Pool, s: nat)
    requires Partition(g, managed, p) && s in p.live
    ensures p.live[s] < ORDERS
  {
  }

  /** The pages of a block handed out are managed pages. */
  lemma BlockManaged(managed: set<nat>, g: seq<nat>, p: Pool, s: nat)
    requires Partition(g, managed, p) && s in p.live
    ensures forall q: nat :: s <= q <= Last(s, p.live[s]) ==> q in managed
  {
    forall q: nat | s <= q <= Last(s, p.live[s]) ensures q in managed {
      assert IsBlock(p, s, p.live[s]);
      assert Covers(p, q);
    }
  }

  lemma ProbeFacts(a: seq<Desc>, area: nat, g: seq<nat>, managed: set<nat>, p: Pool, s: nat, t: nat)
    requires Partition(g, managed, p) && Described(a, area, managed, p, s) && s in p.live && t in p.free[p.live[s]]
    ensures var k := p.live[s]; FreeShape(a, t, k) && Contiguous(g, s, Pow2(k)) && Contiguous(g, t, Pow2(k))
  {
    var k := p.live[s];
    assert IsFree(p, t, k) && IsBlock(p, t, k) && IsBlock(p, s, k);
  }

  lemma NoLivePages()
    ensures LivePages(map[]) == 0
  {
  }

  lemma BelowMore(p: Pool, i: nat)
    requires Below(p, i)
    ensures Below(p, i + 1)
  {
  }

  lemma StartBuilding(a: seq<Desc>, area: nat, managed: set<nat>, n: nat, p: Pool)
    requires p == Pool(NoLists(), map[]) && n < |a| && LinksInside(a)
    requires forall q :: 0 <= q < |a| && a[q].marty == area ==> a[q].olkty == Init
    requires managed == set q | 0 <= q < n && Candidate(a[q], area)
    ensures Described(a, area, managed, p, -1) && Below(p, 0) && SameBasics(a, a) && FreePages(p.free, ORDERS) == 0
  {
    NoPages(p.free, ORDERS);
  }

  lemma {:induction false} NoPages(free: seq<seq<nat>>, n: nat)
    requires n <= |free| && forall k :: 0 <= k < n ==> free[k] == []
    ensures FreePages(free, n) == 0
  {
    if n > 0 {
      NoPages(free, n - 1);
    }
  }

  /** Every check between mm_merge_pages and the change of the descriptors: onfrmsa_retn_marea,
      scan_freemsa_isok and onfpgs_retn_bafhlst. */
  ghost predicate Accepted(a: seq<Desc>, area: nat, s: nat, n: nat)
    requires s < |a|
  {
    && n >= 1
    && a[s].olkty == Oder && a[s].odlink.Page?
    && var e := a[s].odlink.index;
    && e < |a| && e - s + 1 == n
    && a[s].marty == a[e].marty && a[s].marty == area
    && a[s].uindx >= 1 && a[s].alloc && a[e].alloc && a[e].uindx >= 1
    && OrderFor(n) < ORDERS && Pow2(OrderFor(n)) == n
  }

  lemma OrderForPower(k: nat)
    ensures OrderFor(Pow2(k)) == k
  {
    OrderForIsCeilingLog(Pow2(k));
    var r := OrderFor(Pow2(k));
    assert r <= k;
    Pow2Monotone(r, k);
  }

  /** The free path accepts exactly the blocks handed out, with exactly their page count. */
  lemma AcceptedIffLive(a: seq<Desc>, area: nat, g: seq<nat>, managed: set<nat>, p: Pool, s: nat, n: nat)
    requires Partition(g, managed, p) && Described(a, area, managed, p, -1) && s < |a|
    ensures Accepted(a, area, s, n) <==> s in p.live && n == Pow2(p.live[s])
  {
    if s in p.live {
      var k := p.live[s];
      OrderForPower(k);
      BlockManaged(managed, g, p, s);
      assert LiveShape(a, s, k);
    } else {
      assert forall k: nat :: IsBlock(p, s, k) ==> IsFree(p, s, k) && FreeShape(a, s, k);
    }
  }

  /** Merging block s with its i-th free neighbour, on the pool and on the descriptors. */
  lemma MergeEffect(a: seq<Desc>, area: nat, g: seq<nat>, managed: set<nat>, p: Pool, s: nat, i: nat, m: nat, u: nat,
                    k: nat)
    requires Partition(g, managed, p) && s in p.live && p.live[s] == k && k + 1 < ORDERS && i < |p.free[k]|
    requires Touch(g, s, p.free[k][i], k) && m == Min(s, p.free[k][i]) && u == m + Pow2(k)
    requires Described(a, area, managed, p, s) && FreeShape(a, s, k)
    ensures Partition(g, managed, Join(p, s, i)) && Last(u, k) < |a|
    ensures var a' := Fuse(a, m, Last(m, k), u, Last(u, k), k + 1);
      && Described(a', area, managed, Join(p, s, i), m) && FreeShape(a', m, k + 1)
      && forall x :: 0 <= x < |a| && x !in managed ==> a'[x] == a[x]
  {
    hide Fused, Described, Partition, Shaped, Apart, HeadsAmong, LinksInside, Quiet, Pow2, Fuse, FreeShape;
    assert Shaped(p) && Apart(p) && FreeShape(a, p.free[k][i], k) && LinksInside(a) by {
      MergeFacts(a, area, g, managed, p, s, i);
    }
    JoinKeepsPartition(g, managed, p, s, i);
    JoinFuses(g, p, s, i);
    FuseShapes(a, m, u, k);
    FuseDescribed(a, Fuse(a, m, Last(m, k), u, Last(u, k), k + 1), area, managed, p, Join(p, s, i), s, m, u, k + 1);
    BlockManaged(managed, g, Join(p, s, i), m);
  }

  lemma MergeFacts(a: seq<Desc>, area: nat, g: seq<nat>, managed: set<nat>, p: Pool, s: nat, i: nat)
    requires Partition(g, managed, p) && s in p.live && i < |p.free[p.live[s]]| && Described(a, area, managed, p, s)
    ensures Shaped(p) && Apart(p) && FreeShape(a, p.free[p.live[s]][i], p.live[s]) && LinksInside(a)
  {
    assert IsFree(p, p.free[p.live[s]][i], p.live[s]);
  }

  lemma ReleaseEffect(g: seq<nat>, managed: set<nat>, p: Pool, s: nat)
    requires Good(g, managed, p) && s in p.live
    ensures p.live[s] < |p.free| == ORDERS
    ensures var q := Release(g, p, s);
      && Good(g, managed, q) && |q.free| == ORDERS && q.live == p.live - {s}
      && FreePages(q.free, ORDERS) == FreePages(p.free, ORDERS) + Pow2(p.live[s])
      && LivePages(q.live) == LivePages(p.live) - Pow2(p.live[s])
  {
    ReleaseKeepsGood(g, managed, p, s);
    ReleasePages(g, managed, p, s);
    LivePagesRemove(p.live, s);
  }

  lemma AllocEffect(g: seq<nat>, managed: set<nat>, p: Pool, req: Request)
    requires Good(g, managed, p) && Alloc(p, req).Some?
    ensures var (q, s) := Alloc(p, req).value;
      && Good(g, managed, q) && |q.free| == ORDERS && s in q.live
      && FreePages(q.free, ORDERS) == FreePages(p.free, ORDERS) - Pow2(q.live[s])
      && LivePages(q.live) == LivePages(p.live) + Pow2(q.live[s])
  {
    AllocKeepsGood(g, managed, p, req);
    AllocMovesPages(p, req);
  }

  lemma {:induction false} FreePagesAtLeast(free: seq<seq<nat>>, k: nat, n: nat)
    requires k < n <= |free|
    ensures FreePages(free, n) >= |free[k]| * Pow2(k)
    ensures FreePages(free, n) >= |free[k]|
    ensures free[k] != [] ==> FreePages(free, n) >= Pow2(k)
  {
    if k == n - 1 {
      ProductAtLeast(|free[k]|, Pow2(k));
    } else {
      FreePagesAtLeast(free, k, n - 1);
    }
  }

  lemma ProductAtLeast(x: nat, y: nat)
    requires y >= 1
    ensures x * y >= x
    ensures x >= 1 ==> x * y >= y
  {
    if x >= 1 {
      MultipleAtLeast(y, x);
      MultipleAtLeast(x, y);
      assert y * x == x * y;
    }
  }

  class Area {
    const area: nat
    const desc: array<Desc>
    const frelst: array<seq<nat>>
    const fobjnr: array<nat>
    const mobjnr: array<nat>
    var maxpages: nat
    var allocpages: nat
    var freepages: nat
    ghost const pages: seq<nat>
    ghost const managed: set<nat>
    ghost var live: map<nat, nat>

    ghost function State(): (p: Pool)
      reads this, frelst
    {
      Pool(frelst[..], live)
    }

    ghost predicate Wired()
      reads this, fobjnr, mobjnr, frelst, desc
    {
      && frelst.Length == ORDERS && fobjnr.Length == ORDERS && mobjnr.Length == ORDERS && fobjnr != mobjnr
      && desc.Length == |pages|
      && (forall q :: 0 <= q < desc.Length ==> desc[q].padrs == pages[q])
      && (forall k :: 0 <= k < ORDERS ==> fobjnr[k] == |frelst[k]| && mobjnr[k] == |frelst[k]|)
    }

    /** The area while block h is in transit; h is -1 between calls. */
    ghost predicate Consistent(h: int)
      reads this, fobjnr, mobjnr, frelst, desc
    {
      && Wired()
      && Partition(pages, managed, State())
      && Described(desc[..], area, managed, State(), h)
    }

    ghost predicate Counted()
      reads this, frelst
    {
      && frelst.Length == ORDERS
      && freepages == FreePages(frelst[..], ORDERS)
      && allocpages == LivePages(live)
      && maxpages == freepages + allocpages < COUNTER_MAX
    }

    ghost predicate Valid()
      reads this, fobjnr, mobjnr, frelst, desc
    {
      Consistent(-1) && Coalesced(pages, State()) && Counted()
    }

    // ------------------------------------------------------------ boot

    /** merlove_mem_onmemarea on the first n descriptors of the array. The scan looks one descriptor
        past the array; runs of RUN_MAX pages stop the boot. */
    constructor (area: nat, desc: array<Desc>, n: nat)
      requires n < desc.Length && n < RUN_MAX && Closed(desc[..], area, n) && LinksInside(desc[..])
      requires forall q :: 0 <= q < desc.Length && desc[q].marty == area ==> desc[q].olkty == Init
      modifies desc
      ensures Valid() && this.area == area && this.desc == desc && fresh(frelst) && fresh(fobjnr) && fresh(mobjnr)
      ensures pages == PageNumbers(old(desc[..])) && live == map[]
      ensures managed == set q | 0 <= q < n && Candidate(old(desc[..])[q], area)
      ensures Bounded(old(desc[..]), area, n, 0) && frelst[..] == Layout(old(desc[..]), area, n, 0, NoLists())
      ensures AllLanded(old(desc[..]), area, n, frelst[..])
      ensures freepages == maxpages <= n
      ensures forall q :: 0 <= q < desc.Length && q !in managed ==> desc[q] == old(desc[q])
    {
      this.area := area;
      this.desc := desc;
      frelst := new seq<nat>[ORDERS](_ => []);
      fobjnr := new nat[ORDERS](_ => 0);
      mobjnr := new nat[ORDERS](_ => 0);
      maxpages, allocpages, freepages := 0, 0, 0;
      pages := PageNumbers(desc[..]);
      managed := set q | 0 <= q < n && Candidate(desc[..][q], area);
      live := map[];
      new;
      hide Area.Valid, Bounded, Layout, AllLanded, Closed, LinksInside, Candidate;
      Build(n);
    }

    /** State of the area while it is being built up to descriptor i. */
    ghost predicate Building(a: seq<Desc>, n: nat, i: nat)
      reads this, fobjnr, mobjnr, frelst, desc
    {
      && Wired() && live == map[] && i <= n < RUN_MAX && n < |a| == desc.Length
      && Described(desc[..], area, managed, State(), -1)
      && Below(State(), i)
      && SameBasics(a, desc[..])
      && (forall q :: i <= q < |a| ==> desc[q] == a[q])
      && freepages == maxpages == FreePages(frelst[..], ORDERS) <= i
      && allocpages == 0
    }

    method Build(n: nat)
      requires Wired() && live == map[] && freepages == maxpages == allocpages == 0
      requires frelst[..] == NoLists()
      requires n < desc.Length && n < RUN_MAX && Closed(desc[..], area, n) && LinksInside(desc[..])
      requires forall q :: 0 <= q < desc.Length && desc[q].marty == area ==> desc[q].olkty == Init
      requires pages == PageNumbers(desc[..]) && managed == set q | 0 <= q < n && Candidate(desc[..][q], area)
      modifies this`maxpages, this`freepages, desc, frelst, fobjnr, mobjnr
      ensures Valid()
      ensures Bounded(old(desc[..]), area, n, 0) && frelst[..] == Layout(old(desc[..]), area, n, 0, NoLists())
      ensures AllLanded(old(desc[..]), area, n, frelst[..])
      ensures freepages == maxpages <= n
      ensures forall q :: 0 <= q < desc.Length && q !in managed ==> desc[q] == old(desc[q])
    {
      hide Described, Below, SameBasics, FreePages, Partition, Coalesced, LivePages, AllLanded;
      ghost var a := desc[..];
      BootInsideIff(a, area, n);
      StartBuilding(a, area, managed, n, State());
      var i := 0;
      while i < n
        invariant Bounded(a, area, n, i) && Building(a, n, i)
        invariant Layout(a, area, n, i, frelst[..]) == Layout(a, area, n, 0, NoLists())
        invariant forall q :: 0 <= q < desc.Length && q !in managed ==> desc[q] == a[q]
      {
        i := BuildStep(a, n, i);
      }
      BootGood(a, area, n);
      BootLands(a, area, n);
      NoLivePages();
    }

    /** merlove_scan_continumsadsc for one descriptor: skip it, or tile the run it starts. */
    method BuildStep(ghost a: seq<Desc>, n: nat, i: nat) returns (next: nat)
      requires Bounded(a, area, n, i) && i < n && Building(a, n, i)
      requires managed == set q | 0 <= q < n && Candidate(a[q], area)
      modifies this`maxpages, this`freepages, desc, frelst, fobjnr, mobjnr
      ensures i < next <= n && Bounded(a, area, n, next) && Building(a, n, next)
      ensures Layout(a, area, n, next, frelst[..]) == Layout(a, area, n, i, old(frelst[..]))
      ensures forall q :: 0 <= q < desc.Length && q !in managed ==> desc[q] == old(desc[q])
    {
      hide Described, Below, FreePages, ScanLen, Tile, Continues, StaysInside, Layout, Dealt;
      LayoutStep(a, area, n, i, frelst[..]);
      if desc[i].marty == area && desc[i].uindx == 0 && desc[i].mocty == 0 && !desc[i].alloc {
        var r := ScanLength(a, n, i);
        TileRun(a, n, i, r + 1);
        next := i + r + 1;
      } else {
        BelowMore(State(), i);
        next := i + 1;
      }
    }

    /** scan_len_msadsc, called with the full length n of the array */
    method ScanLength(ghost a: seq<Desc>, n: nat, i: nat) returns (r: nat)
      requires Bounded(a, area, n, i) && i < n && Candidate(a[i], area) && SameBasics(a, desc[..])
      ensures r == ScanLen(a, area, i, n)
    {
      r := 0;
      while r < n - 1
        invariant r <= n - 1 && i + r < n
        invariant Candidate(a[i + r], area)
        invariant r + ScanLen(a, area, i + r, n - r) == ScanLen(a, area, i, n)
      {
        var prev, next := desc[i + r], desc[i + r + 1];
        if !(prev.marty == area && prev.uindx == 0 && prev.mocty == 0 && !prev.alloc) {
          assert false;
        }
        if !(next.marty == area && next.uindx == 0 && next.mocty == 0 && !next.alloc && next.padrs == prev.padrs + 1) {
          return;
        }
        assert Continues(a, area, i + r);
        r := r + 1;
      }
    }

    /** find_continumsa_inbafhlst */
    method FindOrder(len: nat) returns (k: Option<nat>)
      requires len >= 1
      ensures len < RUN_MAX ==> k == Some(BitLength(len) - 1)
      ensures len >= RUN_MAX ==> k == None
    {
      hide Pow2, BitLength;
      k := None;
      var count := 0;
      ghost var top := BitLength(len);
      BitLengthBounds(len);
      PowerFits(0, len);
      for li := 0 to ORDERS
        invariant count == if li <= top then li else top
        invariant k == if count == 0 then None else Some(count - 1)
      {
        PowerFits(li, len);
        if Pow2(li) <= len {
          k := Some(li);
          count := count + 1;
        }
      }
      if ORDERS <= count {
        k := None;
      }
    }

    /** merlove_continumsadsc_mareabafh with continumsadsc_mareabafh_core */
    method TileRun(ghost a: seq<Desc>, n: nat, i: nat, len: nat)
      requires Building(a, n, i) && i + len <= n && forall j :: i <= j < i + len ==>
        j in managed && Candidate(a[j], area)
      modifies this`maxpages, this`freepages, desc, frelst, fobjnr, mobjnr
      ensures Building(a, n, i + len)
      ensures frelst[..] == Tile(old(frelst[..]), i, len)
      ensures forall k: nat :: k < ORDERS ==> Dealt(old(frelst[..])[k], frelst[..][k], i, len, k)
      ensures forall q :: 0 <= q < desc.Length && q !in managed ==> desc[q] == old(desc[q])
    {
      hide Described, Below, SameBasics, FreePages, Pow2, BitLength;
      var s: nat, rest: nat := i, len;
      while rest > 0
        invariant s + rest == i + len && i <= s && Building(a, n, s)
        invariant Tile(frelst[..], s, rest) == Tile(old(frelst[..]), i, len)
        invariant forall q :: 0 <= q < desc.Length && q !in managed ==> desc[q] == old(desc[q])
      {
        OrderBelowTop(rest);
        var k := FindOrder(rest);
        if k.None? {
          assert false;
        }
        AddBlock(a, n, k.value, s);
        s, rest := s + Pow2(k.value), rest - Pow2(k.value);
      }
      forall k: nat | k < ORDERS ensures Dealt(old(frelst[..])[k], frelst[..][k], i, len, k) {
        TilePlaces(old(frelst[..]), i, len, k);
      }
    }

    /** continumsadsc_add_bafhlst */
    method AddBlock(ghost a: seq<Desc>, n: nat, k: nat, s: nat)
      requires Building(a, n, s) && k < ORDERS && s + Pow2(k) <= n
      requires forall j :: s <= j < s + Pow2(k) ==> j in managed && Candidate(a[j], area)
      modifies this`maxpages, this`freepages, desc, frelst, fobjnr, mobjnr
      ensures Building(a, n, s + Pow2(k))
      ensures frelst[..] == old(frelst[..])[k := [s] + old(frelst[k])]
      ensures forall q :: 0 <= q < desc.Length && q !in managed ==> desc[q] == old(desc[q])
    {
      hide Described, Below, FreePages;
      var e := s + Pow2(k) - 1;
      ghost var b, p := desc[..], State();
      assert Quiet(b, s, e);
      PutDescribed(b, area, managed, p, k, s);
      MovePages(p, k, [s] + frelst[k]);
      desc[s] := desc[s].(olkty := Oder, odlink := Page(e));
      desc[e] := desc[e].(olkty := Bafh, odlink := List(k));
      assert desc[..] == ShapeFree(b, s, e, k);
      frelst[k] := [s] + frelst[k];
      fobjnr[k] := fobjnr[k] + 1;
      mobjnr[k] := mobjnr[k] + 1;
      maxpages := maxpages + Pow2(k);
      freepages := freepages + Pow2(k);
      assert State() == Put(p, k, s);
    }

    // ------------------------------------------------------------ allocation

    /** onmpgs_retn_bafhlst */
    method FindFit(n: nat) returns (c: Option<(nat, nat)>)
      requires Wired()
      ensures c == Choose(State(), Fit(n))
    {
      if n < 1 {
        return None;
      }
      var rel := OrderFor(n);
      if rel >= ORDERS {
        return None;
      }
      OrderForIsCeilingLog(n);
      for idx := rel to ORDERS
        invariant forall j :: rel <= j < idx ==> frelst[j] == []
      {
        if Pow2(idx) >= n && fobjnr[idx] > 0 {
          return Some((rel, idx));
        }
      }
      return None;
    }

    /** onma_retn_maxbafhlst */
    method FindBiggest() returns (c: Option<(nat, nat)>)
      requires Wired()
      ensures c == Choose(State(), Biggest)
    {
      for idx := ORDERS downto 0
        invariant forall j :: idx <= j < ORDERS ==> frelst[j] == []
      {
        if fobjnr[idx] > 0 {
          return Some((idx, idx));
        }
      }
      return None;
    }

    /** mm_retnmsaob_onbafhlst */
    method PopFront(k: nat) returns (ok: bool, s: nat, e: nat)
      requires Consistent(-1) && k < ORDERS
      modifies this`live, frelst, fobjnr, mobjnr
      ensures ok <==> old(frelst[k]) != []
      ensures !ok ==> unchanged(this, frelst, fobjnr, mobjnr)
      ensures ok ==> s == old(frelst[k])[0] && e == Last(s, k) && State() == Take(old(State()), k)
      ensures ok ==> Consistent(s) && CutShape(desc[..], s, k)
    {
      if mobjnr[k] < 1 || fobjnr[k] < 1 {
        return false, 0, 0;
      }
      ghost var p := State();
      s := frelst[k][0];
      TakeDescribed(desc[..], area, pages, managed, p, k);
      TakeKeepsPartition(pages, managed, p, k);
      assert IsFree(p, s, k);
      frelst[k] := frelst[k][1..];
      mobjnr[k] := mobjnr[k] - 1;
      fobjnr[k] := fobjnr[k] - 1;
      live := live[s := k];
      assert State() == Take(p, k);
      e := if desc[s].olkty == Bafh then s else desc[s].odlink.index;
      ok := true;
    }
  
    /** mrdmb_add_msa_bafh */
    method AddHalf(k: nat, s: nat, e: nat) returns (ok: bool)
      requires Wired() && k < ORDERS && s <= e < desc.Length
      modifies desc, frelst, fobjnr, mobjnr
      ensures ok <==> && e - s + 1 == Pow2(k) && old(desc[s]).uindx == 0 && old(desc[e]).uindx == 0
                      && !old(desc[s]).alloc && !old(desc[e]).alloc
      ensures !ok ==> unchanged(desc, frelst, fobjnr, mobjnr)
      ensures ok ==> desc[..] == ShapeFree(old(desc[..]), s, e, k)
      ensures ok ==> frelst[..] == old(frelst[..])[k := [s] + old(frelst[k])]
      ensures Wired()
    {
      if e - s + 1 != Pow2(k) || desc[s].uindx > 0 || desc[e].uindx > 0 || desc[s].alloc || desc[e].alloc {
        return false;
      }
      desc[s] := desc[s].(olkty := Oder, odlink := Page(e));
      desc[e] := desc[e].(olkty := Bafh, odlink := List(k));
      frelst[k] := [s] + frelst[k];
      mobjnr[k] := mobjnr[k] + 1;
      fobjnr[k] := fobjnr[k] + 1;
      return true;
    }

    /** mm_divpages_opmsadsc */
    method MarkAllocated(s: nat, mnr: nat)
      requires Consistent(s) && s in live && CutShape(desc[..], s, live[s]) && mnr == Pow2(live[s])
      modifies desc
      ensures Consistent(-1)
      ensures forall q :: 0 <= q < desc.Length && q !in managed ==> desc[q] == old(desc[q])
    {
      hide Partition, Described;
      ghost var a := desc[..];
      if (desc[s].olkty != Oder && desc[s].olkty != Bafh) || desc[s].odlink == Null || desc[s].alloc {
        assert false;
      }
      var e := if desc[s].olkty == Bafh then s else desc[s].odlink.index;
      if e < s {
        assert false;
      }
      if e - s + 1 != mnr {
        assert false;
      }
      if desc[s].uindx > UINDX_MAX - 1 || desc[e].uindx > UINDX_MAX - 1 || desc[s].uindx != desc[e].uindx {
        assert false;
      }
      MarkTakenDescribed(a, area, pages, managed, State(), s);
      BlockManaged(managed, pages, State(), s);
      desc[s] := desc[s].(uindx := desc[s].uindx + 1, alloc := true, olkty := Oder, odlink := Page(e));
      if s != e {
        desc[e] := desc[e].(uindx := desc[e].uindx + 1, alloc := true);
      }
      assert desc[..] == MarkTaken(a, s, e);
    }

    /** mm_reldpgsdivmsa_bafhl */
    method TakeFrom(rel: nat, div: nat) returns (s: nat)
      requires Consistent(-1) && rel <= div < ORDERS && frelst[div] != []
      modifies this`live, desc, frelst, fobjnr, mobjnr
      ensures s == old(frelst[div])[0]
      ensures State() == SplitTo(Take(old(State()), div), s, rel)
      ensures Consistent(-1)
      ensures forall q :: 0 <= q < desc.Length && q !in managed ==> desc[q] == old(desc[q])
    {
      hide Partition, Described, CutShape;
      ghost var p1 := Take(State(), div);
      var ok, start, e := PopFront(div);
      s := start;
      if !ok || e - s + 1 != Pow2(div) {
        assert false;
      }
      var k := div;
      while k > rel
        invariant rel <= k <= div && s in live && live[s] == k
        invariant Consistent(s) && CutShape(desc[..], s, k)
        invariant SplitTo(State(), s, rel) == SplitTo(p1, s, rel)
        invariant forall q :: 0 <= q < desc.Length && q !in managed ==> desc[q] == old(desc[q])
      {
        CutOnce(s, k - 1);
        k := k - 1;
      }
      MarkAllocated(s, Pow2(k));
    }

    /** One round of the loop in mm_reldpgsdivmsa_bafhl. */
    method CutOnce(s: nat, k: nat)
      requires s in live && live[s] == k + 1 < ORDERS
      requires Consistent(s) && CutShape(desc[..], s, k + 1)
      modifies this`live, desc, frelst, fobjnr, mobjnr
      ensures State() == Halve(old(State()), s)
      ensures Consistent(s) && CutShape(desc[..], s, k)
      ensures forall q :: 0 <= q < desc.Length && q !in managed ==> desc[q] == old(desc[q])
    {
      hide Partition, Described;
      ghost var p, a := State(), desc[..];
      CutDescribed(a, area, pages, managed, p, s);
      HalveKeepsPartition(pages, managed, p, s);
      BlockManaged(managed, pages, p, s);
      CutWrites(s, k);
      live := live[s := k];
    }

    method CutWrites(s: nat, k: nat)
      requires Wired() && k < ORDERS && Last(s, k + 1) < desc.Length
      requires desc[s].odlink == Page(Last(s, k + 1))
      requires var m := s + Pow2(k); var e := Last(s, k + 1);
        desc[m].uindx == 0 && desc[e].uindx == 0 && !desc[m].alloc && !desc[e].alloc
      modifies desc, frelst, fobjnr, mobjnr
      ensures Wired()
      ensures desc[..] == Cut(old(desc[..]), s, k)
      ensures frelst[..] == old(frelst[..])[k := [s + Pow2(k)] + old(frelst[k])]
    {
      var m := s + Pow2(k);
      var ok := AddHalf(k, m, desc[s].odlink.index);
      if !ok {
        assert false;
      }
      desc[s] := desc[s].(odlink := Page(m - 1));
    }
  
    /** mm_divpages_core, with mm_maxdivpages_onmarea and mm_reldivpages_onmarea: on success the
        first page of the block and the number of pages handed out. */
    method Allocate(req: Request) returns (r: Option<(nat, nat)>)
      requires Valid()
      modifies this`live, this`allocpages, this`freepages, desc, frelst, fobjnr, mobjnr
      ensures Valid() && maxpages == old(maxpages)
      ensures r.Some? <==> Alloc(old(State()), req).Some?
      ensures r.Some? ==>
        var (p, s) := Alloc(old(State()), req).value;
        && State() == p && r.value == (s, Pow2(p.live[s]))
        && freepages == old(freepages) - r.value.1 && allocpages == old(allocpages) + r.value.1
      ensures r.None? ==> unchanged(this, desc, frelst, fobjnr, mobjnr)
      ensures forall q :: 0 <= q < desc.Length && q !in managed ==> desc[q] == old(desc[q])
    {
      ghost var p := State();
      var c: Option<(nat, nat)> := None;
      match req {
        case Biggest =>
          c := FindBiggest();
        case Fit(n) =>
          ghost var best := Choose(p, Fit(n));
          if best.Some? {
            OrderForIsCeilingLog(n);
            FreePagesAtLeast(p.free, best.value.1, ORDERS);
          }
          if n < 1 || freepages < n || maxpages < n {
            return None;
          }
          c := FindFit(n);
      }
      if c.None? {
        return None;
      }
      var b := Finish(req, c.value.0, c.value.1);
      r := Some(b);
    }

    method Finish(ghost req: Request, rel: nat, div: nat) returns (b: (nat, nat))
      requires Valid() && Choose(State(), req) == Some((rel, div))
      modifies this`live, this`allocpages, this`freepages, desc, frelst, fobjnr, mobjnr
      ensures Valid() && maxpages == old(maxpages)
      ensures var (p, s) := Alloc(old(State()), req).value;
        && State() == p && b == (s, Pow2(p.live[s]))
        && freepages == old(freepages) - b.1 && allocpages == old(allocpages) + b.1
      ensures forall q :: 0 <= q < desc.Length && q !in managed ==> desc[q] == old(desc[q])
    {
      hide Partition, Described, Coalesced, FreePages, LivePages;
      AllocEffect(pages, managed, State(), req);
      var s := TakeFrom(rel, div);
      b := (s, Pow2(rel));
      freepages := freepages - b.1;
      allocpages := allocpages + b.1;
    }
  
    // ------------------------------------------------------------ release

    /** onfrmsa_retn_marea, scan_freemsa_isok and onfpgs_retn_bafhlst */
    method Check(s: nat, n: nat) returns (ok: bool, k: nat)
      requires Valid() && s < desc.Length
      ensures ok <==> Accepted(desc[..], area, s, n)
      ensures ok ==> s in live && k == live[s] && n == Pow2(k)
    {
      k := 0;
      AcceptedIffLive(desc[..], area, pages, managed, State(), s, n);
      if n < 1 || desc[s].olkty != Oder || desc[s].odlink == Null {
        return false, 0;
      }
      var e := desc[s].odlink.index;
      if e - s + 1 != n || desc[s].marty != desc[e].marty || desc[s].marty != area {
        return false, 0;
      }
      if desc[s].uindx < 1 || !desc[s].alloc || !desc[e].alloc || desc[e].uindx < 1 {
        return false, 0;
      }
      k := OrderFor(n);
      ok := k < ORDERS && Pow2(k) == n;
      if ok {
        OrderForPower(live[s]);
        FreePagesAtLeast(frelst[..], k, ORDERS);
        if mobjnr[k] >= COUNTER_MAX || fobjnr[k] >= COUNTER_MAX {
          assert false;
        }
      }
    }

    /** mm_merpages_opmsadsc: a page handed out has count 1, so the return for shared pages is never taken. */
    method MarkFreed(k: nat, s: nat, n: nat)
      requires Consistent(-1) && s in live && live[s] == k && n == Pow2(k)
      modifies desc
      ensures Consistent(s) && FreeShape(desc[..], s, k)
      ensures forall q :: 0 <= q < desc.Length && q !in managed ==> desc[q] == old(desc[q])
    {
      hide Partition, Described;
      ghost var a := desc[..];
      MarkReturnedDescribed(a, area, pages, managed, State(), s);
      BlockManaged(managed, pages, State(), s);
      if desc[s].olkty != Oder || desc[s].odlink == Null {
        assert false;
      }
      var e := desc[s].odlink.index;
      if e < s || e - s + 1 != n {
        assert false;
      }
      if !desc[s].alloc || desc[s].uindx < 1 || !desc[e].alloc || desc[e].uindx < 1 || desc[s].uindx != desc[e].uindx {
        assert false;
      }
      desc[s] := desc[s].(uindx := desc[s].uindx - 1);
      if s != e {
        desc[e] := desc[e].(uindx := desc[e].uindx - 1);
      }
      if desc[s].uindx > 0 {
        assert false;
      }
      desc[s] := desc[s].(alloc := false, olkty := Oder, odlink := Page(e));
      desc[e] := desc[e].(alloc := false, olkty := Bafh, odlink := List(k));
      assert desc[..] == MarkReturned(a, s, e, k);
    }

    /** mm_cmsa1blk_isok */
    predicate BlockOk(k: nat, s: nat, e: nat)
      requires s < desc.Length && e < desc.Length
      reads desc
    {
      && s <= e
      && (s != e ==> desc[s].olkty == Oder && desc[s].odlink == Page(e) && !desc[s].alloc && desc[s].uindx == 0)
      && desc[e].olkty == Bafh && desc[e].odlink == List(k) && !desc[e].alloc && desc[e].uindx == 0
      && desc[e].padrs - desc[s].padrs == e - s
    }

    /** mm_cmsa2blk_isok */
    method Compare(k: nat, s1: nat, e1: nat, s2: nat, e2: nat) returns (side: Side)
      requires e1 < desc.Length && e2 < desc.Length && Wired()
      requires e1 == Last(s1, k) && e2 == Last(s2, k)
      requires BlockOk(k, s1, e1) && BlockOk(k, s2, e2)
      ensures side == Away <==> !Touch(pages, s1, s2, k)
      ensures side == Before ==> s1 < s2
      ensures side == After ==> s2 < s1
    {
      if s1 == s2 || e1 == e2 {
        return Away;
      }
      if s1 < s2 && e1 < e2 {
        return if e1 + 1 != s2 || desc[e1].padrs + 1 != desc[s2].padrs then Away else Before;
      }
      return if e2 + 1 != s1 || desc[e2].padrs + 1 != desc[s1].padrs then Away else After;
    }
  
    /** mm_cmsa2blk_isok on a listed block t, with its two checks. */
    method Probe(k: nat, s: nat, t: nat) returns (side: Side)
      requires Consistent(s) && s in live && live[s] == k < ORDERS && FreeShape(desc[..], s, k) && t in frelst[k]
      ensures side == Away <==> !Touch(pages, s, t, k)
      ensures side == Before ==> s < t
      ensures side == After ==> t < s
    {
      hide Partition, Described;
      ProbeFacts(desc[..], area, pages, managed, State(), s, t);
      var e, f := s + Pow2(k) - 1, t + Pow2(k) - 1;
      if !BlockOk(k, s, e) {
        assert false;
      }
      if !BlockOk(k, t, f) {
        assert false;
      }
      side := Compare(k, s, e, t, f);
    }

    /** The scan of mm_find_cmsa2blk for a neighbour of block s of order k. */
    method FindTouching(k: nat, s: nat) returns (i: nat, side: Side)
      requires Consistent(s) && s in live && live[s] == k < ORDERS && FreeShape(desc[..], s, k)
      ensures i == FirstTouching(pages, frelst[k], s, k)
      ensures i < |frelst[k]| <==> side != Away
      ensures i < |frelst[k]| ==> if side == Before then s < frelst[k][i] else frelst[k][i] < s
    {
      hide Partition, Described;
      i, side := 0, Away;
      ghost var l := frelst[k];
      assert l[0..] == l;
      while i < |frelst[k]|
        invariant i <= |l| && side == Away
        invariant i + FirstTouching(pages, l[i..], s, k) == FirstTouching(pages, l, s, k)
      {
        assert l[i..][0] == l[i] && l[i..][1..] == l[i + 1..];
        side := Probe(k, s, frelst[k][i]);
        if side != Away {
          return;
        }
        i := i + 1;
      }
    }

    /** mm_clear_2msaolflg followed by chek_cl2molkflg */
    method FuseFlags(s1: nat, s2: nat, k: nat)
      requires s2 == s1 + Pow2(k) && Last(s2, k) < desc.Length && Wired()
      modifies desc
      ensures Wired()
      ensures desc[..] == Fuse(old(desc[..]), s1, Last(s1, k), s2, Last(s2, k), k + 1)
    {
      var e1, e2 := s1 + Pow2(k) - 1, s2 + Pow2(k) - 1;
      desc[e1] := desc[e1].(olkty := Init, odlink := Null);
      desc[s2] := desc[s2].(olkty := Init, odlink := Null);
      desc[s1] := desc[s1].(olkty := Oder, odlink := Page(e2));
      desc[e2] := desc[e2].(olkty := Bafh, odlink := List(k + 1));
      if e2 - s1 + 1 != Pow2(k + 1) {
        assert false;
      }
      if desc[s1].olkty != Oder || desc[s1].odlink != Page(e2) || desc[e2].olkty != Bafh
        || desc[e2].odlink != List(k + 1)
      {
        assert false;
      }
      if (s1 != e1 || s2 != e2) &&
         (desc[e1].olkty != Init || desc[e1].odlink != Null || desc[s2].olkty != Init || desc[s2].odlink != Null) {
        assert false;
      }
    }

    /** mm_find_cmsa2blk */
    method TryMerge(k: nat, s: nat) returns (found: bool, m: nat)
      requires Consistent(s) && s in live && live[s] == k && k + 1 < ORDERS && FreeShape(desc[..], s, k)
      modifies this`live, desc, frelst, fobjnr, mobjnr
      ensures var i := FirstTouching(pages, old(frelst[k]), s, k);
        && (found <==> i < |old(frelst[k])|)
        && (!found ==> m == s && unchanged(this, desc, frelst, fobjnr, mobjnr))
        && (found ==> State() == Join(old(State()), s, i) && m == Min(s, old(frelst[k])[i]))
      ensures Consistent(m) && FreeShape(desc[..], m, if found then k + 1 else k)
      ensures forall j :: 0 <= j < ORDERS ==> |frelst[j]| <= |old(frelst[j])|
      ensures forall q :: 0 <= q < desc.Length && q !in managed ==> desc[q] == old(desc[q])
    {
      hide Partition, Described;
      if fobjnr[k] < 1 {
        return false, s;
      }
      var i, side := FindTouching(k, s);
      if side == Away {
        return false, s;
      }
      m := Merge(k, s, i, side);
      return true, m;
    }

    method Merge(k: nat, s: nat, i: nat, side: Side) returns (m: nat)
      requires Consistent(s) && s in live && live[s] == k && k + 1 < ORDERS && FreeShape(desc[..], s, k)
      requires i < |frelst[k]| && Touch(pages, s, frelst[k][i], k)
      requires side != Away && if side == Before then s < frelst[k][i] else frelst[k][i] < s
      modifies this`live, desc, frelst, fobjnr, mobjnr
      ensures State() == Join(old(State()), s, i) && m == Min(s, old(frelst[k])[i])
      ensures Consistent(m) && FreeShape(desc[..], m, k + 1)
      ensures forall j :: 0 <= j < ORDERS ==> |frelst[j]| <= |old(frelst[j])|
      ensures forall q :: 0 <= q < desc.Length && q !in managed ==> desc[q] == old(desc[q])
    {
      hide Partition, Described, FreeShape, Fuse, Pow2;
      var t := frelst[k][i];
      m := if side == Before then s else t;
      ghost var p, a := State(), desc[..];
      MergeEffect(a, area, pages, managed, p, s, i, m, m + Pow2(k), k);
      frelst[k] := frelst[k][..i] + frelst[k][i + 1..];
      fobjnr[k] := fobjnr[k] - 1;
      mobjnr[k] := mobjnr[k] - 1;
      FuseFlags(m, if side == Before then t else s, k);
      live := (live - {s})[m := k + 1];
    }
  
    /** mpobf_add_msadsc */
    method AddFree(k: nat, s: nat, e: nat)
      requires Consistent(s) && s in live && live[s] == k && e == Last(s, k) && FreeShape(desc[..], s, k)
      requires |frelst[k]| < COUNTER_MAX
      modifies this`live, desc, frelst, fobjnr, mobjnr
      ensures State() == Give(old(State()), s)
      ensures Consistent(-1)
      ensures desc[..] == old(desc[..])
    {
      hide Partition, Described;
      ghost var p := State();
      assert k < ORDERS by {
        ShapedOrder(pages, managed, p, s);
      }
      GiveDescribed(desc[..], area, pages, managed, p, s);
      GiveKeepsPartition(pages, managed, p, s);
      if e < s || Pow2(k) != e - s + 1 {
        assert false;
      }
      if fobjnr[k] >= COUNTER_MAX || mobjnr[k] >= COUNTER_MAX {
        assert false;
      }
      ghost var a := desc[..];
      desc[s] := desc[s].(olkty := Oder, odlink := Page(e));
      desc[e] := desc[e].(olkty := Bafh, odlink := List(k));
      assert desc[..] == a;
      frelst[k] := [s] + frelst[k];
      fobjnr[k] := fobjnr[k] + 1;
      mobjnr[k] := mobjnr[k] + 1;
      live := live - {s};
    }

    /** mm_merpages_onbafhlst */
    method MergeUp(k0: nat, s0: nat)
      requires Consistent(s0) && s0 in live && live[s0] == k0 < ORDERS && FreeShape(desc[..], s0, k0)
      requires forall j :: 0 <= j < ORDERS ==> |frelst[j]| < COUNTER_MAX
      modifies this`live, desc, frelst, fobjnr, mobjnr
      ensures State() == Release(pages, old(State()), s0)
      ensures Consistent(-1)
      ensures forall q :: 0 <= q < desc.Length && q !in managed ==> desc[q] == old(desc[q])
    {
      hide Partition, Described, FreeShape, Touch;
      var k, s := k0, s0;
      ghost var target := Release(pages, State(), s0);
      while k < ORDERS - 1
        invariant Consistent(s) && s in live && live[s] == k < ORDERS && FreeShape(desc[..], s, k)
        invariant forall j :: 0 <= j < ORDERS ==> |frelst[j]| < COUNTER_MAX
        invariant Release(pages, State(), s) == target
        invariant forall q :: 0 <= q < desc.Length && q !in managed ==> desc[q] == old(desc[q])
        decreases ORDERS - k
      {
        var found, m := TryMerge(k, s);
        if !found {
          break;
        }
        s, k := m, k + 1;
      }
      AddFree(k, s, s + Pow2(k) - 1);
    }

    /** mm_merge_pages down to mm_merpages_onmarea */
    method Free(s: nat, n: nat) returns (ok: bool)
      requires Valid() && s < desc.Length
      modifies this`live, this`allocpages, this`freepages, desc, frelst, fobjnr, mobjnr
      ensures Valid() && maxpages == old(maxpages)
      ensures ok <==> s in old(live) && n == Pow2(old(live)[s])
      ensures !ok ==> unchanged(this, desc, frelst, fobjnr, mobjnr)
      ensures ok ==> State() == Release(pages, old(State()), s)
      ensures ok ==> freepages == old(freepages) + n && allocpages == old(allocpages) - n
      ensures forall q :: 0 <= q < desc.Length && q !in managed ==> desc[q] == old(desc[q])
    {
      AcceptedIffLive(desc[..], area, pages, managed, State(), s, n);
      hide Partition, Described, FreePages, LivePages, Accepted, Coalesced;
      var k;
      ok, k := Check(s, n);
      if ok {
        Return(k, s, n);
      }
    }

    /** mm_merpages_onmarea for a block that passed the checks. */
    method Return(k: nat, s: nat, n: nat)
      requires Valid() && s in live && k == live[s] && n == Pow2(k)
      modifies this`live, this`allocpages, this`freepages, desc, frelst, fobjnr, mobjnr
      ensures Valid() && maxpages == old(maxpages)
      ensures State() == Release(pages, old(State()), s)
      ensures freepages == old(freepages) + n && allocpages == old(allocpages) - n
      ensures forall q :: 0 <= q < desc.Length && q !in managed ==> desc[q] == old(desc[q])
    {
      hide Partition, Described, FreePages, LivePages, FreeShape, Coalesced;
      ReleaseEffect(pages, managed, State(), s);
      forall j | 0 <= j < ORDERS ensures |frelst[j]| < COUNTER_MAX {
        FreePagesAtLeast(frelst[..], j, ORDERS);
      }
      MarkFreed(k, s, n);
      MergeUp(k, s);
      freepages := freepages + n;
      allocpages := allocpages - n;
    }
  }

  /** A request whose block is freed at once leaves every list as it was, in order. */
  method AllocateThenFree(a: Area, req: Request)
    requires a.Valid()
    modifies a`live, a`allocpages, a`freepages, a.desc, a.frelst, a.fobjnr, a.mobjnr
    ensures a.Valid()
    ensures a.frelst[..] == old(a.frelst[..]) && a.live == old(a.live)
    ensures a.freepages == old(a.freepages) && a.allocpages == old(a.allocpages)
  {
    ghost var p := a.State();
    var r := a.Allocate(req);
    if r.Some? {
      hide Coalesced, FreePages, LivePages, Alloc, Release;
      AllocThenRelease(a.pages, a.managed, p, req);
      LiveInside(a.desc[..], a.area, a.managed, a.State(), r.value.0);
      var ok := a.Free(r.value.0, r.value.1);
      if !ok {
        assert false;
      }
    }
  }

  lemma LiveInside(a: seq<Desc>, area: nat, managed: set<nat>, p: Pool, s: nat)
    requires Described(a, area, managed, p, -1) && s in p.live
    ensures s < |a|
  {
    assert LiveShape(a, s, p.live[s]);
  }
}
