/** The object cache of hal/x86/kmsob.c on top of one memory area of hal/x86/memdivmer.c: where a slab needs
    pages they are allocated from the area, and a slab that is dropped gives every block back. A branch that
    stops the kernel is `assert false`. */
module ObjectHeap {
  import opened Bits
  import opened Options
  import P = PagePool
  import A = PageArea
  import D = PageDesc
  import S = Slab
  import C = SlabCache

  // ---------------------------------------------------------------- blocks held by the cache

  /** Block b is an outstanding allocation of the area. */
  ghost predicate IsLent(b: S.Block, live: map<nat, nat>, pages: seq<nat>) {
    b.msa in live && b.msa < |pages| && b.page == pages[b.msa] && b.pages == Pow2(live[b.msa])
  }

  ghost predicate Lent(ls: seq<seq<S.Slab>>, live: map<nat, nat>, pages: seq<nat>) {
    forall i, b :: 0 <= i < |ls| && b in S.Held(ls[i]) ==> IsLent(b, live, pages)
  }

  /** Descriptors of the blocks the cache holds. */
  ghost function Owned(ls: seq<seq<S.Slab>>): (r: set<nat>) {
    set i, b | 0 <= i < |ls| && b in S.Held(ls[i]) :: b.msa
  }

  /** Descriptors are in the order of their pages. */
  ghost predicate Rising(pages: seq<nat>) {
    forall i, j :: 0 <= i < j < |pages| ==> pages[i] < pages[j]
  }

  /** Blocks of one pool lie apart in memory. */
  lemma LentApart(p: P.Pool, pages: seq<nat>, managed: set<nat>, b: S.Block, c: S.Block)
    requires P.Partition(pages, managed, p) && Rising(pages)
    requires IsLent(b, p.live, pages) && IsLent(c, p.live, pages) && b.msa != c.msa
    ensures S.Apart(b, c)
  {
    var k, j := p.live[b.msa], p.live[c.msa];
    assert P.IsBlock(p, b.msa, k) && P.IsBlock(p, c.msa, j);
    RunBelow(pages, b.msa, k, c.msa);
    RunBelow(pages, c.msa, j, b.msa);
  }

  lemma RunBelow(pages: seq<nat>, s: nat, k: nat, t: nat)
    requires Rising(pages) && P.Contiguous(pages, s, Pow2(k)) && t < |pages|
    ensures s + Pow2(k) <= t ==> pages[s] + Pow2(k) <= pages[t]
  {
    if s + Pow2(k) <= t {
      assert pages[s + Pow2(k) - 1] == pages[s] + Pow2(k) - 1;
    }
  }

  /** Two blocks that lie apart are different allocations. */
  lemma ApartDiffers(b: S.Block, c: S.Block, live: map<nat, nat>, pages: seq<nat>)
    requires IsLent(b, live, pages) && IsLent(c, live, pages) && S.Apart(b, c)
    ensures b.msa != c.msa
  {
  }

  ghost function Descriptors(bs: seq<S.Block>): (r: set<nat>) {
    set b | b in bs :: b.msa
  }

  /** One class gains block b. */
  lemma OwnedGrows(ls: seq<seq<S.Slab>>, ls': seq<seq<S.Slab>>, i: nat, b: S.Block)
    requires |ls'| == |ls| && i < |ls| && forall j :: 0 <= j < |ls| && j != i ==> ls'[j] == ls[j]
    requires multiset(S.Held(ls'[i])) == multiset(S.Held(ls[i])) + multiset{b}
    ensures Owned(ls') == Owned(ls) + {b.msa}
    ensures forall j, c :: 0 <= j < |ls| && c in S.Held(ls'[j]) ==> c == b || c in S.Held(ls[j])
  {
    forall c ensures c in S.Held(ls'[i]) <==> c in S.Held(ls[i]) || c == b {
      assert c in S.Held(ls'[i]) <==> c in multiset(S.Held(ls'[i]));
      assert c in S.Held(ls[i]) <==> c in multiset(S.Held(ls[i]));
    }
    forall x ensures x in Owned(ls') <==> x in Owned(ls) + {b.msa} {
      if x == b.msa {
        assert b in S.Held(ls'[i]);
      }
    }
  }

  /** One class loses all its blocks, or keeps them. */
  lemma OwnedShrinks(ls: seq<seq<S.Slab>>, ls': seq<seq<S.Slab>>, i: nat)
    requires |ls'| == |ls| && i < |ls| && forall j :: 0 <= j < |ls| && j != i ==> ls'[j] == ls[j]
    requires S.Held(ls'[i]) == [] || S.Held(ls'[i]) == S.Held(ls[i])
    ensures S.Held(ls'[i]) == S.Held(ls[i]) ==> Owned(ls') == Owned(ls)
    ensures S.Held(ls'[i]) == [] ==> Owned(ls) == Owned(ls') + Descriptors(S.Held(ls[i]))
  {
    forall x | x in Owned(ls) ensures x in Owned(ls') || x in Descriptors(S.Held(ls[i])) {
      var j, b :| 0 <= j < |ls| && b in S.Held(ls[j]) && b.msa == x;
      assert j != i ==> b in S.Held(ls'[j]);
    }
    forall x | x in Owned(ls') ensures x in Owned(ls) {
      var j, b :| 0 <= j < |ls'| && b in S.Held(ls'[j]) && b.msa == x;
      assert b in S.Held(ls[j]);
    }
    forall x | x in Descriptors(S.Held(ls[i])) ensures x in Owned(ls) {
      var b :| b in S.Held(ls[i]) && b.msa == x;
    }
  }

  /** After class i has given its blocks back, the blocks of the others are still lent. */
  lemma OthersLent(ls: seq<seq<S.Slab>>, objects: map<nat, nat>, i: nat, live: map<nat, nat>, pages: seq<nat>)
    requires S.Good(ls, objects) && i < |ls| && Lent(ls, live, pages)
    ensures Lent(ls[i := []], live - Descriptors(S.Held(ls[i])), pages)
  {
    hide S.ClassOk;
    var ls' := ls[i := []];
    forall j, b | 0 <= j < |ls'| && b in S.Held(ls'[j]) ensures IsLent(b, live - Descriptors(S.Held(ls[i])), pages) {
      assert j != i && ls'[j] == ls[j];
      assert IsLent(b, live, pages);
      if b.msa in Descriptors(S.Held(ls[i])) {
        var c :| c in S.Held(ls[i]) && c.msa == b.msa;
        assert S.Between(ls[if i < j then i else j], ls[if i < j then j else i]);
        ApartDiffers(b, c, live, pages);
      }
    }
  }

  /** The blocks of one class are different allocations. */
  lemma ClassDistinct(ls: seq<seq<S.Slab>>, objects: map<nat, nat>, i: nat, live: map<nat, nat>, pages: seq<nat>)
    requires S.Good(ls, objects) && i < |ls| && Lent(ls, live, pages)
    ensures var l := S.Held(ls[i]); forall m, n :: 0 <= m < n < |l| ==> l[m].msa != l[n].msa
  {
    var l := S.Held(ls[i]);
    assert S.ClassOk(ls[i], i, objects);
    forall m, n | 0 <= m < n < |l| ensures l[m].msa != l[n].msa {
      assert l[m] in l && l[n] in l;
      ApartDiffers(l[m], l[n], live, pages);
    }
  }

  /** Pages drawn for an object of n bytes. */
  function Need(n: nat): nat {
    if n <= 128 then 1 else if n <= 512 then 2 else 4
  }

  class Heap {
    const area: A.Area
    const cache: C.Cache

    /** The two objects share no array. */
    ghost predicate Separate() {
      var x: set<object> := {area.desc, area.frelst, area.fobjnr, area.mobjnr, area};
      var y: set<object> := {cache.lists, cache.cached, cache.counts, cache};
      x !! y
    }

    ghost function Parts(): (r: set<object>) {
      {area, area.desc, area.frelst, area.fobjnr, area.mobjnr, cache, cache.lists, cache.cached, cache.counts}
    }

    /** Both are in order and every block of the cache is an outstanding allocation of the area. */
    ghost predicate Valid()
      reads Parts()
    {
      && Separate() && area.Valid() && cache.Valid() && Rising(area.pages)
      && Lent(cache.lists[..], area.live, area.pages)
    }

    /** Allocations of the area that are not the cache's. */
    ghost function Foreign(): (r: map<nat, nat>)
      reads Parts()
    {
      area.live - Owned(cache.lists[..])
    }

    constructor (area: A.Area)
      requires area.Valid() && Rising(area.pages)
      ensures Valid() && this.area == area && fresh(cache) && cache.live == map[] && Foreign() == area.live
    {
      this.area := area;
      this.cache := new C.Cache();
      new;
      hide S.Good, S.Held, A.Area.Valid, C.Cache.Valid, Rising, C.Linked, C.Tally, Lent, Owned;
      NothingHeld(cache.lists[..], cache.live);
      NothingLent(cache.lists[..], area.live, area.pages);
    }

    /** mm_division_pages for a slab or an extension of `want` pages: a block that lies apart from all others. */
    method Obtain(want: nat) returns (offer: Option<S.Block>)
      requires Valid() && (want == 1 || want == 2 || want == 4)
      modifies area, area.desc, area.frelst, area.fobjnr, area.mobjnr
      ensures Valid() && (offer.None? <==> P.Alloc(old(area.State()), P.Fit(want)).None?)
      ensures offer.None? ==> area.live == old(area.live) && area.freepages == old(area.freepages)
      ensures offer.Some? ==> area.freepages == old(area.freepages) - want
      ensures offer.Some? ==> offer.value.pages == want && IsLent(offer.value, area.live, area.pages)
      ensures offer.Some? ==> var s := offer.value.msa;
        s !in old(area.live) && area.live == old(area.live)[s := area.live[s]]
      ensures offer.Some? ==> cache.Usable(offer.value)
    {
      hide P.Partition, D.Described, P.Coalesced, P.FreePages, P.LivePages, P.Alloc, S.Good, C.Linked, C.Tally;
      ghost var was := area.State();
      PartitionShaped(area.pages, area.managed, was);
      var r := area.Allocate(P.Fit(want));
      if r.None? {
        return None;
      }
      var s, n := r.value.0, r.value.1;
      P.AllocIsBestFit(was, want);
      P.AllocMovesPages(was, P.Fit(want));
      ExactPower(area.live[s], want);
      A.LiveInside(area.desc[..], area.area, area.managed, area.State(), s);
      offer := Some(S.Block(area.desc[s].padrs, n, s));
      LentGrows(cache.lists[..], was.live, area.live, area.pages, s);
      forall i, c | 0 <= i < S.CLASSES && c in S.Held(cache.lists[i]) ensures S.Apart(offer.value, c) {
        assert IsLent(c, was.live, area.pages);
        LentApart(area.State(), area.pages, area.managed, offer.value, c);
      }
    }

    /** The pages kmsob_new takes for an object of n bytes: some exactly where a slab is missing or full and
        the area has them. */
    method Supply(n: nat) returns (offer: Option<S.Block>)
      requires Valid()
      modifies area, area.desc, area.frelst, area.fobjnr, area.mobjnr
      ensures Valid()
      ensures offer.Some? <==> 1 <= n <= 2048 && var i := S.ClassOf(n);
        old(Lacking(i)) && P.Alloc(old(area.State()), P.Fit(Need(n))).Some?
      ensures offer.None? ==> area.live == old(area.live) && area.freepages == old(area.freepages)
      ensures offer.Some? ==> offer.value.pages == Need(n) && cache.Usable(offer.value)
      ensures offer.Some? ==> area.freepages == old(area.freepages) - Need(n)
      ensures offer.Some? ==> IsLent(offer.value, area.live, area.pages)
      ensures offer.Some? ==> var s := offer.value.msa;
        s !in old(area.live) && area.live == old(area.live)[s := area.live[s]]
    {
      hide P.Alloc, S.Good, C.Linked, C.Tally, Lent, Rising, P.Partition, D.Described, P.Coalesced;
      if n < 1 || n > 2048 {
        return None;
      }
      var i := cache.FindClass(n);
      S.SizesAre(n);
      LackingIs(i);
      if cache.lists[i] != [] && cache.lists[i][0].fobjnr >= 1 {
        return None;
      }
      offer := Obtain(S.PagesFor(S.SizeOf(i)));
    }

    /** kmsob_new with the pages it takes. Whether it succeeds depends on the area only where a slab is
        missing or full; nothing is taken from the area when it fails. */
    method New(n: nat) returns (ret: nat)
      requires Valid()
      modifies Parts()
      ensures Valid() && Foreign() == old(Foreign())
      ensures ret == 0 ==> area.live == old(area.live) && cache.live == old(cache.live)
      ensures ret != 0 ==>
        ret !in old(cache.live) && 1 <= n <= 2048 && cache.live == old(cache.live)[ret := S.ClassOf(n)]
      ensures ret == 0 <==> n < 1 || n > 2048 || var want := if n <= 128 then 1 else if n <= 512 then 2 else 4;
        && old(Lacking(S.ClassOf(n)))
        && forall k :: 0 <= k < 52 && want <= Pow2(k) ==> old(area.frelst[..])[k] == []
      ensures area.freepages == old(area.freepages) -
        if ret == 0 || !old(Lacking(S.ClassOf(n))) then 0 else if n <= 128 then 1 else if n <= 512 then 2 else 4
    {
      hide A.Area.Valid, C.Cache.Valid, Lent, Rising, P.Alloc, Owned, IsLent, Lacking, S.SizeOf, S.PagesFor;
      ghost var live := area.live;
      Fitting(n);
      var offer := Supply(n);
      if 1 <= n <= 2048 {
        SameLack(n);
      }
      ret := Take(n, offer, live);
    }

    /** The area can serve the pages exactly when it has a free block of at least that many. */
    lemma Fitting(n: nat)
      requires Valid()
      ensures |area.frelst[..]| == P.ORDERS
      ensures P.Alloc(area.State(), P.Fit(Need(n))).None?
        <==> forall k :: 0 <= k < P.ORDERS && Need(n) <= Pow2(k) ==> area.frelst[..][k] == []
    {
      hide P.Alloc, P.Coalesced, D.Described, S.Good;
      PartitionShaped(area.pages, area.managed, area.State());
      P.AllocIsBestFit(area.State(), Need(n));
    }

    twostate lemma SameLack(n: nat)
      requires old(Valid()) && Valid() && cache.lists[..] == old(cache.lists[..]) && 1 <= n <= 2048
      ensures Lacking(S.ClassOf(n)) == old(Lacking(S.ClassOf(n)))
    {
    }

    /** kmsob_new with the block it got, if any; `live` is what the area had given out before. */
    method Take(n: nat, offer: Option<S.Block>, ghost live: map<nat, nat>) returns (ret: nat)
      requires Valid() && (offer.None? ==> area.live == live)
      requires offer.Some? ==> 1 <= n <= 2048 && Lacking(S.ClassOf(n)) && cache.Usable(offer.value)
      requires offer.Some? ==> offer.value.pages == Need(n)
      requires offer.Some? ==> IsLent(offer.value, area.live, area.pages)
      requires offer.Some? ==> var s := offer.value.msa; s !in live && area.live == live[s := area.live[s]]
      modifies cache, cache.lists, cache.cached, cache.counts
      ensures Valid() && Foreign() == live - Owned(old(cache.lists[..]))
      ensures ret == 0 ==> cache.live == old(cache.live)
      ensures ret != 0 ==>
        ret !in old(cache.live) && 1 <= n <= 2048 && cache.live == old(cache.live)[ret := S.ClassOf(n)]
      ensures ret == 0 <==> n < 1 || n > 2048 || (offer.None? && old(Lacking(S.ClassOf(n))))
    {
      hide A.Area.Valid, C.Cache.Valid, Lent, Rising, Owned, IsLent, S.SizeOf, S.PagesFor;
      hide S.Held, S.TookOne, C.Cache.Usable, C.Cache.Shape;
      ghost var ls := cache.lists[..];
      Lengths();
      ret := cache.New(n, offer);
      if ret != 0 {
        TookHeld(ls[S.ClassOf(n)]);
        StillLent(ls, cache.lists[..], S.ClassOf(n), offer, live, area.live, area.pages);
      }
    }

    /** Class i has no slab or a full one. */
    ghost predicate Lacking(i: nat)
      reads Parts()
      requires Valid() && i < S.CLASSES
    {
      cache.lists[i] == [] || cache.lists[i][0].free == []
    }

    lemma Lengths()
      requires Valid()
      ensures cache.lists.Length == S.CLASSES
    {
    }

    lemma LackingIs(i: nat)
      requires Valid() && i < S.CLASSES
      ensures Lacking(i) <==> cache.lists[i] == [] || cache.lists[i][0].fobjnr < 1
      ensures S.PagesFor(S.SizeOf(i)) == 1 || S.PagesFor(S.SizeOf(i)) == 2 || S.PagesFor(S.SizeOf(i)) == 4
    {
      C.GoodAt(cache.lists[..], cache.live, i);
      C.SlabParts(cache.lists[..][i], i, cache.live);
    }

    /** kmsob_delete with the pages it gives back, for every address: the last slot of a slab returns every block
        of it, and the area accepts each one. Area and foreign allocations stay in order whatever is freed; the
        whole does if and only if the slot held a live object. A free slot freed again drops the slab exactly
        when one object of the class is live, and takes its pages away from it. */
    method Delete(a: nat, n: nat) returns (ok: bool)
      requires Valid()
      modifies Parts()
      ensures ok <==> 1 <= n <= 2048 && a in C.SlotsOf(old(cache.lists[S.ClassOf(n)]))
      ensures cache.live == if ok then old(cache.live) - {a} else old(cache.live)
      ensures area.Valid() && Foreign() == old(Foreign()) && Lent(cache.lists[..], area.live, area.pages)
      ensures Valid() <==> (ok ==> a in S.LiveOf(old(cache.live), S.ClassOf(n)))
      ensures ok && !Valid() ==> var i := S.ClassOf(n);
        i < cache.lists.Length && (cache.lists[i] == [] <==> |S.LiveOf(cache.live, i)| == 1)
    {
      hide A.Area.Valid, C.Cache.Valid, Lent, Rising, Owned, IsLent, Descriptors, C.SlotsOf;
      ghost var ls, objects := cache.lists[..], cache.live;
      var m := |cache.released|;
      Lengths();
      CacheGood();
      ok := cache.Delete(a, n);
      assert !ok ==> cache.lists[..] == ls;
      if ok {
        ghost var i := S.ClassOf(n);
        ghost var s: S.Slab := ls[i][0];
        ghost var l := C.Left(s, a);
        var bs := cache.released[m..];
        assert bs == if l == [] then s.exts + [s.own] else [];
        assert cache.lists[..] == ls[i := l];
        C.LastLive(ls, objects, i);
        StillLive(objects, i, a);
        Retired(ls, objects, i, a, bs, area.live, area.pages);
        ReturnAll(bs);
      }
    }

    lemma CacheGood()
      requires Valid()
      ensures S.Good(cache.lists[..], cache.live)
    {
    }

    /** Once every object is deleted the area has exactly the allocations it has from elsewhere: nothing leaks. */
    lemma Drained()
      requires Valid() && cache.live == map[]
      ensures area.live == Foreign()
    {
      NothingHeld(cache.lists[..], cache.live);
    }

    /** The mm_merge_pages calls of _destroy_kmsob_core: the area accepts every block. */
    method ReturnAll(bs: seq<S.Block>)
      requires area.Valid() && forall k :: 0 <= k < |bs| ==> IsLent(bs[k], area.live, area.pages)
      requires forall j, k :: 0 <= j < k < |bs| ==> bs[j].msa != bs[k].msa
      modifies area, area.desc, area.frelst, area.fobjnr, area.mobjnr
      ensures area.Valid() && area.live == old(area.live) - Descriptors(bs)
    {
      hide P.Partition, D.Described, P.Coalesced, P.FreePages, P.LivePages, P.Release;
      var k := 0;
      assert Descriptors(bs[..0]) == {};
      while k < |bs|
        invariant k <= |bs| && area.Valid() && area.live == old(area.live) - Descriptors(bs[..k])
        invariant forall j :: k <= j < |bs| ==> IsLent(bs[j], area.live, area.pages)
      {
        ghost var was := area.State();
        A.LiveInside(area.desc[..], area.area, area.managed, was, bs[k].msa);
        P.ReleasePages(area.pages, area.managed, was, bs[k].msa);
        var ok := area.Free(bs[k].msa, bs[k].pages);
        if !ok {
          assert false;
        }
        DescriptorsNext(bs, k);
        k := k + 1;
      }
      assert bs[..k] == bs;
    }
  }

  lemma TookHeld(l: seq<S.Slab>)
    ensures l != [] && l[0].free != [] ==> S.Held([S.TookOne(l[0])]) == S.Held(l)
  {
  }

  lemma LentGrows(ls: seq<seq<S.Slab>>, live: map<nat, nat>, live': map<nat, nat>, pages: seq<nat>, s: nat)
    requires Lent(ls, live, pages) && s !in live && s in live' && live' == live[s := live'[s]]
    ensures Lent(ls, live', pages)
  {
    forall i, b | 0 <= i < |ls| && b in S.Held(ls[i]) ensures IsLent(b, live', pages) {
      assert IsLent(b, live, pages);
    }
  }

  lemma NothingLent(ls: seq<seq<S.Slab>>, live: map<nat, nat>, pages: seq<nat>)
    requires forall i :: 0 <= i < |ls| ==> ls[i] == []
    ensures Lent(ls, live, pages)
  {
  }

  lemma StillLive(objects: map<nat, nat>, i: nat, a: nat)
    ensures a !in S.LiveOf(objects, i) ==> S.LiveOf(objects - {a}, i) == S.LiveOf(objects, i)
  {
  }

  lemma DescriptorsNext(bs: seq<S.Block>, k: nat)
    requires k < |bs|
    ensures Descriptors(bs[..k + 1]) == Descriptors(bs[..k]) + {bs[k].msa}
  {
    assert bs[..k + 1] == bs[..k] + [bs[k]];
  }

  lemma PartitionShaped(pages: seq<nat>, managed: set<nat>, p: P.Pool)
    requires P.Partition(pages, managed, p)
    ensures P.Shaped(p)
  {
  }

  lemma ExactPower(k: nat, want: nat)
    requires want <= Pow2(k) < 2 * want && (want == 1 || want == 2 || want == 4)
    ensures Pow2(k) == want
  {
    assert Pow2(0) == 1 && Pow2(1) == 2 && Pow2(2) == 4 && Pow2(3) == 8;
    if k > 3 {
      Pow2Monotone(3, k);
    }
  }

  /** What a delete gives back is lent, without repetition, and what stays is lent afterwards. */
  lemma Retired(ls: seq<seq<S.Slab>>, objects: map<nat, nat>, i: nat, a: nat, bs: seq<S.Block>,
                live: map<nat, nat>, pages: seq<nat>)
    requires S.Good(ls, objects) && i < |ls| && |ls[i]| == 1 && Lent(ls, live, pages)
    requires bs == if C.Left(ls[i][0], a) == [] then ls[i][0].exts + [ls[i][0].own] else []
    ensures forall k :: 0 <= k < |bs| ==> IsLent(bs[k], live, pages)
    ensures forall j, k :: 0 <= j < k < |bs| ==> bs[j].msa != bs[k].msa
    ensures var ls' := ls[i := C.Left(ls[i][0], a)];
      Lent(ls', live - Descriptors(bs), pages) && live - Descriptors(bs) - Owned(ls') == live - Owned(ls)
  {
    hide S.Good, Lent, Owned, IsLent;
    var s := ls[i][0];
    if C.Left(s, a) == [] {
      assert bs == s.exts + [s.own];
      BlocksRetire(ls, objects, i, live, pages);
      SlabDropped(ls, objects, i, live, pages);
      SameDescriptors(s.exts, s.own);
    } else {
      SlabKept(ls, i, S.GaveOne(s, a), live, pages);
      assert Descriptors(bs) == {} && live - {} == live;
    }
  }

  /** A slab that keeps its blocks. */
  lemma SlabKept(ls: seq<seq<S.Slab>>, i: nat, r: S.Slab, live: map<nat, nat>, pages: seq<nat>)
    requires i < |ls| && |ls[i]| == 1 && S.Blocks(r) == S.Blocks(ls[i][0]) && Lent(ls, live, pages)
    ensures Lent(ls[i := [r]], live, pages) && Owned(ls[i := [r]]) == Owned(ls)
  {
    hide IsLent, S.Blocks;
    var ls' := ls[i := [r]];
    assert S.Held(ls'[i]) == S.Held(ls[i]);
    OwnedShrinks(ls, ls', i);
    forall j, b | 0 <= j < |ls'| && b in S.Held(ls'[j]) ensures IsLent(b, live, pages) {
      assert b in S.Held(ls[j]);
    }
  }

  /** A slab that gives its blocks back. */
  lemma SlabDropped(ls: seq<seq<S.Slab>>, objects: map<nat, nat>, i: nat, live: map<nat, nat>, pages: seq<nat>)
    requires S.Good(ls, objects) && i < |ls| && |ls[i]| == 1 && Lent(ls, live, pages)
    ensures var l := Descriptors(S.Blocks(ls[i][0]));
      Lent(ls[i := []], live - l, pages) && live - l - Owned(ls[i := []]) == live - Owned(ls)
  {
    hide S.Good, Lent, Owned, Descriptors;
    OwnedShrinks(ls, ls[i := []], i);
    OthersLent(ls, objects, i, live, pages);
  }

  /** The blocks of a slab, in the order they are returned, are different allocations. */
  lemma BlocksRetire(ls: seq<seq<S.Slab>>, objects: map<nat, nat>, i: nat, live: map<nat, nat>, pages: seq<nat>)
    requires S.Good(ls, objects) && i < |ls| && |ls[i]| == 1 && Lent(ls, live, pages)
    ensures var bs := ls[i][0].exts + [ls[i][0].own];
      && (forall k :: 0 <= k < |bs| ==> IsLent(bs[k], live, pages))
      && forall j, k :: 0 <= j < k < |bs| ==> bs[j].msa != bs[k].msa
  {
    hide S.Good, IsLent;
    var s := ls[i][0];
    var l, bs := S.Held(ls[i]), s.exts + [s.own];
    ClassDistinct(ls, objects, i, live, pages);
    assert l == [s.own] + s.exts;
    forall k | 0 <= k < |bs| ensures bs[k] == l[if k < |s.exts| then k + 1 else 0] && IsLent(bs[k], live, pages) {
      assert l[if k < |s.exts| then k + 1 else 0] in l;
    }
  }

  lemma SameDescriptors(l: seq<S.Block>, b: S.Block)
    ensures Descriptors(l + [b]) == Descriptors([b] + l)
  {
    assert forall x :: x in l + [b] <==> x in [b] + l;
  }

  /** After a new object the blocks of the cache are lent, and the area has given out one more at most. */
  lemma StillLent(ls: seq<seq<S.Slab>>, ls': seq<seq<S.Slab>>, i: nat, offer: Option<S.Block>,
                  live: map<nat, nat>, live': map<nat, nat>, pages: seq<nat>)
    requires |ls| == |ls'| && i < |ls| && Lent(ls, live', pages) && forall j :: 0 <= j < |ls| && j != i ==>
      ls'[j] == ls[j]
    requires offer.Some? ==> IsLent(offer.value, live', pages)
    requires if offer.None? then live' == live else var s := offer.value.msa; s !in live && live' == live[s := live'[s]]
    requires if offer.None? then S.Held(ls'[i]) == S.Held(ls[i])
      else multiset(S.Held(ls'[i])) == multiset(S.Held(ls[i])) + multiset{offer.value}
    ensures Lent(ls', live', pages) && live' - Owned(ls') == live - Owned(ls)
  {
    if offer.Some? {
      OwnedGrows(ls, ls', i, offer.value);
    } else {
      OwnedShrinks(ls, ls', i);
      forall j, b | 0 <= j < |ls'| && b in S.Held(ls'[j]) ensures IsLent(b, live', pages) {
        assert b in S.Held(ls[j]);
      }
    }
  }

  /** A cache without objects holds no block, so that everything it took is back. */
  lemma NothingHeld(ls: seq<seq<S.Slab>>, objects: map<nat, nat>)
    requires S.Good(ls, objects) && objects == map[]
    ensures Owned(ls) == {} && forall i :: 0 <= i < |ls| ==> ls[i] == []
  {
    forall i | 0 <= i < |ls| ensures ls[i] == [] {
      assert S.ClassOk(ls[i], i, objects);
      assert S.LiveOf(objects, i) == {};
    }
  }
}
