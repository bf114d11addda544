/** The object cache kmsobmgrhed_t of hal/x86/kmsob.c: 64 size classes that draw blocks of pages from the
    page allocator. A block is a parameter, since the page allocator may refuse; blocks given back are
    logged in `released`. A branch that stops the kernel is `assert false`. */
module SlabCache {
  import opened Bits
  import opened Options
  import opened Slab

  /** The cached slab of a class is its slab, if any, and the counter counts. */
  ghost predicate LinkedAt(l: seq<Slab>, c: Option<nat>, n: int) {
    n == |l| && (c.Some? ==> l != [] && l[0].own.page == c.value)
  }

  ghost predicate Linked(ls: seq<seq<Slab>>, cs: seq<Option<nat>>, ns: seq<int>) {
    |ls| == |cs| == |ns| && forall i :: 0 <= i < |ls| ==> LinkedAt(ls[i], cs[i], ns[i])
  }

  lemma LinkedSet(ls: seq<seq<Slab>>, cs: seq<Option<nat>>, ns: seq<int>, i: nat, l: seq<Slab>, c: Option<nat>, n: int)
    requires Linked(ls, cs, ns) && i < |ls| && LinkedAt(l, c, n)
    ensures Linked(ls[i := l], cs[i := c], ns[i := n])
  {
  }

  class Cache {
    const lists: array<seq<Slab>>   // ol_emplst of each class, front first
    const cached: array<Option<nat>> // ol_cahe: the page of the slab last used
    const counts: array<int>        // ol_emnr
    var total: int                  // ks_msobnr
    var recent: Option<nat>         // ks_msobche
    var released: seq<Block>
    ghost var live: map<nat, nat>

    ghost predicate Shape()
      reads this
    {
      lists.Length == CLASSES && cached.Length == CLASSES && counts.Length == CLASSES
    }

    ghost predicate Valid()
      reads this, lists, cached, counts
    {
      && Shape() && Good(lists[..], live)
      && Linked(lists[..], cached[..], counts[..])
      && total == Tally(lists[..])
    }

    constructor ()
      ensures Valid() && live == map[] && released == []
      ensures fresh(lists) && fresh(cached) && fresh(counts)
    {
      lists := new seq<Slab>[CLASSES](_ => []);
      cached := new Option<nat>[CLASSES](_ => None);
      counts := new int[CLASSES](_ => 0);
      total, recent, released, live := 0, None, [], map[];
      new;
      assert forall i :: 0 <= i < CLASSES ==> lists[..][i] == [];
      assert forall i :: 0 <= i < CLASSES ==> ClassOk(lists[..][i], i, live);
      TallyEmpty(lists[..]);
    }

    // ---------------------------------------------------------------- lookup

    /** onmsz_retn_koblst. */
    method FindClass(n: nat) returns (i: nat)
      requires 1 <= n <= 2048
      ensures i == ClassOf(n)
    {
      i := 0;
      while i < CLASSES && SizeOf(i) < n
        invariant i <= CLASSES && forall j :: 0 <= j < i ==> SizeOf(j) < n
      {
        i := i + 1;
      }
    }

    /** onkoblst_retn_newkmsob: the cached slab when large enough, else the first large enough. */
    method FindForNew(i: nat, n: nat) returns (k: nat)
      requires Shape() && i < CLASSES && counts[i] == |lists[i]|
      ensures k <= |lists[i]| && (k < |lists[i]| ==> n <= lists[i][k].size)
      ensures k == |lists[i]| ==> forall j :: 0 <= j < |lists[i]| ==> n > lists[i][j].size
    {
      k := Spot(lists[i], cached[i]);
      if k < |lists[i]| && n <= lists[i][k].size {
        return;
      }
      k := 0;
      if 0 < counts[i] {
        while k < |lists[i]| && n > lists[i][k].size
          invariant k <= |lists[i]| && forall j :: 0 <= j < k ==> n > lists[i][j].size
        {
          k := k + 1;
        }
      }
    }

    /** scan_delkmsob_isok. */
    method TestClaim(s: Slab, a: nat, n: nat) returns (r: bool)
      requires s.extnr == |s.exts| && 1 <= n <= s.size
      ensures r == Claims(s, a, n)
    {
      if Within(s.own, KMSOB, a, n) && n <= s.size {
        return true;
      }
      if s.extnr < 1 {
        return false;
      }
      var i := 0;
      while i < |s.exts|
        invariant i <= |s.exts| && forall j :: 0 <= j < i ==> !Within(s.exts[j], KMBEXT, a, n)
      {
        if Within(s.exts[i], KMBEXT, a, n) && n <= s.size {
          return true;
        }
        i := i + 1;
      }
      return false;
    }

    /** scan_dfszkmsob_isok. */
    method TestSlot(s: Slab, a: nat, n: nat) returns (r: bool)
      requires s.size > 0 && s.extnr == |s.exts| && n >= 1
      ensures r == Accepts(s, a, n)
    {
      if Spans(s.own, a, n) {
        return SlotTest(Base(s.own) + KMSOB, End(s.own), s.size, a);
      }
      if s.extnr > 0 {
        var i := 0;
        while i < |s.exts|
          invariant i <= |s.exts| && forall j :: 0 <= j < i ==> !Spans(s.exts[j], a, n)
        {
          if Spans(s.exts[i], a, n) {
            return SlotTest(Base(s.exts[i]) + KMBEXT, End(s.exts[i]), s.size, a);
          }
          i := i + 1;
        }
      }
      return false;
    }

    // ---------------------------------------------------------------- making slabs

    /** The carving loop of _create_init_kmsob and kmsob_extn_pages: slots go to the front one by one. */
    method CarveSlots(start: nat, size: nat, end: int, onto: seq<nat>) returns (free: seq<nat>, n: nat)
      requires size > 0
      ensures free == Rev(Carve(start, size, end)) + onto && n == |Carve(start, size, end)|
    {
      hide Carve, Rev;
      var ap := start;
      free, n := onto, 0;
      while ap < end
        invariant Rev(Carve(ap, size, end)) + free == Rev(Carve(start, size, end)) + onto
        invariant n + |Carve(ap, size, end)| == |Carve(start, size, end)|
        decreases end - ap
      {
        CarveStep(ap, size, end);
        if ap + size <= end {
          free, n := [ap] + free, n + 1;
        }
        ap := ap + size;
      }
      CarveStep(ap, size, end);
    }

    /** _create_init_kmsob. */
    method MakeSlab(size: nat, b: Block) returns (s: Slab)
      requires size > 0
      ensures s == Created(size, b)
    {
      hide Carve, Rev;
      var free, n := CarveSlots(Base(b) + KMSOB, size, End(b), []);
      assert free == Rev(Slots(b, KMSOB, size));
      s := Slab(size, b, [], free, n, n, 0, [[], [], [], [], []], [0, 0, 0, 0, 0]);
    }

    /** kmsob_extn_pages. */
    method ExtendSlab(s: Slab, b: Block) returns (r: Slab)
      requires s.size > 0 && |s.lists| == MSCLST_MAX && |s.counts| == MSCLST_MAX
      ensures r == Extended(s, b)
    {
      hide Carve, Rev;
      var j := ListFor(s.size);
      var free, n := CarveSlots(Base(b) + KMBEXT, s.size, End(b), s.free);
      r := s.(lists := s.lists[j := [b] + s.lists[j]], counts := s.counts[j := s.counts[j] + 1],
              free := free, mobjnr := s.mobjnr + n, fobjnr := s.fobjnr + n, exts := [b] + s.exts, extnr := s.extnr + 1);
    }

    // ---------------------------------------------------------------- new

    /** A block the page allocator may hand out: none of its pages is in a slab. */
    ghost predicate Usable(b: Block)
      reads this, lists
      requires Shape()
    {
      forall i, c :: 0 <= i < CLASSES && c in Held(lists[i]) ==> Apart(b, c)
    }

    /** kmsob_new_core up to the taking of the object. */
    method Prepare(i: nat, n: nat, offer: Option<Block>) returns (ok: bool)
      requires Valid() && i < CLASSES && 1 <= n <= SizeOf(i)
      requires offer.Some? ==> Usable(offer.value) && offer.value.pages == PagesFor(SizeOf(i))
      modifies lists, counts, this`total
      ensures ClassOk(old(lists[i]), i, live)
      ensures ok <==> Ready(old(lists[i]), SizeOf(i), offer) != []
      ensures !ok ==> lists[..] == old(lists[..]) && counts[..] == old(counts[..]) && total == old(total)
      ensures ok ==> lists[..] == old(lists[..])[i := Ready(old(lists[i]), SizeOf(i), offer)]
      ensures ok ==> counts[..] == old(counts[..])[i := 1] && total == Tally(lists[..])
    {
      hide SlabOk, Created, Extended;
      ghost var ls := lists[..];
      assert ClassOk(ls[i], i, live) && LinkedAt(ls[i], cached[..][i], counts[..][i]);
      SlabParts(ls[i], i, live);
      assert lists[i] != [] ==> n <= lists[i][0].size;
      var k := FindForNew(i, n);
      if k == |lists[i]| {
        if offer.None? {
          return false;
        }
        assert lists[i] == [];
        var s := MakeSlab(SizeOf(i), offer.value);
        assert [s] + lists[i] == [s];
        lists[i] := [s] + lists[i];
        counts[i] := counts[i] + 1;
        total := total + 1;
        TallyUpdate(ls, i, [s]);
        assert lists[..] == ls[i := [s]];
        return true;
      }
      TallyUpdate(ls, i, ls[i]);
      assert ls == ls[i := ls[i]];
      if lists[i][k].fobjnr < 1 && lists[i][k].free != [] {
        assert false;
      }
      if lists[i][k].fobjnr < 1 {
        if offer.None? {
          return false;
        }
        var s := ExtendSlab(lists[i][k], offer.value);
        lists[i] := lists[i][k := s];
        TallyUpdate(ls, i, [s]);
        assert lists[i] == [s];
      }
      return true;
    }

    /** kmsob_new_opkmsob with scan_nmszkmsob_isok: the front of the free list, if the slab can serve n bytes. */
    method TakeObject(s: Slab, n: nat) returns (x: Option<nat>, r: Slab)
      ensures x.Some? <==> CanServe(s, n)
      ensures x.Some? ==> x.value == s.free[0] && r == TookOne(s)
    {
      x, r := None, s;
      if s.fobjnr < 1 || s.mobjnr < 1 || n > s.size {
        return;
      }
      if End(s.own) - Base(s.own) + 1 < PAGE || End(s.own) - Base(s.own) + 1 < KMSOB + FREOBJH {
        return;
      }
      if s.free == [] {
        return;
      }
      x := Some(s.free[0]);
      r := s.(free := s.free[1..], fobjnr := s.fobjnr - 1);
    }

    /** kmsob_new: an object of n bytes from the class of n, 0 when there is none. */
    method New(n: nat, offer: Option<Block>) returns (ret: nat)
      requires Valid()
      requires offer.Some? && 1 <= n <= 2048 ==>
        Usable(offer.value) && offer.value.pages == if n <= 128 then 1 else if n <= 512 then 2 else 4
      modifies this, lists, cached, counts
      ensures Valid() && released == old(released)
      ensures ret == 0 ==> live == old(live) && lists[..] == old(lists[..])
      ensures ret != 0 ==> 1 <= n <= 2048 && ret !in old(live) && live == old(live)[ret := ClassOf(n)]
      ensures ret == 0 <==>
        n < 1 || n > 2048 || (offer.None? && var l := old(lists[ClassOf(n)]); l == [] || l[0].free == [])
      ensures ret != 0 ==> var i := ClassOf(n);
        forall j :: 0 <= j < CLASSES && j != i ==> lists[j] == old(lists[j])
      ensures ret != 0 ==> var i := ClassOf(n);
        var l := old(lists[i]);
        if l != [] && l[0].free != [] then ret == l[0].free[0] && lists[i] == [TookOne(l[0])]
        else offer.Some? && multiset(Held(lists[i])) == multiset(Held(l)) + multiset{offer.value}
      ensures ret != 0 ==> Drawn(ClassOf(n), offer, ret)
    {
      if n < 1 || n > 2048 {
        return 0;
      }
      SizesAre(n);
      var i := FindClass(n);
      ret := NewIn(i, n, offer);
    }

    /** The slab of class i an object was taken from: the old one, extended or new as needed, with the front of its
        free list gone; it is the one remembered. */
    twostate predicate Drawn(i: nat, offer: Option<Block>, ret: nat)
      reads this, lists, cached
    {
      && old(Shape()) && Shape() && i < CLASSES
      && var l := old(lists[i]);
      && (l == [] || l[0].free == [] ==> offer.Some?)
      && (l != [] ==> l[0].size > 0 && |l[0].lists| == MSCLST_MAX && |l[0].counts| == MSCLST_MAX)
      && var s := if l == [] then Created(SizeOf(i), offer.value)
                  else if l[0].free == [] then Extended(l[0], offer.value) else l[0];
      && s.free != [] && ret == s.free[0] && lists[i] == [s.(free := s.free[1..], fobjnr := s.fobjnr - 1)]
      && cached[..] == old(cached[..])[i := Some(s.own.page)] && recent == Some(s.own.page)
    }

    /** kmsob_new_core. */
    method NewIn(i: nat, n: nat, offer: Option<Block>) returns (ret: nat)
      requires Valid() && i < CLASSES && 1 <= n <= SizeOf(i)
      requires offer.Some? ==> Usable(offer.value) && offer.value.pages == PagesFor(SizeOf(i))
      modifies this, lists, cached, counts
      ensures Valid() && released == old(released)
      ensures ret == 0 ==> live == old(live) && lists[..] == old(lists[..])
      ensures ret == 0 <==> var l := old(lists[i]); offer.None? && (l == [] || l[0].free == [])
      ensures ret != 0 ==> ret !in old(live) && live == old(live)[ret := i]
      ensures ret != 0 ==> forall j :: 0 <= j < CLASSES && j != i ==> lists[j] == old(lists[j])
      ensures ret != 0 ==> var l := old(lists[i]);
        if l != [] && l[0].free != [] then ret == l[0].free[0] && lists[i] == [TookOne(l[0])]
        else offer.Some? && multiset(Held(lists[i])) == multiset(Held(l)) + multiset{offer.value}
      ensures ret != 0 ==> Drawn(i, offer, ret)
    {
      hide Good, ClassOk, SlabOk, Created, Extended, Linked, Tally, Slots, PagesFor, Apart, Ready, Blocks;
      ghost var ls, l := lists[..], lists[i];
      var ok := Prepare(i, n, offer);
      SlabParts(l, i, live);
      ReadyIs(l, SizeOf(i), offer);
      if !ok {
        return 0;
      }
      NewKeeps(ls, live, i, offer);
      ghost var s := lists[i][0];
      ret := HandOut(i, n);
      live := live[ret := i];
      TallyUpdate(ls, i, [TookOne(s)]);
      TallyUpdate(ls, i, [s]);
      LinkedSet(ls, old(cached[..]), old(counts[..]), i, [TookOne(s)], Some(s.own.page), 1);
      assert lists[..] == ls[i := [TookOne(s)]];
      assert forall j :: 0 <= j < CLASSES && j != i ==> lists[..][j] == ls[j];
    }

    /** The front object of the slab of class i, which is remembered. */
    method HandOut(i: nat, n: nat) returns (ret: nat)
      requires Shape() && i < CLASSES && |lists[i]| == 1 && CanServe(lists[i][0], n)
      modifies lists, cached, this`recent
      ensures var s := old(lists[i])[0];
        && ret == s.free[0] && lists[..] == old(lists[..])[i := [TookOne(s)]]
        && cached[..] == old(cached[..])[i := Some(s.own.page)] && recent == Some(s.own.page)
    {
      var s := lists[i][0];
      var x, r := TakeObject(s, n);
      if x.None? {
        assert false;
      }
      ret := x.value;
      lists[i] := [r];
      cached[i], recent := Some(s.own.page), Some(s.own.page);
    }

    // ---------------------------------------------------------------- delete

    /** onkoblst_retn_delkmsob: the cached slab when it claims the object, else the first that does. */
    method FindForDelete(i: nat, a: nat, n: nat) returns (k: nat)
      requires Shape() && i < CLASSES && counts[i] == |lists[i]| && n >= 1
      requires forall j :: 0 <= j < |lists[i]| ==> lists[i][j].extnr == |lists[i][j].exts| && n <= lists[i][j].size
      ensures k <= |lists[i]| && (k < |lists[i]| ==> Claims(lists[i][k], a, n))
      ensures k == |lists[i]| ==> forall j :: 0 <= j < |lists[i]| ==> !Claims(lists[i][j], a, n)
    {
      hide Claims;
      k := Spot(lists[i], cached[i]);
      if k < |lists[i]| {
        var found := TestClaim(lists[i][k], a, n);
        if found {
          return;
        }
      }
      k := 0;
      if 0 < counts[i] {
        while k < |lists[i]|
          invariant k <= |lists[i]| && forall j :: 0 <= j < k ==> !Claims(lists[i][j], a, n)
        {
          var found := TestClaim(lists[i][k], a, n);
          if found {
            return;
          }
          k := k + 1;
        }
      }
    }

    /** The page-returning loops of _destroy_kmsob_core: every extension block, then the slab's own. */
    method ReleaseBlocks(s: Slab)
      requires Filed(s)
      modifies this`released
      ensures released == old(released) + s.exts + [s.own]
    {
      var j := 0;
      while j < MSCLST_MAX
        invariant j <= MSCLST_MAX
        invariant released == old(released) + if j <= ListFor(s.size) then [] else s.exts
      {
        if 0 < s.counts[j] {
          var l := s.lists[j];
          var k := 0;
          while k < |l|
            invariant k <= |l| && l == s.exts && j == ListFor(s.size)
            invariant released == old(released) + l[..k]
          {
            assert l[k] == Block(l[k].page, Pow2(j), l[k].msa);
            released := released + [Block(l[k].page, Pow2(j), l[k].msa)];
            k := k + 1;
          }
          assert l[..k] == l;
        }
        j := j + 1;
      }
      released := released + [s.own];
    }

    /** kmsob_del_opkmsob on a slab that claims the address: the object goes to the front of the list. */
    method PutBack(s: Slab, a: nat, n: nat) returns (ok: bool, r: Slab)
      requires s.size > 0 && s.extnr == |s.exts| && n >= 1
      ensures ok <==> s.fobjnr + 1 <= s.mobjnr && Accepts(s, a, n)
      ensures r == if ok then GaveOne(s, a) else s
    {
      r := s;
      if s.fobjnr + 1 > s.mobjnr {
        return false, r;
      }
      ok := TestSlot(s, a, n);
      if ok {
        r := s.(free := [a] + s.free, fobjnr := s.fobjnr + 1);
      }
    }

    /** kmsob_delete: a slot goes back to its slab, and the last one takes the slab with it. The cache stays
        in order exactly when the slot held a live object. */
    method Delete(a: nat, n: nat) returns (ok: bool)
      requires Valid()
      modifies this, lists, cached, counts
      ensures ok <==> 1 <= n <= 2048 && a in SlotsOf(old(lists[ClassOf(n)]))
      ensures !ok ==> unchanged(this) && unchanged(lists) && unchanged(cached) && unchanged(counts)
      ensures ok ==> Deleted(ClassOf(n), a)
      ensures Valid() <==> (ok ==> a in LiveOf(old(live), ClassOf(n)))
    {
      if n < 1 || n > 2048 {
        return false;
      }
      var i := FindClass(n);
      if a == 0 {
        ZeroNoSlot(lists[i]);
        return false;
      }
      ok := DeleteIn(i, a, n);
    }

    /** What a successful delete of slot a of class i leaves. */
    twostate predicate Deleted(i: nat, a: nat)
      reads this, lists, cached, counts
    {
      && old(Shape()) && Shape() && i < CLASSES && |old(lists[i])| == 1 && live == old(live) - {a}
      && var s := old(lists[i])[0];
      && var l, page := Left(s, a), Some(s.own.page);
      && lists[..] == old(lists[..])[i := l] && counts[..] == old(counts[..])[i := |l|]
      && cached[..] == old(cached[..])[i := if l == [] then None else page]
      && total == old(total) - 1 + |l|
      && recent == (if l != [] then page else if old(recent) == page then None else old(recent))
      && released == old(released) + if l == [] then s.exts + [s.own] else []
    }

    /** kmsob_delete_core. */
    method DeleteIn(i: nat, a: nat, n: nat) returns (ok: bool)
      requires Valid() && i < CLASSES && 1 <= n <= SizeOf(i)
      modifies this, lists, cached, counts
      ensures ok <==> a in SlotsOf(old(lists[i]))
      ensures !ok ==> unchanged(this) && unchanged(lists) && unchanged(cached) && unchanged(counts)
      ensures ok ==> Deleted(i, a)
      ensures Valid() <==> (ok ==> a in LiveOf(old(live), i))
    {
      hide Good, SlabOk, Claims, Accepts, AllSlots, Linked, Filed;
      ghost var ls := lists[..];
      GoodAt(ls, live, i);
      LinkedIs(ls, cached[..], counts[..], i);
      SlabParts(ls[i], i, live);
      DeleteIff(ls[i], i, live, a, n);
      var k := FindForDelete(i, a, n);
      if k == |lists[i]| {
        return false;
      }
      var s := lists[i][k];
      assert lists[i] == [s];
      var r;
      ok, r := PutBack(s, a, n);
      if !ok {
        return false;
      }
      assert lists[i][k := r] == [r];
      lists[i] := lists[i][k := r];
      Settle(i, r);
      live := live - {a};
      assert lists[..] == ls[i := Left(s, a)];
      StillLinked(ls, old(cached[..]), old(counts[..]), i, Left(s, a));
      DeleteKeepsIff(ls, old(live), i, a);
    }

    /** _destroy_kmsob: drop the slab when every slot is free, else remember it. */
    method Settle(i: nat, r: Slab)
      requires Shape() && i < CLASSES && lists[i] == [r] && Filed(r) && r.fobjnr <= r.mobjnr
      requires cached[i] == None || cached[i] == Some(r.own.page)
      modifies lists, cached, counts, this`total, this`recent, this`released
      ensures var l, page := if r.fobjnr == r.mobjnr then [] else [r], Some(r.own.page);
        && lists[..] == old(lists[..])[i := l] && counts[..] == old(counts[..])[i := old(counts[i]) - 1 + |l|]
        && cached[..] == old(cached[..])[i := if l == [] then None else page]
        && total == old(total) - 1 + |l|
        && recent == (if l != [] then page else if old(recent) == page then None else old(recent))
        && released == old(released) + if l == [] then r.exts + [r.own] else []
    {
      hide Filed;
      if r.mobjnr < r.fobjnr {
        assert false;
      }
      if r.mobjnr != r.fobjnr {
        cached[i], recent := Some(r.own.page), Some(r.own.page);
        assert lists[..] == old(lists[..])[i := [r]] && counts[..] == old(counts[..])[i := old(counts[i])];
        return;
      }
      lists[i] := [];
      counts[i] := counts[i] - 1;
      total := total - 1;
      if recent == Some(r.own.page) {
        recent := None;
      }
      if cached[i] == Some(r.own.page) {
        cached[i] := None;
      }
      ReleaseBlocks(r);
    }

    /** An object taken and given back at once leaves the live objects as they were; an object from a free
        slot leaves every slab as it was, and one that needed a first slab returns the slab's block. */
    method NewThenDelete(n: nat, offer: Option<Block>) returns (ret: nat)
      requires Valid()
      requires offer.Some? && 1 <= n <= 2048 ==>
        Usable(offer.value) && offer.value.pages == if n <= 128 then 1 else if n <= 512 then 2 else 4
      modifies this, lists, cached, counts
      ensures Valid() && live == old(live)
      ensures ret != 0 ==> 1 <= n <= 2048
      ensures ret != 0 ==> var l := old(lists[ClassOf(n)]);
        && (l != [] && l[0].free != [] ==> lists[..] == old(lists[..]) && released == old(released))
        && (l == [] ==>
            lists[..] == old(lists[..]) && offer.Some?
              && multiset(released) == multiset(old(released)) + multiset{offer.value})
    {
      hide Good, SlabOk, Linked, Tally, Created, Extended, Slots, PagesFor, Apart, AllSlots, SizeOf, SlotsOf, ClassOk;
      hide Cache.Usable;
      ret := New(n, offer);
      if ret == 0 {
        return;
      }
      ghost var i, mid := ClassOf(n), lists[ClassOf(n)];
      assert lists[..][i] == mid;
      LiveIsSlot(lists[..], live, ret);
      LastLive(lists[..], live, i);
      var ok := Delete(ret, n);
      assert live == old(live);
      GoodAt(old(lists[..]), old(live), i);
      assert old(lists[..])[i] == old(lists[i]);
      OnlyLive(old(live), i, ret);
      if old(lists[i]) != [] && old(lists[i])[0].free != [] {
        BackAgain(old(lists[i])[0]);
        assert Left(mid[0], ret) == old(lists[i]);
        assert lists[..] == old(lists[..]);
      } else if old(lists[i]) == [] {
        assert multiset(mid[0].exts + [mid[0].own]) == multiset(Held(mid));
        assert lists[..] == old(lists[..]);
      }
    }
  }

  /** The slab of a class has one slot taken exactly when the class has one live object. */
  lemma LastLive(ls: seq<seq<Slab>>, live: map<nat, nat>, i: nat)
    requires Good(ls, live) && i < CLASSES
    ensures |ls| == CLASSES && |ls[i]| <= 1
    ensures ls[i] != [] ==> (ls[i][0].fobjnr + 1 == ls[i][0].mobjnr <==> |LiveOf(live, i)| == 1)
  {
    hide SlabOk;
    GoodAt(ls, live, i);
    if ls[i] != [] {
      CountsLive(ls[i][0], LiveOf(live, i));
    }
  }

  lemma OnlyLive(live: map<nat, nat>, i: nat, a: nat)
    requires a !in live
    ensures |LiveOf(live[a := i], i)| == 1 <==> LiveOf(live, i) == {}
  {
    assert LiveOf(live[a := i], i) == LiveOf(live, i) + {a};
  }

  lemma BackAgain(s: Slab)
    requires s.free != []
    ensures GaveOne(TookOne(s), s.free[0]) == s
  {
    assert [s.free[0]] + s.free[1..] == s.free;
  }

  /** The slots of a class. */
  ghost function SlotsOf(l: seq<Slab>): (r: seq<nat>) {
    if l == [] || l[0].size == 0 then [] else AllSlots(l[0])
  }

  /** What is left of the slab when slot a has gone back: nothing when that was the last one. */
  function Left(s: Slab, a: nat): (l: seq<Slab>) {
    if s.fobjnr + 1 == s.mobjnr then [] else [GaveOne(s, a)]
  }

  lemma LiveIsSlot(ls: seq<seq<Slab>>, live: map<nat, nat>, a: nat)
    requires Good(ls, live) && a in live
    ensures live[a] < |ls| && a in SlotsOf(ls[live[a]])
  {
    var s := LiveSlot(ls, live, a);
  }

  lemma CarveStep(ap: nat, size: nat, end: int)
    requires size > 0
    ensures ap + size <= end ==>
      Rev(Carve(ap, size, end)) == Rev(Carve(ap + size, size, end)) + [ap]
        && |Carve(ap, size, end)| == 1 + |Carve(ap + size, size, end)|
    ensures ap + size > end ==> Carve(ap, size, end) == [] && Carve(ap + size, size, end) == [] && Rev([]) == []
  {
    if ap + size <= end {
      assert Carve(ap, size, end)[1..] == Carve(ap + size, size, end);
    }
  }

  /** What ClassOk says about the slab's own fields. */
  lemma SlabParts(l: seq<Slab>, i: nat, live: map<nat, nat>)
    requires ClassOk(l, i, live)
    ensures |l| <= 1
    ensures l != [] ==> var s := l[0];
      s.size == SizeOf(i) && |s.lists| == MSCLST_MAX && |s.counts| == MSCLST_MAX && s.fobjnr == |s.free|
        && s.extnr == |s.exts|
  {
  }

  /** What class i becomes before an object is taken: its slab with a free slot, or nothing. */
  ghost function Ready(l: seq<Slab>, size: nat, offer: Option<Block>): (r: seq<Slab>)
    requires size > 0 && (l != [] ==> l[0].size > 0 && |l[0].lists| == MSCLST_MAX && |l[0].counts| == MSCLST_MAX)
  {
    if l != [] && l[0].free != [] then l
    else if offer.None? then []
    else if l == [] then [Created(size, offer.value)]
    else [Extended(l[0], offer.value)]
  }

  lemma ReadyIs(l: seq<Slab>, size: nat, offer: Option<Block>)
    requires size > 0 && |l| <= 1
    requires l != [] ==> l[0].size > 0 && |l[0].lists| == MSCLST_MAX && |l[0].counts| == MSCLST_MAX
    ensures Ready(l, size, offer) == [] <==> offer.None? && (l == [] || l[0].free == [])
    ensures Ready(l, size, offer) != [] ==>
      Ready(l, size, offer) ==
        if l != [] && l[0].free != [] then l
        else if l == [] then [Created(size, offer.value)] else [Extended(l[0], offer.value)]
    ensures Ready(l, size, offer) == l && l != [] ==> l[0].free != []
  {
    hide Created;
    if l != [] && l[0].free == [] && offer.Some? {
      assert |Extended(l[0], offer.value).exts| == |l[0].exts| + 1;
    }
  }

  /** The slab of class i has room: an old free slot, or those of the fresh block. */
  lemma ReadyOk(l: seq<Slab>, i: nat, live: map<nat, nat>, offer: Option<Block>)
    requires ClassOk(l, i, live) && i < CLASSES
    requires offer.Some? ==> offer.value.pages == PagesFor(SizeOf(i)) && forall c :: c in Held(l) ==>
      Apart(offer.value, c)
    requires Ready(l, SizeOf(i), offer) != []
    ensures var r := Ready(l, SizeOf(i), offer); var s := r[0];
      && r == [s] && (r == l || offer.Some?) && s.size == SizeOf(i) && SlabOk(s, LiveOf(live, i)) && s.free != []
      && multiset(Blocks(s)) == multiset(Held(l)) + (if r == l then multiset{} else multiset{offer.value})
  {
    hide SlabOk, Created, Extended;
    if l != [] && l[0].free != [] {
    } else if l == [] {
      CreatedOk(SizeOf(i), offer.value);
      CreatedBlocks(SizeOf(i), offer.value);
    } else {
      ExtendedOk(l[0], LiveOf(live, i), offer.value);
      ExtendedSize(l[0], LiveOf(live, i), offer.value);
    }
  }

  lemma CreatedBlocks(size: nat, b: Block)
    requires size > 0
    ensures Blocks(Created(size, b)) == [b] && Created(size, b).size == size
  {
  }

  lemma ExtendedSize(s: Slab, live: set<nat>, b: Block)
    requires SlabOk(s, live)
    ensures Extended(s, b).size == s.size && Extended(s, b) != s
  {
    assert |Extended(s, b).exts| == |s.exts| + 1;
  }

  /** Taking an object of class i, after making room when needed, keeps every class in order. */
  lemma NewKeeps(ls: seq<seq<Slab>>, live: map<nat, nat>, i: nat, offer: Option<Block>)
    requires Good(ls, live) && i < CLASSES && ClassOk(ls[i], i, live)
    requires offer.Some? ==> offer.value.pages == PagesFor(SizeOf(i))
    requires offer.Some? ==> forall j, c :: 0 <= j < CLASSES && c in Held(ls[j]) ==> Apart(offer.value, c)
    requires Ready(ls[i], SizeOf(i), offer) != []
    ensures var s := Ready(ls[i], SizeOf(i), offer)[0];
      && Ready(ls[i], SizeOf(i), offer) == [s] && CanServe(s, SizeOf(i))
      && s.free != [] && s.free[0] !in live && s.free[0] > 0 && Good(ls[i := [TookOne(s)]], live[s.free[0] := i])
      && Blocks(TookOne(s)) == Blocks(s)
      && multiset(Blocks(s))
         == multiset(Held(ls[i])) + (if Ready(ls[i], SizeOf(i), offer) == ls[i] then multiset{}
           else multiset{offer.value})
  {
    hide SlabOk, Ready, AllSlots, Between, Held;
    SlabParts(ls[i], i, live);
    ReadyOk(ls[i], i, live, offer);
    var s := Ready(ls[i], SizeOf(i), offer)[0];
    TookOk(s, LiveOf(live, i));
    Serves(s, LiveOf(live, i));
    var x, live' := s.free[0], live[s.free[0] := i];
    SlotPositive(s, x);
    forall b | b in Blocks(s) ensures b in Held(ls[i]) || offer == Some(b) {
      assert b in multiset(Blocks(s));
    }
    forall j | 0 <= j < CLASSES && j != i ensures Between([TookOne(s)], ls[j]) {
      StillBetween(ls, live, i, j, s, offer);
    }
    NotLive(ls, live, i, s, x);
    assert LiveOf(live', i) == LiveOf(live, i) + {x};
    forall j | 0 <= j < CLASSES && j != i ensures LiveOf(live', j) == LiveOf(live, j) {}
    ClassChange(ls, live, i, [TookOne(s)], live');
  }

  /** A slab with a free slot passes every condition on the way to its object. */
  lemma Serves(s: Slab, live: set<nat>)
    requires SlabOk(s, live) && s.free != []
    ensures CanServe(s, s.size)
  {
    CountsLive(s, live);
  }

  lemma SlotPositive(s: Slab, x: nat)
    requires s.size > 0 && x in AllSlots(s)
    ensures x > 0
  {
    if x in Slots(s.own, KMSOB, s.size) {
      SlotInside(s.own, KMSOB, s.size, x);
    } else {
      InExtSlots(s.exts, s.size, x);
      var i :| 0 <= i < |s.exts| && x in Slots(s.exts[i], KMBEXT, s.size);
      SlotInside(s.exts[i], KMBEXT, s.size, x);
    }
  }

  lemma StillBetween(ls: seq<seq<Slab>>, live: map<nat, nat>, i: nat, j: nat, s: Slab, offer: Option<Block>)
    requires Good(ls, live) && i < CLASSES && j < CLASSES && i != j && s.free != []
    requires forall b :: b in Blocks(s) ==> b in Held(ls[i]) || offer == Some(b)
    requires offer.Some? ==> forall c :: c in Held(ls[j]) ==> Apart(offer.value, c)
    ensures Between([TookOne(s)], ls[j])
  {
    hide ClassOk;
    if i < j {
      assert Between(ls[i], ls[j]);
    } else {
      assert Between(ls[j], ls[i]);
      BetweenSym(ls[j], ls[i]);
    }
    assert Held([TookOne(s)]) == Blocks(s);
  }

  /** A slot of the slab of class i is not an object of another class. */
  lemma NotLive(ls: seq<seq<Slab>>, live: map<nat, nat>, i: nat, s: Slab, x: nat)
    requires Good(ls, live) && s.size > 0 && x in AllSlots(s) && x !in LiveOf(live, i) && s.free != []
    requires forall j :: 0 <= j < CLASSES && j != i ==> Between([TookOne(s)], ls[j])
    ensures x !in live
  {
    hide ClassOk, AllSlots, Between;
    if x in live {
      var t := LiveSlot(ls, live, x);
      var b := SlotsBlock(s, x);
      var c := SlotsBlock(t, x);
      assert live[x] != i;
      BlocksApart([TookOne(s)], ls[live[x]], b, c);
    }
  }

  lemma BlocksApart(l: seq<Slab>, m: seq<Slab>, b: Block, c: Block)
    requires Between(l, m) && b in Held(l) && c in Held(m)
    ensures Apart(b, c)
  {
  }

  lemma GoodAt(ls: seq<seq<Slab>>, live: map<nat, nat>, i: nat)
    requires Good(ls, live) && i < CLASSES
    ensures |ls| == CLASSES && ClassOk(ls[i], i, live)
  {
  }

  lemma LinkedIs(ls: seq<seq<Slab>>, cs: seq<Option<nat>>, ns: seq<int>, i: nat)
    requires Linked(ls, cs, ns) && i < |ls|
    ensures |cs| == |ls| == |ns| && LinkedAt(ls[i], cs[i], ns[i])
  {
  }

  lemma ZeroNoSlot(l: seq<Slab>)
    ensures 0 !in SlotsOf(l)
  {
    if 0 in SlotsOf(l) {
      SlotPositive(l[0], 0);
    }
  }

  /** The free path accepts an address exactly when it is a slot of the class, free or live. */
  lemma DeleteIff(l: seq<Slab>, i: nat, live: map<nat, nat>, a: nat, n: nat)
    requires ClassOk(l, i, live) && i < CLASSES && 1 <= n <= SizeOf(i)
    ensures a in SlotsOf(l) <==> l != [] && l[0].size > 0 && Claims(l[0], a, n) && Accepts(l[0], a, n)
    ensures a in SlotsOf(l) <==> (l != [] && a in l[0].free) || a in LiveOf(live, i)
    ensures l != [] ==> Filed(GaveOne(l[0], a)) && l[0].fobjnr + 1 <= l[0].mobjnr
  {
    hide Claims, Accepts, AllSlots;
    if l == [] {
      assert a !in LiveOf(live, i);
    } else {
      AcceptIff(l[0], a, n);
      CountsLive(l[0], LiveOf(live, i));
      GaveFiled(l[0], a);
      assert a in multiset(AllSlots(l[0])) <==> a in multiset(l[0].free) || a in multiset(LiveOf(live, i));
    }
  }

  lemma GaveFiled(s: Slab, a: nat)
    requires Filed(s)
    ensures Filed(GaveOne(s, a))
  {
    assert AllSlots(GaveOne(s, a)) == AllSlots(s);
  }

  lemma StillLinked(ls: seq<seq<Slab>>, cs: seq<Option<nat>>, ns: seq<int>, i: nat, l: seq<Slab>)
    requires Linked(ls, cs, ns) && i < |ls| && |ls[i]| == 1 && |l| <= 1 && (l != [] ==> l[0].own == ls[i][0].own)
    ensures ns[i] == 1 && Tally(ls[i := l]) == Tally(ls) - 1 + |l|
    ensures Linked(ls[i := l], cs[i := if l == [] then None else Some(ls[i][0].own.page)], ns[i := |l|])
  {
    assert LinkedAt(ls[i], cs[i], ns[i]);
    TallyUpdate(ls, i, l);
  }

  /** Giving slot a back keeps every class in order exactly when a held a live object: giving back a free
      slot leaves it free twice, or drops a slab with a live object. */
  lemma DeleteKeepsIff(ls: seq<seq<Slab>>, live: map<nat, nat>, i: nat, a: nat)
    requires Good(ls, live) && i < CLASSES && a in SlotsOf(ls[i])
    ensures Good(ls[i := Left(ls[i][0], a)], live - {a}) <==> a in LiveOf(live, i)
  {
    hide SlabOk, Between, AllSlots;
    assert ClassOk(ls[i], i, live);
    DeleteIff(ls[i], i, live, a, 1);
    var s, live' := ls[i][0], live - {a};
    CountsLive(s, LiveOf(live, i));
    if a in LiveOf(live, i) {
      DeleteKeeps(ls, live, i, a);
      assert LiveOf(live', i) == LiveOf(live, i) - {a} && |LiveOf(live', i)| == |LiveOf(live, i)| - 1;
    } else {
      assert LiveOf(live', i) == LiveOf(live, i);
      GaveTwice(s, LiveOf(live, i), a, LiveOf(live', i));
      assert !ClassOk(Left(s, a), i, live');
      assert ls[i := Left(s, a)][i] == Left(s, a);
    }
  }

  lemma DeleteKeeps(ls: seq<seq<Slab>>, live: map<nat, nat>, i: nat, a: nat)
    requires Good(ls, live) && i < CLASSES && ls[i] != [] && a in live && live[a] == i
    ensures var r, live' := GaveOne(ls[i][0], a), live - {a};
      SlabOk(r, LiveOf(live', i)) && Good(ls[i := if LiveOf(live', i) == {} then [] else [r]], live')
  {
    hide SlabOk, Between;
    var s, live' := ls[i][0], live - {a};
    assert ClassOk(ls[i], i, live);
    GaveOk(s, LiveOf(live, i), a);
    assert LiveOf(live', i) == LiveOf(live, i) - {a};
    var r := GaveOne(s, a);
    var l := if LiveOf(live', i) == {} then [] else [r];
    assert [r][0] == r;
    forall j | 0 <= j < CLASSES && j != i ensures LiveOf(live', j) == LiveOf(live, j) && Between(l, ls[j]) {
      FewerBetween(ls, live, i, j, l);
    }
    ClassChange(ls, live, i, l, live');
  }

  lemma FewerBetween(ls: seq<seq<Slab>>, live: map<nat, nat>, i: nat, j: nat, l: seq<Slab>)
    requires Good(ls, live) && i < CLASSES && j < CLASSES && i != j && (Held(l) == Held(ls[i]) || Held(l) == [])
    ensures Between(l, ls[j])
  {
    hide ClassOk, Held;
    if i < j {
      assert Between(ls[i], ls[j]);
    } else {
      assert Between(ls[j], ls[i]);
      BetweenSym(ls[j], ls[i]);
    }
  }

  function Tally(ls: seq<seq<Slab>>): (n: nat) {
    if ls == [] then 0 else |ls[0]| + Tally(ls[1..])
  }

  lemma {:induction false} TallyEmpty(ls: seq<seq<Slab>>)
    requires forall i :: 0 <= i < |ls| ==> ls[i] == []
    ensures Tally(ls) == 0
  {
    if ls != [] {
      TallyEmpty(ls[1..]);
    }
  }

  lemma {:induction false} TallyUpdate(ls: seq<seq<Slab>>, i: nat, l: seq<Slab>)
    requires i < |ls|
    ensures Tally(ls[i := l]) == Tally(ls) - |ls[i]| + |l|
  {
    if i == 0 {
      assert ls[i := l][1..] == ls[1..];
    } else {
      TallyUpdate(ls[1..], i - 1, l);
      assert ls[i := l][1..] == ls[1..][i - 1 := l];
    }
  }

  /** The place in the list of the slab at page p, |l| without one. */
  function Spot(l: seq<Slab>, p: Option<nat>): (k: nat)
    ensures k <= |l| && (k < |l| ==> Some(l[k].own.page) == p)
    ensures forall j :: 0 <= j < k ==> Some(l[j].own.page) != p
  {
    if l == [] || Some(l[0].own.page) == p then 0 else 1 + Spot(l[1..], p)
  }
}
