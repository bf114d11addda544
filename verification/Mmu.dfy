/** The page tables of one address space, hal/x86/halmmu.c: table pages, table lists and counters
    changed in place, with the rollback on failure. Every method is proved against PageMap. */
module Mmu {
  import opened Lists
  import opened Options
  import opened PageTable
  import opened PageMap

  lemma KeysGrow(s: set<nat>, x: nat)
    requires x !in s
    ensures multiset(s + {x}) == multiset(s) + multiset{x}
  {
  }

  lemma KeysShrink(s: set<nat>, x: nat)
    requires x in s
    ensures multiset(s) == multiset(s - {x}) + multiset{x}
  {
  }

  /** Lookups above the reclaimed level are untouched, and the tables stay a tree. */
  lemma ReclaimKeeps(sp: Space, v: nat, l: nat, j: nat)
    requires Tree(sp) && v < USER_LIMIT && 1 <= l <= 3 && j < l
    ensures Tree(Reclaim(sp, v, l)) && Find(Reclaim(sp, v, l), v, j) == Find(sp, v, j)
  {
    hide Tree, Find, Have, Target, Index, AllZero;
    var x := Find(sp, v, l);
    if x.Some? && Removable(sp, x.value) {
      FindOwned(sp, v, l);
      UnlinkTree(sp, x.value);
      UnlinkFind(sp, x.value, v, j);
    }
  }

  lemma EnsureKeeps(sp: Space, v: nat, flags: nat, l: nat, offer: Option<nat>, j: nat)
    requires Tree(sp) && v < USER_LIMIT && flags < PAGE && 1 <= l <= 3 && j < l && |sp.lists| == 4
    requires Find(sp, v, l - 1).Some? && Ensure(sp, v, flags, l, offer).Some?
    requires offer.Some? ==> IsPage(offer.value) && offer.value !in sp.mem
    ensures Find(Ensure(sp, v, flags, l, offer).value, v, j) == Find(sp, v, j)
  {
    hide Tree, Find, Have, Target, Index, IsPage, Entry;
    FindStep(sp, v, l);
    if Find(sp, v, l).None? {
      EntryRoundTrip(offer.value, flags);
      LinkFind(sp, Find(sp, v, l - 1).value, Index(v, l - 1), offer.value, l, Entry(offer.value, flags), v, j);
    }
  }

  /** sdirearr_is_allzero and the others */
  method IsAllZero(t: seq<nat>) returns (zero: bool)
    ensures zero <==> AllZero(t)
  {
    for i := 0 to |t|
      invariant forall j :: 0 <= j < i ==> t[j] == 0
    {
      if t[i] != 0 {
        return false;
      }
    }
    return true;
  }

  /** A root without tables below it is in order exactly when its user half is zero. */
  lemma NewRootIff(sp: Space)
    requires sp.mem.Keys == {sp.root} && sp.own == map[] && sp.lists == [[sp.root], [], [], []] && IsPage(sp.root)
    requires |sp.mem[sp.root]| == ENTRIES
    ensures Good(sp) <==> forall i :: 0 <= i < USER_SLOTS ==> sp.mem[sp.root][i] == 0
  {
    hide Have, Target;
    NoEntry();
    if Good(sp) {
      forall i: nat | i < USER_SLOTS ensures sp.mem[sp.root][i] == 0 {
        assert Slot(sp, sp.root, i) && LevelOf(sp, sp.root) == 0;
      }
    }
  }

  /** Such a root translates no user address. */
  lemma NewRoot(sp: Space)
    requires Good(sp) && sp.own == map[]
    ensures Refines(sp, map[])
  {
    hide Have, Target, Index;
    forall w | 0 <= w < USER_LIMIT ensures Translate(sp, w).None? {
      IndicesArePage(w, w);
      RootIsFound(sp, w);
      FindStep(sp, w, 1);
      assert Find(sp, w, 1).None?;
      assert Find(sp, w, 2).None?;
      assert Find(sp, w, 3).None?;
    }
  }

  ghost function Elements(l: seq<nat>): (s: set<nat>) {
    set x | x in l
  }

  lemma NoElements()
    ensures Elements([]) == {}
  {
  }

  /** The four lists are disjoint, without repetition, and hold exactly the tables. */
  ghost predicate Split(mem: map<nat, seq<nat>>, heads: seq<seq<nat>>) {
    && |heads| == 4 && (forall l :: 0 <= l < 4 ==> NoDup(heads[l]))
    && (forall l, k, x :: 0 <= l < 4 && 0 <= k < 4 && l != k && x in heads[l] ==> x !in heads[k])
    && (forall x :: x in mem <==> x in heads[0] || x in heads[1] || x in heads[2] || x in heads[3])
  }

  lemma ListsSplit(sp: Space)
    requires Tree(sp)
    ensures Split(sp.mem, sp.lists)
  {
    hide Children, Tidy, Have, Target, IsPage, Slot;
    forall x | x in sp.own ensures x in sp.lists[1] || x in sp.lists[2] || x in sp.lists[3] {
      assert 1 <= sp.own[x].level <= 3;
    }
    forall l, k, x | 0 <= l < 4 && 0 <= k < 4 && l != k && x in sp.lists[l] ensures x !in sp.lists[k] {
      if l == 0 {
        assert x == sp.root;
      } else {
        assert sp.own[x].level == l;
      }
    }
  }

  /** Giving back the n-th page of a list after the ones before it. */
  lemma TakeOne(mem: map<nat, seq<nat>>, heads: seq<seq<nat>>, l: nat, n: nat)
    requires Split(mem, heads) && l < 4 && n < |heads[l]|
    ensures var all := heads[l]; var x := all[n];
      && all[..n + 1] == all[..n] + [x] && all[n..][0] == x && all[n..][1..] == all[n + 1..]
      && x in mem - Elements(all[..n])
      && mem - Elements(all[..n]) - {x} == mem - Elements(all[..n + 1])
  {
    var all := heads[l];
    assert NoDup(all) && all[n] in heads[l];
    assert all[..n + 1] == all[..n] + [all[n]];
    assert Elements(all[..n + 1]) == Elements(all[..n]) + {all[n]};
  }

  lemma SplitLess(mem: map<nat, seq<nat>>, heads: seq<seq<nat>>, l: nat)
    requires Split(mem, heads) && l < 4
    ensures Split(mem - Elements(heads[l]), heads[l := []])
  {
    var h := heads[l := []];
    forall a, b, x | 0 <= a < 4 && 0 <= b < 4 && a != b && x in h[a] ensures x !in h[b] {
      assert x in heads[a];
    }
  }

  lemma NoEmptyRoot(sp: Space)
    requires Good(sp)
    ensures NoEmpty(sp, Some(sp.root))
  {
    hide Tree;
  }

  lemma OnItsList(sp: Space, x: nat)
    requires Tree(sp) && x in sp.own
    ensures |sp.lists| == 4 && sp.own[x].level < 4 && x in sp.lists[sp.own[x].level]
  {
    hide Children, Tidy;
  }

  class AddressSpace {
    var root: Option<nat>
    var mem: map<nat, seq<nat>>
    var heads: seq<seq<nat>>
    var counts: seq<nat>
    var released: seq<nat>
    ghost var own: map<nat, Node>
    ghost var taken: multiset<nat>

    ghost function View(): (sp: Space)
      reads this
      requires root.Some?
    {
      Space(root.value, mem, heads, own)
    }

    /** Counters equal list lengths, and every page taken is either a table now or was given back. */
    ghost predicate Counted()
      reads this
    {
      && |heads| == 4 && |counts| == 4
      && (forall l :: 0 <= l < 4 ==> counts[l] == |heads[l]|)
      && taken == multiset(released) + multiset(mem.Keys)
    }

    ghost predicate Valid()
      reads this
    {
      && Counted()
      && (root.Some? ==> Good(View()))
      && (root.None? ==> mem == map[] && own == map[] && heads == [[], [], [], []])
    }

    /** mmudsc_t_init */
    constructor ()
      ensures Valid() && root.None? && released == [] && taken == multiset{}
    {
      root, mem, own := None, map[], map[];
      heads := [[], [], [], []];
      counts := [0, 0, 0, 0];
      released, taken := [], multiset{};
    }

    /** mmu_new_tdirearr, _sdirearr, _idirearr and _mdirearr */
    method NewTable(l: nat, offer: Option<nat>) returns (x: Option<nat>)
      requires Counted() && l < 4 && (offer.Some? ==> offer.value !in mem)
      modifies this`mem, this`heads, this`counts, this`taken
      ensures x == offer
      ensures x.None? ==> unchanged(this)
      ensures x.Some? ==> mem == old(mem)[x.value := ZeroTable()] && heads == old(heads)[l := [x.value] + old(heads)[l]]
      ensures Counted()
    {
      if offer.None? {
        return None;
      }
      x := offer;
      mem := mem[x.value := ZeroTable()];
      heads := heads[l := [x.value] + heads[l]];
      counts := counts[l := counts[l] + 1];
      taken := taken + multiset{x.value};
      KeysGrow(old(mem).Keys, x.value);
      assert mem.Keys == old(mem).Keys + {x.value};
    }

    /** mmu_del_sdirearr, _idirearr and _mdirearr; `hint` is the descriptor passed along, if any */
    method DelTable(l: nat, x: nat, hint: Option<nat>) returns (ok: bool)
      requires Counted() && |heads| == 4 && l < 4 && x in mem && (hint == Some(x) ==> x in heads[l])
      modifies this`mem, this`heads, this`counts, this`released
      ensures ok <==> x in old(heads)[l]
      ensures !ok ==> unchanged(this)
      ensures ok ==>
        mem == old(mem) - {x} && heads == old(heads)[l := Drop(old(heads)[l], x)] && released == old(released) + [x]
      ensures Counted()
    {
      hide Without, IndexOf, Counted;
      var i := 0;
      if hint == Some(x) {
        i := IndexOf(heads[l], x);
      } else {
        while i < |heads[l]| && heads[l][i] != x
          invariant i <= |heads[l]| && forall j :: 0 <= j < i ==> heads[l][j] != x
        {
          i := i + 1;
        }
        assert i == IndexOf(heads[l], x);
      }
      if i == |heads[l]| {
        return false;
      }
      DropAt(l, i);
      return true;
    }

    /** list_del of the i-th page of a list, mm_merge_pages and the counter */
    method DropAt(l: nat, i: nat)
      requires Counted() && l < 4 && |heads| == 4 && i < |heads[l]| && heads[l][i] in mem
      modifies this`mem, this`heads, this`counts, this`released
      ensures Counted()
      ensures heads == old(heads)[l := Without(old(heads)[l], i)]
      ensures mem == old(mem) - {old(heads)[l][i]} && released == old(released) + [old(heads)[l][i]]
    {
      hide Without;
      var x := heads[l][i];
      KeysShrink(mem.Keys, x);
      heads := heads[l := Without(heads[l], i)];
      mem := mem - {x};
      assert mem.Keys == old(mem).Keys - {x};
      released := released + [x];
      counts := counts[l := counts[l] - 1];
    }

    /** mmu_transform_sdire, _idire and _mdire: the table of level l below table y */
    method EnsureTable(l: nat, y: nat, v: nat, flags: nat, offer: Option<nat>)
      returns (x: Option<nat>, made: Option<nat>)
      requires Counted() && root.Some? && Tree(View()) && 1 <= l <= 3 && v < USER_LIMIT && flags < PAGE
      requires Find(View(), v, l - 1) == Some(y)
      requires offer.Some? ==> offer.value !in mem && IsPage(offer.value)
      modifies this`mem, this`heads, this`counts, this`own, this`taken
      ensures Counted()
      ensures x.Some? <==> Ensure(old(View()), v, flags, l, offer).Some?
      ensures x.None? ==> made.None? && unchanged(this)
      ensures x.Some? ==> View() == Ensure(old(View()), v, flags, l, offer).value && x == Find(View(), v, l)
      ensures made.Some? ==> made == x && made == offer && y in mem && Index(v, l - 1) < |mem[y]|
      ensures made.Some? ==>
        Points(mem[y][Index(v, l - 1)], made.value, flags) && heads == old(heads)[l := [made.value] + old(heads)[l]]
    {
      hide Points, Tree, Find, Have, Target, Index, IsPage, Entry;
      ghost var sp := View();
      FindStep(sp, v, l);
      var i := Index(v, l - 1);
      var e := mem[y][i];
      if Have(e) {
        return Some(Target(e)), None;
      }
      if offer.None? {
        return None, None;
      }
      x, made := offer, offer;
      EntryRoundTrip(x.value, flags);
      LinkPoints(x.value, flags);
      LinkFind(sp, y, i, x.value, l, Entry(x.value, flags), v, l);
      HangTable(l, y, i, x.value, Entry(x.value, flags));
    }

    /** Make table x of level l and point slot i of y to it. */
    method HangTable(l: nat, y: nat, i: nat, x: nat, e: nat)
      requires Counted() && root.Some? && l < 4 && x !in mem && y in mem && i < |mem[y]|
      modifies this`mem, this`heads, this`counts, this`own, this`taken
      ensures Counted()
      ensures View() == Link(old(View()), y, i, x, l, e)
    {
      var made := NewTable(l, Some(x));
      mem := Write(mem, y, i, e);
      own := own[x := Node(l, y, i)];
      assert mem.Keys == old(mem).Keys + {x};
      assert mem == Write(old(mem), y, i, e)[x := ZeroTable()];
    }

    /** mmu_untransform_mdire, _idire and _sdire: give back the table of level l below y if all zero */
    method ReclaimTable(l: nat, y: nat, v: nat, hint: Option<nat>)
      requires Counted() && root.Some? && Tree(View()) && 1 <= l <= 3 && v < USER_LIMIT
      requires Find(View(), v, l - 1) == Some(y)
      modifies this`mem, this`heads, this`counts, this`own, this`released
      ensures Counted()
      ensures View() == Reclaim(old(View()), v, l)
    {
      hide Tree, Find, Have, Target, Index, IsPage, AllZero;
      ghost var sp := View();
      FindStep(sp, v, l);
      var i := Index(v, l - 1);
      var e := mem[y][i];
      if !Have(e) {
        return;
      }
      var x := Target(e);
      FindOwned(sp, v, l);
      Placement(sp, x);
      var zero := IsAllZero(mem[x]);
      if !zero {
        return;
      }
      OnItsList(sp, x);
      DropTable(l, y, i, x, hint);
    }

    /** Give table x of level l back and clear the slot that points to it. */
    method DropTable(l: nat, y: nat, i: nat, x: nat, hint: Option<nat>)
      requires Counted() && root.Some? && l < 4 && x in mem && x in heads[l] && y in mem && y != x && i < |mem[y]|
      requires x in own && own[x] == Node(l, y, i)
      modifies this`mem, this`heads, this`counts, this`own, this`released
      ensures Counted()
      ensures View() == Unlink(old(View()), x)
    {
      var ok := DelTable(l, x, hint);
      if !ok {
        assert false;
      }
      mem := Write(mem, y, i, 0);
      own := own - {x};
      assert mem.Keys == old(mem).Keys - {x};
      assert mem == Write(old(mem), y, i, 0) - {x};
    }

    /** hal_mmu_transform_core; offers[l - 1] is what the page allocator would return for a new table
        of level l. */
    method MapPage(v: nat, p: nat, flags: nat, offers: seq<Option<nat>>) returns (ok: bool)
      requires Valid() && v < USER_LIMIT && IsPage(p) && flags < PAGE && |offers| == 3
      requires root.Some? ==> FreshPages(View(), offers, 1)
      modifies this`mem, this`heads, this`counts, this`own, this`taken, this`released
      ensures Valid()
      ensures ok <==> root.Some? && forall l :: 1 <= l <= 3 ==> Supplied(old(View()), v, offers, l)
      ensures root.Some? ==> (View(), ok) == Transform(old(View()), v, p, flags, offers)
      ensures ok ==> Remapped(old(View()), View(), v, Some(p))
      ensures ok ==> Entered(old(View()), View(), v, p, flags, offers, 1)
      ensures !ok ==> mem == old(mem) && heads == old(heads) && counts == old(counts) && own == old(own)
    {
      hide Tree, Find, Have, Target, Index, IsPage, Entry, NoEmpty, Remapped, Entered;
      if root.None? {
        return false;
      }
      ghost var sp := View();
      TransformEnters(sp, v, p, flags, offers);
      TransformMaps(sp, v, p, flags, offers);
      TransformFailureRestores(sp, v, p, flags, offers);
      RootIsFound(sp, v);
      NoEmptyRoot(sp);
      ok := MapFrom(v, p, flags, offers);
      if !ok {
        assert counts == old(counts);
      }
    }

    method MapFrom(v: nat, p: nat, flags: nat, offers: seq<Option<nat>>) returns (ok: bool)
      requires Counted() && root.Some? && Tree(View()) && NoEmpty(View(), Some(root.value))
      requires v < USER_LIMIT && IsPage(p) && flags < PAGE && |offers| == 3 && FreshPages(View(), offers, 1)
      modifies this`mem, this`heads, this`counts, this`own, this`taken, this`released
      ensures Counted() && (View(), ok) == Transform(old(View()), v, p, flags, offers)
    {
      hide Tree, Find, Have, Target, Index, IsPage, Entry, NoEmpty, Ensure, Reclaim, SameMap;
      ghost var sp0 := View();
      RootIsFound(sp0, v);
      var t := root.value;
      var s, smsa := EnsureTable(1, t, v, flags, offers[0]);
      if s.None? {
        ReclaimTable(1, t, v, smsa);
        return false;
      }
      EnsureOk(sp0, v, flags, 1, offers);
      ok := MapMiddle(v, p, flags, offers, s.value, smsa);
    }

    method MapMiddle(v: nat, p: nat, flags: nat, offers: seq<Option<nat>>, s: nat, smsa: Option<nat>) returns (ok: bool)
      requires Counted() && root.Some? && Tree(View()) && Find(View(), v, 1) == Some(s) && NoEmpty(View(), Some(s))
      requires v < USER_LIMIT && IsPage(p) && flags < PAGE && |offers| == 3 && FreshPages(View(), offers, 2)
      modifies this`mem, this`heads, this`counts, this`own, this`taken, this`released
      ensures Counted() && (View(), ok) == TransformFrom(old(View()), v, p, flags, offers, 2)
    {
      hide Tree, Find, Have, Target, Index, IsPage, Entry, NoEmpty, Ensure, Reclaim, SameMap;
      ghost var sp1 := View();
      var i, imsa := EnsureTable(2, s, v, flags, offers[1]);
      if i.None? {
        ReclaimKeeps(sp1, v, 2, 0);
        RootIsFound(sp1, v);
        ReclaimTable(2, s, v, imsa);
        ReclaimTable(1, root.value, v, smsa);
        return false;
      }
      EnsureOk(sp1, v, flags, 2, offers);
      EnsureKeeps(sp1, v, flags, 2, offers[1], 1);
      ok := MapLast(v, p, flags, offers, s, i.value, smsa, imsa);
    }

    /** The last two levels of hal_mmu_transform_core. */
    method MapLast(v: nat, p: nat, flags: nat, offers: seq<Option<nat>>, s: nat, i: nat, smsa: Option<nat>,
                   imsa: Option<nat>)
      returns (ok: bool)
      requires Counted() && root.Some? && Tree(View()) && Find(View(), v, 1) == Some(s) && Find(View(), v, 2) == Some(i)
      requires NoEmpty(View(), Some(i)) && v < USER_LIMIT && IsPage(p) && flags < PAGE && |offers| == 3
        && FreshPages(View(), offers, 3)
      modifies this`mem, this`heads, this`counts, this`own, this`taken, this`released
      ensures Counted() && (View(), ok) == TransformFrom(old(View()), v, p, flags, offers, 3)
    {
      hide Tree, Find, Have, Target, Index, IsPage, Entry, NoEmpty, Ensure, Reclaim;
      ghost var sp2 := View();
      var m, mmsa := EnsureTable(3, i, v, flags, offers[2]);
      if m.None? {
        RootIsFound(sp2, v);
        ReclaimKeeps(sp2, v, 3, 0);
        ReclaimKeeps(sp2, v, 3, 1);
        ReclaimKeeps(Reclaim(sp2, v, 3), v, 2, 0);
        ReclaimTable(3, i, v, mmsa);
        ReclaimTable(2, s, v, imsa);
        ReclaimTable(1, root.value, v, smsa);
        return false;
      }
      EnsureOk(sp2, v, flags, 3, offers);
      FindStep(View(), v, 4);
      mem := Write(mem, m.value, Index(v, 3), Entry(p, flags));
      assert mem.Keys == View().mem.Keys;
      return true;
    }
  
    /** mmu_find_sdirearr, mmu_find_idirearr, mmu_find_mdirearr and mmu_find_msaadr */
    method FindBelow(l: nat, y: nat, v: nat) returns (x: Option<nat>)
      requires root.Some? && Tree(View()) && 1 <= l <= 4 && v < USER_LIMIT && Find(View(), v, l - 1) == Some(y)
      ensures x == Find(View(), v, l)
    {
      hide Tree, Find, Have, Target, Index;
      FindStep(View(), v, l);
      var e := mem[y][Index(v, l - 1)];
      return if Have(e) then Some(Target(e)) else None;
    }

    /** hal_mmu_untransform_core */
    method UnmapPage(v: nat) returns (r: Option<nat>)
      requires Valid() && v < USER_LIMIT
      modifies this`mem, this`heads, this`counts, this`own, this`released
      ensures Valid()
      ensures root.None? ==> r.None? && unchanged(this)
      ensures root.Some? ==> (View(), r) == Untransform(old(View()), v) && r == Translate(old(View()), v)
      ensures root.Some? ==> Remapped(old(View()), View(), v, None)
    {
      hide Tree, Find, Have, Target, Index, NoEmpty, Remapped, Reclaim, Translate;
      if root.None? {
        return None;
      }
      ghost var sp := View();
      UntransformUnmaps(sp, v);
      RootIsFound(sp, v);
      var t := root.value;
      var s := FindBelow(1, t, v);
      if s.None? {
        return None;
      }
      var i := FindBelow(2, s.value, v);
      if i.None? {
        ReclaimTable(1, t, v, None);
        return None;
      }
      var m := FindBelow(3, i.value, v);
      if m.None? {
        ReclaimKeeps(sp, v, 2, 0);
        ReclaimTable(2, s.value, v, None);
        ReclaimTable(1, t, v, None);
        return None;
      }
      r := FindBelow(4, m.value, v);
      UnmapLast(v, s.value, i.value, m.value, r.Some?);
    }

    /** Clearing the page entry and giving back the tables it empties. */
    method UnmapLast(v: nat, s: nat, i: nat, m: nat, clear: bool)
      requires Counted() && root.Some? && Tree(View()) && v < USER_LIMIT
      requires Find(View(), v, 1) == Some(s) && Find(View(), v, 2) == Some(i) && Find(View(), v, 3) == Some(m)
      modifies this`mem, this`heads, this`counts, this`own, this`released
      ensures m in old(mem) && |old(mem)[m]| == ENTRIES
      ensures Counted()
        && View() == ReclaimUp(if clear then Leaf(old(View()), m, Index(v, 3), 0) else old(View()), v, 3)
    {
      hide Tree, Find, Have, Target, Index, NoEmpty, Remapped, Reclaim;
      ghost var sp0 := View();
      FindStep(sp0, v, 4);
      if clear {
        LeafEffect(sp0, v, 0);
        mem := Write(mem, m, Index(v, 3), 0);
        assert mem.Keys == old(mem).Keys;
      }
      ghost var sp := View();
      RootIsFound(sp, v);
      ReclaimKeeps(sp, v, 3, 0);
      ReclaimKeeps(sp, v, 3, 1);
      ReclaimKeeps(Reclaim(sp, v, 3), v, 2, 0);
      ReclaimTable(3, i, v, None);
      ReclaimTable(2, s, v, None);
      ReclaimTable(1, root.value, v, None);
    }

    /** hal_mmu_init: a root that copies the boot root table `kernel` except for entry 0. The space is in
        order, and empty, exactly when the rest of the user half of the boot table was empty. */
    method Init(offer: Option<nat>, kernel: seq<nat>) returns (ok: bool)
      requires Valid() && root.None? && |kernel| == ENTRIES
      requires offer.Some? ==> IsPage(offer.value)
      modifies this`root, this`mem, this`heads, this`counts, this`taken
      ensures ok <==> offer.Some?
      ensures !ok ==> unchanged(this)
      ensures ok ==> root == offer && mem == map[offer.value := kernel[0 := 0]] && own == old(own)
      ensures ok ==> heads == [[offer.value], [], [], []] && Counted()
      ensures Valid() <==> (ok ==> forall i :: 1 <= i < USER_SLOTS ==> kernel[i] == 0)
      ensures ok && Valid() ==> Refines(View(), map[])
    {
      hide Good, Refines, IsPage;
      var x := NewTable(0, offer);
      if x.None? {
        return false;
      }
      root := x;
      var table: seq<nat> := kernel[0 := 0];
      mem := mem[x.value := table];
      assert [x.value] + [] == [x.value];
      assert mem.Keys == {x.value} && heads == [[x.value], [], [], []];
      assert forall i :: 1 <= i < ENTRIES ==> kernel[i] == mem[x.value][i];
      NewRootIff(View());
      if Good(View()) {
        NewRoot(View());
      }
      return true;
    }

    /** mmu_clean_mdirearrmsas, _idirearrmsas, _sdirearrmsas and _tdirearrmsas */
    method CleanLevel(l: nat)
      requires Counted() && l < 4 && |heads| == 4 && Split(mem, heads)
      modifies this`mem, this`heads, this`counts, this`released
      ensures Counted()
      ensures heads == old(heads)[l := []] && released == old(released) + old(heads)[l]
      ensures mem == old(mem) - Elements(old(heads)[l]) && Split(mem, heads)
    {
      hide Elements, NoDup, Split, Counted;
      ghost var n := 0;
      ghost var all := heads[l];
      NoElements();
      assert all[0..] == all && all[..0] == [];
      while heads[l] != []
        invariant Counted() && n <= |all| && heads == old(heads)[l := all[n..]]
        invariant released == old(released) + all[..n]
        invariant mem == old(mem) - Elements(all[..n])
        decreases |heads[l]|
      {
        TakeOne(old(mem), old(heads), l, n);
        assert Without(all[n..], 0) == all[n + 1..];
        DropAt(l, 0);
        n := n + 1;
      }
      assert all[..n] == all;
      SplitLess(old(mem), old(heads), l);
    }

    /** hal_mmu_clean, refused while the tables are loaded in CR3: every table this space created goes
        back exactly once, lowest level first, and nothing else does. */
    method Clean(cr3: nat) returns (ok: bool)
      requires Valid()
      modifies this`mem, this`heads, this`counts, this`released
      ensures ok <==> root != Some(cr3)
      ensures !ok ==> unchanged(this)
      ensures ok ==> released == old(released) + old(heads)[3] + old(heads)[2] + old(heads)[1] + old(heads)[0]
      ensures ok ==> mem == map[] && counts == [0, 0, 0, 0] && multiset(released) == taken
    {
      hide Split, Good, Elements, Counted;
      if root == Some(cr3) {
        return false;
      }
      StartSplit();
      CleanAll();
      Emptied();
      return true;
    }

    method CleanAll()
      requires Counted() && |heads| == 4 && Split(mem, heads)
      modifies this`mem, this`heads, this`counts, this`released
      ensures Counted() && heads == [[], [], [], []] && mem == map[]
      ensures released == old(released) + old(heads)[3] + old(heads)[2] + old(heads)[1] + old(heads)[0]
    {
      hide Split, Elements, Counted;
      CleanLevel(3);
      CleanLevel(2);
      CleanLevel(1);
      CleanLevel(0);
      Cleared(old(heads));
      EndSplit(mem);
    }

    lemma Emptied()
      requires Counted() && heads == [[], [], [], []] && mem == map[]
      ensures counts == [0, 0, 0, 0] && multiset(released) == taken
    {
      assert mem.Keys == {};
    }

    lemma StartSplit()
      requires Valid()
      ensures |heads| == 4 && Split(mem, heads)
    {
      if root.Some? {
        ListsSplit(View());
      }
    }
  }

  /** A boot table with entry 1 in use: the new space shares the table behind it and is not in order. */
  method InitStale(x: nat, e: nat) returns (t: AddressSpace)
    requires IsPage(x) && e != 0
    ensures t.root == Some(x) && t.mem == map[x := ZeroTable()[1 := e]] && !t.Valid()
  {
    hide IsPage, Good, Refines;
    t := new AddressSpace();
    var kernel := ZeroTable()[1 := e];
    var ok := t.Init(Some(x), kernel);
    assert kernel[1] == e && kernel[0 := 0] == kernel;
  }

  lemma Cleared(h: seq<seq<nat>>)
    requires |h| == 4
    ensures h[3 := []][2 := []][1 := []][0 := []] == [[], [], [], []]
  {
  }

  lemma EndSplit(mem: map<nat, seq<nat>>)
    requires Split(mem, [[], [], [], []])
    ensures mem == map[]
  {
  }
}
