/** Mapping and unmapping one user page, hal_mmu_transform_core and hal_mmu_untransform_core of
    hal/x86/halmmu.c, on the tables of PageTable: tables are made on the way down and empty ones
    are given back on the way up. */
module PageMap {
  import opened Options
  import opened PageTable

  /** mmu_transform_sdire, _idire and _mdire: the table of level l on the path of v exists, or is made
      from the page `offer` the allocator offers. */
  function Ensure(sp: Space, v: nat, flags: nat, l: nat, offer: Option<nat>): (r: Option<Space>)
    requires 1 <= l <= 3 && |sp.lists| == 4
  {
    var y := Find(sp, v, l - 1);
    if y.None? || y.value !in sp.mem || |sp.mem[y.value]| != ENTRIES then None
    else if Find(sp, v, l).Some? then Some(sp)
    else if offer.None? then None
    else Some(Link(sp, y.value, Index(v, l - 1), offer.value, l, Entry(offer.value, flags)))
  }

  predicate Removable(sp: Space, x: nat) {
    && x in sp.own && x in sp.mem && sp.own[x].level < |sp.lists| && AllZero(sp.mem[x])
    && sp.own[x].parent in sp.mem && sp.own[x].slot < |sp.mem[sp.own[x].parent]|
  }

  /** mmu_untransform_mdire, _idire and _sdire: give back the table of level l on the path of v if it
      is all zero. */
  function Reclaim(sp: Space, v: nat, l: nat): (r: Space)
    requires 1 <= l <= 3
  {
    var x := Find(sp, v, l);
    if x.Some? && Removable(sp, x.value) then Unlink(sp, x.value) else sp
  }

  function ReclaimUp(sp: Space, v: nat, l: nat): (r: Space)
    requires l <= 3
    decreases l
  {
    if l == 0 then sp else ReclaimUp(Reclaim(sp, v, l), v, l - 1)
  }

  /** hal_mmu_transform_core from level l on: the new tables and whether the page was mapped. */
  function TransformFrom(sp: Space, v: nat, p: nat, flags: nat, offers: seq<Option<nat>>, l: nat): (r: (Space, bool))
    requires 1 <= l <= 4 && |sp.lists| == 4 && |offers| == 3
    decreases 4 - l
  {
    if l == 4 then
      var y := Find(sp, v, 3);
      if y.None? || y.value !in sp.mem || |sp.mem[y.value]| != ENTRIES then (sp, false)
      else (Leaf(sp, y.value, Index(v, 3), Entry(p, flags)), true)
    else
      var s := Ensure(sp, v, flags, l, offers[l - 1]);
      if s.None? then (ReclaimUp(sp, v, l), false)
      else TransformFrom(s.value, v, p, flags, offers, l + 1)
  }

  function Transform(sp: Space, v: nat, p: nat, flags: nat, offers: seq<Option<nat>>): (r: (Space, bool))
    requires |sp.lists| == 4 && |offers| == 3
  {
    TransformFrom(sp, v, p, flags, offers, 1)
  }

  /** hal_mmu_untransform_core: the new tables and the page that was mapped. */
  function Untransform(sp: Space, v: nat): (r: (Space, Option<nat>))
  {
    if Find(sp, v, 1).None? then (sp, None)
    else if Find(sp, v, 2).None? then (ReclaimUp(sp, v, 1), None)
    else if Find(sp, v, 3).None? then (ReclaimUp(sp, v, 2), None)
    else
      var y := Find(sp, v, 3).value;
      if Find(sp, v, 4).None? || y !in sp.mem || |sp.mem[y]| != ENTRIES then (ReclaimUp(sp, v, 3), None)
      else (ReclaimUp(Leaf(sp, y, Index(v, 3), 0), v, 3), Find(sp, v, 4))
  }

  // ---------------------------------------------------------------- the way down

  /** Pages the allocator may hand out for new tables: not in use here and different from each other. */
  ghost predicate FreshPages(sp: Space, offers: seq<Option<nat>>, l: nat) {
    && |offers| == 3
    && (forall i :: 0 <= i < 3 && l <= i + 1 && offers[i].Some? ==>
        IsPage(offers[i].value) && offers[i].value !in sp.mem)
    && (forall i, j :: 0 <= i < j < 3 && l <= i + 1 && offers[i].Some? && offers[j].Some? ==> offers[i] != offers[j])
  }

  /** Same translation of every user address. */
  ghost predicate SameMap(sp: Space, sp': Space) {
    forall w :: 0 <= w < USER_LIMIT ==> Translate(sp', w) == Translate(sp, w)
  }

  /** One level of lookup in a tree. */
  lemma FindStep(sp: Space, v: nat, l: nat)
    requires Tree(sp) && v < USER_LIMIT && 1 <= l <= 4 && Find(sp, v, l - 1).Some?
    ensures var y := Find(sp, v, l - 1).value; var i := Index(v, l - 1);
      && Slot(sp, y, i) && |sp.mem[y]| == ENTRIES && LevelOf(sp, y) == l - 1
      && (Find(sp, v, l) == if Have(sp.mem[y][i]) then Some(Target(sp.mem[y][i])) else None)
      && (sp.mem[y][i] == 0 <==> Find(sp, v, l).None?)
      && (l > 1 ==> y in sp.own) && |sp.lists| == 4
  {
    hide Target, Index, IsPage, Listed, Parents, Children;
    FindOwned(sp, v, l - 1);
    NoEntry();
  }

  lemma EnsureOk(sp: Space, v: nat, flags: nat, l: nat, offers: seq<Option<nat>>)
    requires Tree(sp) && v < USER_LIMIT && flags < PAGE && 1 <= l <= 3 && FreshPages(sp, offers, l)
    requires Find(sp, v, l - 1).Some? && NoEmpty(sp, Find(sp, v, l - 1)) && |sp.lists| == 4
    requires Ensure(sp, v, flags, l, offers[l - 1]).Some?
    ensures var s := Ensure(sp, v, flags, l, offers[l - 1]).value;
      && Tree(s) && Find(s, v, l).Some? && NoEmpty(s, Find(s, v, l)) && SameMap(sp, s) && FreshPages(s, offers, l + 1)
  {
    hide Tree, Find, Have, Target, Index, Entry, IsPage;
    FindStep(sp, v, l);
    var y, i := Find(sp, v, l - 1).value, Index(v, l - 1);
    if Find(sp, v, l).None? {
      var x := offers[l - 1].value;
      EntryRoundTrip(x, flags);
      LinkEffect(sp, v, y, i, x, l, Entry(x, flags));
    }
  }

  lemma LinkEffect(sp: Space, v: nat, y: nat, i: nat, x: nat, l: nat, e: nat)
    requires Tree(sp) && v < USER_LIMIT && CanLink(sp, y, i, x, l, e) && e != 0
    requires Find(sp, v, l - 1) == Some(y) && Index(v, l - 1) == i && NoEmpty(sp, Some(y)) && |sp.lists| == 4
    ensures var s := Link(sp, y, i, x, l, e);
      && Tree(s) && Find(s, v, l) == Some(x) && NoEmpty(s, Some(x)) && SameMap(sp, s) && s.mem.Keys == sp.mem.Keys + {x}
  {
    hide Tree, Find;
    var s := Link(sp, y, i, x, l, e);
    LinkTree(sp, y, i, x, l, e);
    LinkFind(sp, y, i, x, l, e, v, l);
    forall w | 0 <= w < USER_LIMIT ensures Translate(s, w) == Translate(sp, w) {
      LinkFind(sp, y, i, x, l, e, w, 4);
    }
    assert s.mem[y][i] == e;
  }

  /** sp' translates v's page to r and every other user page as sp does. */
  ghost predicate Remapped(sp: Space, sp': Space, v: nat, r: Option<nat>) {
    forall w :: 0 <= w < USER_LIMIT ==> Translate(sp', w) == if w / PAGE == v / PAGE then r else Translate(sp, w)
  }

  /** Writing the page entry of v changes the translation of v's page only. */
  lemma LeafEffect(sp: Space, v: nat, e: nat)
    requires Tree(sp) && v < USER_LIMIT && Find(sp, v, 3).Some? && (e == 0 || (Have(e) && e != 0))
    ensures var y := Find(sp, v, 3).value;
      && y in sp.mem && Index(v, 3) < |sp.mem[y]|
      && var s := Leaf(sp, y, Index(v, 3), e);
      && Tree(s) && Remapped(sp, s, v, if e == 0 then None else Some(Target(e)))
      && (NoEmpty(sp, Some(y)) && e != 0 ==> NoEmpty(s, None))
      && (NoEmpty(sp, None) ==> NoEmpty(s, Some(y)))
      && (forall j :: 0 <= j <= 3 ==> Find(s, v, j) == Find(sp, v, j))
  {
    hide Tree, Find, Have, Target, Index;
    FindStep(sp, v, 4);
    NoEntry();
    var y, i := Find(sp, v, 3).value, Index(v, 3);
    var s := Leaf(sp, y, i, e);
    LeafTree(sp, y, i, e);
    assert s.mem[y][i] == e;
    forall j | 0 <= j <= 3 ensures Find(s, v, j) == Find(sp, v, j) {
      LeafFind(sp, y, i, e, v, j);
    }
    forall w | 0 <= w < USER_LIMIT
      ensures Translate(s, w) == if w / PAGE == v / PAGE then (if e == 0 then None else Some(Target(e)))
        else Translate(sp, w)
    {
      LeafFind(sp, y, i, e, w, 4);
      SamePath(sp, v, w);
    }
  }

  /** w reaches the page entry of v exactly when it lies in the same page. */
  lemma SamePath(sp: Space, v: nat, w: nat)
    requires Tree(sp) && v < USER_LIMIT && w < USER_LIMIT && Find(sp, v, 3).Some?
    ensures Find(sp, w, 3) == Find(sp, v, 3) && Index(w, 3) == Index(v, 3) <==> w / PAGE == v / PAGE
  {
    hide Tree, Index, Have, Target;
    IndicesArePage(v, w);
    if w / PAGE == v / PAGE {
      assert Find(sp, w, 0) == Find(sp, v, 0);
      assert Find(sp, w, 1) == Find(sp, v, 1);
      assert Find(sp, w, 2) == Find(sp, v, 2);
    } else if Find(sp, w, 3) == Find(sp, v, 3) && Index(w, 3) == Index(v, 3) {
      SameTable(sp, v, w, 3);
      assert false;
    }
  }

  lemma {:induction false} TransformFromMaps(sp: Space, v: nat, p: nat, flags: nat, offers: seq<Option<nat>>, l: nat)
    requires Tree(sp) && v < USER_LIMIT && IsPage(p) && flags < PAGE && 1 <= l <= 4 && |sp.lists| == 4
    requires FreshPages(sp, offers, l) && Find(sp, v, l - 1).Some? && NoEmpty(sp, Find(sp, v, l - 1))
    ensures var (s, ok) := TransformFrom(sp, v, p, flags, offers, l);
      ok ==> Tree(s) && NoEmpty(s, None) && Remapped(sp, s, v, Some(p))
    decreases 4 - l
  {
    hide Tree, Find, Index, IsPage, Have, Target, Entry, Translate, NoEmpty;
    if l == 4 {
      EntryRoundTrip(p, flags);
      LeafEffect(sp, v, Entry(p, flags));
    } else {
      var s := Ensure(sp, v, flags, l, offers[l - 1]);
      if s.Some? {
        EnsureOk(sp, v, flags, l, offers);
        FindStep(s.value, v, l + 1);
        TransformFromMaps(s.value, v, p, flags, offers, l + 1);
      }
    }
  }

  /** Level l's table is there, or a page for it is offered. */
  predicate Supplied(sp: Space, v: nat, offers: seq<Option<nat>>, l: nat)
    requires 1 <= l <= 3 && |offers| == 3
  {
    Find(sp, v, l).Some? || offers[l - 1].Some?
  }

  lemma NoneBelow(sp: Space, v: nat, l: nat, j: nat)
    requires 1 <= l <= j <= 3 && Find(sp, v, l).None?
    ensures Find(sp, v, j).None?
    decreases j
  {
    if l < j {
      NoneBelow(sp, v, l, j - 1);
    }
  }

  lemma {:induction false} TransformFromIff(sp: Space, v: nat, p: nat, flags: nat, offers: seq<Option<nat>>, l: nat)
    requires Tree(sp) && v < USER_LIMIT && flags < PAGE && 1 <= l <= 4 && |sp.lists| == 4
    requires FreshPages(sp, offers, l) && Find(sp, v, l - 1).Some?
    ensures TransformFrom(sp, v, p, flags, offers, l).1 <==> forall j :: l <= j <= 3 ==> Supplied(sp, v, offers, j)
    decreases 4 - l
  {
    hide Tree, Find, Index, IsPage, Have, Target, Entry;
    FindStep(sp, v, l);
    if l < 4 {
      var y, i := Find(sp, v, l - 1).value, Index(v, l - 1);
      assert l <= l <= 3;
      if Find(sp, v, l).Some? {
        TransformFromIff(sp, v, p, flags, offers, l + 1);
      } else if offers[l - 1].Some? {
        var x := offers[l - 1].value;
        var e := Entry(x, flags);
        EntryRoundTrip(x, flags);
        LinkIsEmpty(sp, v, y, i, x, l, e);
        LinkTree(sp, y, i, x, l, e);
        LinkPages(sp, y, i, x, l, e);
        var s := Link(sp, y, i, x, l, e);
        EmptyEnds(s, v, l);
        forall j | l < j <= 3 ensures Supplied(s, v, offers, j) <==> Supplied(sp, v, offers, j) {
          NoneBelow(sp, v, l, j);
        }
        TransformFromIff(s, v, p, flags, offers, l + 1);
      } else {
        assert !Supplied(sp, v, offers, l);
      }
    }
  }

  /** A transform succeeds exactly when every level has its table or gets a page for it. A successful one
      changes the translation of v's page to p and of no other page, and leaves no empty table behind. */
  lemma TransformMaps(sp: Space, v: nat, p: nat, flags: nat, offers: seq<Option<nat>>)
    requires Tree(sp) && NoEmpty(sp, None) && v < USER_LIMIT && IsPage(p) && flags < PAGE && FreshPages(sp, offers, 1)
    ensures |sp.lists| == 4
    ensures var (s, ok) := Transform(sp, v, p, flags, offers);
      && (ok <==> forall l :: 1 <= l <= 3 ==> Supplied(sp, v, offers, l))
      && (ok ==> Tree(s) && NoEmpty(s, None) && Remapped(sp, s, v, Some(p)))
  {
    TransformFromMaps(sp, v, p, flags, offers, 1);
    TransformFromIff(sp, v, p, flags, offers, 1);
  }

  // ---------------------------------------------------------------- what a transform writes

  /** Slot j of table x leads from level k of the path, l - 1 or below, to a new table or to the page. */
  ghost predicate OnPath(sp: Space, s: Space, v: nat, l: nat, x: nat, j: nat) {
    exists k ::
      && 0 <= k && l - 1 <= k <= 3 && Find(s, v, k) == Some(x) && j == Index(v, k)
      && (k < 3 ==> Find(sp, v, k + 1).None?)
  }

  /** Entry e leads to page p with these flags and no others. */
  predicate Points(e: nat, p: nat, flags: nat) { e % PAGE == flags && e / PAGE == p / PAGE }

  /** The slot of v in its table of level k leads to page p with these flags. */
  ghost predicate SlotPoints(s: Space, v: nat, k: nat, p: nat, flags: nat)
    requires k <= 3
  {
    && Find(s, v, k).Some? && Find(s, v, k).value in s.mem && |s.mem[Find(s, v, k).value]| == ENTRIES
    && Points(s.mem[Find(s, v, k).value][Index(v, k)], p, flags)
  }

  /** The table of level k was there, or is the page offered: linked with the flags, zero but for v's slot, and at
      the front of its list. */
  ghost predicate TableMade(sp: Space, s: Space, v: nat, flags: nat, offers: seq<Option<nat>>, k: nat)
    requires 1 <= k <= 3 && |offers| == 3
  {
    && |sp.lists| == 4 && |s.lists| == 4
    && if Find(sp, v, k).Some? then Find(s, v, k) == Find(sp, v, k) && s.lists[k] == sp.lists[k]
       else
         && offers[k - 1].Some? && Find(s, v, k) == offers[k - 1]
         && var x := offers[k - 1].value;
         && x in s.mem && |s.mem[x]| == ENTRIES && SlotPoints(s, v, k - 1, x, flags)
         && (forall j :: 0 <= j < ENTRIES && j != Index(v, k) ==> s.mem[x][j] == 0)
         && s.lists[k] == [x] + sp.lists[k]
  }

  /** From sp to s exactly the entry of v's page and the missing tables above it were made. */
  ghost predicate Entered(sp: Space, s: Space, v: nat, p: nat, flags: nat, offers: seq<Option<nat>>, l: nat)
    requires 1 <= l <= 4 && |offers| == 3
  {
    && SlotPoints(s, v, 3, p, flags)
    && (forall k :: l <= k <= 3 ==> TableMade(sp, s, v, flags, offers, k))
    && (forall x: nat, j: nat :: x in sp.mem && j < |sp.mem[x]| && !OnPath(sp, s, v, l, x, j) ==>
          x in s.mem && j < |s.mem[x]| && s.mem[x][j] == sp.mem[x][j])
    && (forall x :: x in s.mem <==> x in sp.mem || Made(sp, v, offers, l, x))
  }

  /** x is a page offered for a table that was missing. */
  ghost predicate Made(sp: Space, v: nat, offers: seq<Option<nat>>, l: nat, x: nat)
    requires |offers| == 3
  {
    exists k :: 1 <= l <= k <= 3 && Find(sp, v, k).None? && offers[k - 1] == Some(x)
  }

  /** Tables of different levels are different. */
  lemma LevelsApart(s: Space, v: nat, j: nat, k: nat)
    requires Tree(s) && v < USER_LIMIT && j < 4 && k < 4 && j != k && Find(s, v, j).Some? && Find(s, v, k).Some?
    ensures Find(s, v, j) != Find(s, v, k)
  {
    hide Tree, Find, Index;
    FindOwned(s, v, j);
    FindOwned(s, v, k);
  }

  lemma LeafEnters(sp: Space, v: nat, p: nat, flags: nat, offers: seq<Option<nat>>)
    requires Tree(sp) && v < USER_LIMIT && IsPage(p) && flags < PAGE && |offers| == 3 && Find(sp, v, 3).Some?
    ensures var y := Find(sp, v, 3).value;
      && y in sp.mem && Index(v, 3) < |sp.mem[y]|
      && var s := Leaf(sp, y, Index(v, 3), Entry(p, flags));
      && Entered(sp, s, v, p, flags, offers, 4) && (forall j :: 0 <= j <= 3 ==> Find(s, v, j) == Find(sp, v, j))
      && s.lists == sp.lists
  {
    hide Tree, Find, Have, Target, Index, IsPage, Entry;
    EntryRoundTrip(p, flags);
    LeafEffect(sp, v, Entry(p, flags));
    FindStep(sp, v, 4);
    var y, i := Find(sp, v, 3).value, Index(v, 3);
    var s := Leaf(sp, y, i, Entry(p, flags));
    forall x: nat, j: nat | x in sp.mem && j < |sp.mem[x]| && !OnPath(sp, s, v, 4, x, j)
      ensures x in s.mem && j < |s.mem[x]| && s.mem[x][j] == sp.mem[x][j]
    {
      assert Find(s, v, 3) == Find(sp, v, 3);
    }
  }

  /** A level whose table was there adds nothing. */
  lemma KeptEnters(sp: Space, s: Space, v: nat, p: nat, flags: nat, offers: seq<Option<nat>>, l: nat)
    requires 1 <= l <= 3 && |offers| == 3 && Entered(sp, s, v, p, flags, offers, l + 1)
    requires Find(sp, v, l).Some? && Find(s, v, l) == Find(sp, v, l)
    requires |sp.lists| == 4 && |s.lists| == 4 && s.lists[l] == sp.lists[l]
    ensures Entered(sp, s, v, p, flags, offers, l)
  {
    hide Find, Index, Points;
    forall k | l <= k <= 3 ensures TableMade(sp, s, v, flags, offers, k) {
      assert k > l ==> l + 1 <= k <= 3;
    }
    forall x: nat, j: nat | x in sp.mem && j < |sp.mem[x]| && !OnPath(sp, s, v, l, x, j)
      ensures x in s.mem && j < |s.mem[x]| && s.mem[x][j] == sp.mem[x][j]
    {
      assert !OnPath(sp, s, v, l + 1, x, j);
    }
    forall x: nat ensures Made(sp, v, offers, l, x) <==> Made(sp, v, offers, l + 1, x) {
      if k :| 1 <= l <= k <= 3 && Find(sp, v, k).None? && offers[k - 1] == Some(x) {
        assert 1 <= l + 1 <= k <= 3;
      }
    }
  }

  /** What linking table x does to the path of v. */
  ghost predicate Linked(sp: Space, s1: Space, v: nat, l: nat, y: nat, x: nat, e: nat)
    requires 1 <= l <= 3
  {
    && Find(s1, v, l - 1) == Some(y) && Find(s1, v, l) == Some(x) && x !in sp.mem && y != x
    && (forall k :: l <= k <= 3 ==> Find(sp, v, k).None?) && (forall k :: l < k <= 3 ==> Find(s1, v, k).None?)
    && s1.mem.Keys == sp.mem.Keys + {x}
    && y in sp.mem && |sp.mem[y]| == ENTRIES && |s1.mem[x]| == ENTRIES && |s1.mem[y]| == ENTRIES
    && s1.mem[y][Index(v, l - 1)] == e && (forall j :: 0 <= j < ENTRIES ==> s1.mem[x][j] == 0)
    && (forall z: nat, j: nat :: z in sp.mem && j < |sp.mem[z]| && (z != y || j != Index(v, l - 1)) ==>
          j < |s1.mem[z]| && s1.mem[z][j] == sp.mem[z][j])
    && |sp.lists| == 4 && |s1.lists| == 4 && s1.lists[l] == [x] + sp.lists[l]
    && forall k :: 0 <= k < 4 && k != l ==> s1.lists[k] == sp.lists[k]
  }

  lemma LinkIsLinked(sp: Space, v: nat, y: nat, x: nat, l: nat, e: nat)
    requires Tree(sp) && v < USER_LIMIT && 1 <= l <= 3 && CanLink(sp, y, Index(v, l - 1), x, l, e) && |sp.lists| == 4
    requires Find(sp, v, l - 1) == Some(y) && Find(sp, v, l).None?
    ensures Linked(sp, Link(sp, y, Index(v, l - 1), x, l, e), v, l, y, x, e)
  {
    hide Tree, Find, Have, Target, Index, IsPage;
    var i := Index(v, l - 1);
    var s1 := Link(sp, y, i, x, l, e);
    LinkPages(sp, y, i, x, l, e);
    LinkIsEmpty(sp, v, y, i, x, l, e);
    LinkFind(sp, y, i, x, l, e, v, l - 1);
    LinkTree(sp, y, i, x, l, e);
    EmptyEnds(s1, v, l);
    FindStep(sp, v, l);
    forall k | l <= k <= 3 ensures Find(sp, v, k).None? {
      NoneBelow(sp, v, l, k);
    }
  }

  lemma LinkMakes(sp: Space, s1: Space, s: Space, v: nat, p: nat, flags: nat, offers: seq<Option<nat>>, l: nat, y: nat,
                  x: nat, e: nat)
    requires 1 <= l <= 3 && |offers| == 3 && offers[l - 1] == Some(x)
    requires Linked(sp, s1, v, l, y, x, e) && Points(e, x, flags)
    requires Entered(s1, s, v, p, flags, offers, l + 1) && Tree(s) && v < USER_LIMIT
    requires forall j :: 0 <= j <= l ==> Find(s, v, j) == Find(s1, v, j)
    requires |s.lists| == 4 && s.lists[l] == s1.lists[l]
    ensures TableMade(sp, s, v, flags, offers, l)
  {
    hide Find, Index, Points, Tree;
    FindStep(s, v, l);
    FindStep(s, v, l + 1);
    SlotKept(s1, s, v, p, flags, offers, l, l - 1, Index(v, l - 1));
    forall j: nat | j < ENTRIES && j != Index(v, l) ensures j < |s.mem[x]| && s.mem[x][j] == 0 {
      SlotKept(s1, s, v, p, flags, offers, l, l, j);
    }
  }

  lemma LinkEnters(sp: Space, s1: Space, s: Space, v: nat, p: nat, flags: nat, offers: seq<Option<nat>>, l: nat, y: nat,
                   x: nat, e: nat)
    requires 1 <= l <= 3 && |offers| == 3 && offers[l - 1] == Some(x)
    requires Linked(sp, s1, v, l, y, x, e) && Points(e, x, flags)
    requires Entered(s1, s, v, p, flags, offers, l + 1) && Tree(s) && v < USER_LIMIT
    requires forall j :: 0 <= j <= l ==> Find(s, v, j) == Find(s1, v, j)
    requires |s.lists| == 4 && s.lists[l] == s1.lists[l]
    ensures Entered(sp, s, v, p, flags, offers, l)
  {
    hide Find, Index, Points, Tree;
    LinkMakes(sp, s1, s, v, p, flags, offers, l, y, x, e);
    forall k | l < k <= 3 ensures TableMade(sp, s, v, flags, offers, k) {
      assert TableMade(s1, s, v, flags, offers, k);
    }
    forall z: nat, j: nat | z in sp.mem && j < |sp.mem[z]| && !OnPath(sp, s, v, l, z, j)
      ensures z in s.mem && j < |s.mem[z]| && s.mem[z][j] == sp.mem[z][j]
    {
      LinkOthers(sp, s1, s, v, p, flags, offers, l, y, x, e, z, j);
    }
    forall z: nat ensures z in s.mem <==> z in sp.mem || Made(sp, v, offers, l, z) {
      MadeMore(sp, s1, v, offers, l, x, z);
    }
  }

  lemma LinkOthers(sp: Space, s1: Space, s: Space, v: nat, p: nat, flags: nat, offers: seq<Option<nat>>, l: nat, y: nat,
                   x: nat, e: nat, z: nat, j: nat)
    requires 1 <= l <= 3 && |offers| == 3 && Linked(sp, s1, v, l, y, x, e) && Find(s, v, l - 1) == Some(y)
    requires Entered(s1, s, v, p, flags, offers, l + 1)
    requires z in sp.mem && j < |sp.mem[z]| && !OnPath(sp, s, v, l, z, j)
    ensures z in s.mem && j < |s.mem[z]| && s.mem[z][j] == sp.mem[z][j]
  {
    hide Find, Index, Points, TableMade;
    assert Find(sp, v, l).None?;
    OffPath(sp, s1, s, v, l, z, j);
    assert z != y || j != Index(v, l - 1);
    var was := sp.mem[z][j];
    assert s1.mem[z][j] == was;
  }

  lemma MadeMore(sp: Space, s1: Space, v: nat, offers: seq<Option<nat>>, l: nat, x: nat, z: nat)
    requires 1 <= l <= 3 && |offers| == 3 && offers[l - 1] == Some(x)
    requires (forall k :: l <= k <= 3 ==> Find(sp, v, k).None?) && (forall k :: l < k <= 3 ==> Find(s1, v, k).None?)
    ensures Made(sp, v, offers, l, z) <==> z == x || Made(s1, v, offers, l + 1, z)
  {
    hide Find;
    if k :| 1 <= l <= k <= 3 && Find(sp, v, k).None? && offers[k - 1] == Some(z) {
      assert k > l ==> Find(s1, v, k).None? && 1 <= l + 1 <= k <= 3;
    }
    if k :| 1 <= l + 1 <= k <= 3 && Find(s1, v, k).None? && offers[k - 1] == Some(z) {
      assert Find(sp, v, k).None? && l <= k;
    }
    assert Find(sp, v, l).None?;
  }

  lemma OffPath(sp: Space, s1: Space, s: Space, v: nat, l: nat, z: nat, j: nat)
    requires 1 <= l <= 3 && !OnPath(sp, s, v, l, z, j) && forall k :: l <= k <= 3 ==> Find(sp, v, k).None?
    ensures !OnPath(s1, s, v, l + 1, z, j)
  {
    hide Find, Index;
  }

  /** What is written further down leaves the slots of level l - 1 and the rest of level l alone. */
  lemma SlotKept(s1: Space, s: Space, v: nat, p: nat, flags: nat, offers: seq<Option<nat>>, l: nat, k: nat, j: nat)
    requires 1 <= l <= 3 && |offers| == 3 && Entered(s1, s, v, p, flags, offers, l + 1) && Tree(s) && v < USER_LIMIT
    requires l - 1 <= k <= l && (k == l - 1 || j != Index(v, l))
    requires Find(s, v, k).Some? && Find(s, v, k).value in s1.mem && j < |s1.mem[Find(s, v, k).value]|
    ensures var x := Find(s, v, k).value; x in s.mem && j < |s.mem[x]| && s.mem[x][j] == s1.mem[x][j]
  {
    hide Find, Index, Points, Tree, TableMade;
    var x := Find(s, v, k).value;
    if OnPath(s1, s, v, l + 1, x, j) {
      var m :| 0 <= m && l <= m <= 3 && Find(s, v, m) == Some(x) && j == Index(v, m);
      LevelsApart(s, v, m, k);
    }
  }

  lemma {:induction false} TransformFromEnters(sp: Space, v: nat, p: nat, flags: nat, offers: seq<Option<nat>>, l: nat)
    requires Tree(sp) && v < USER_LIMIT && IsPage(p) && flags < PAGE && 1 <= l <= 4 && |sp.lists| == 4
    requires FreshPages(sp, offers, l) && Find(sp, v, l - 1).Some? && NoEmpty(sp, Find(sp, v, l - 1))
    ensures var (s, ok) := TransformFrom(sp, v, p, flags, offers, l);
      ok ==>
        && Entered(sp, s, v, p, flags, offers, l) && (forall j :: 0 <= j < l ==> Find(s, v, j) == Find(sp, v, j))
        && |s.lists| == 4 && forall k :: 0 <= k < l && k < 4 ==> s.lists[k] == sp.lists[k]
    decreases 4 - l
  {
    hide Tree, Find, Index, IsPage, Have, Target, Entry, NoEmpty, Entered, Points;
    if l == 4 {
      LeafEnters(sp, v, p, flags, offers);
    } else {
      var r := Ensure(sp, v, flags, l, offers[l - 1]);
      if r.Some? && TransformFrom(sp, v, p, flags, offers, l).1 {
        var s1, s := r.value, TransformFrom(sp, v, p, flags, offers, l).0;
        EnsureOk(sp, v, flags, l, offers);
        FindStep(s1, v, l + 1);
        TransformFromEnters(s1, v, p, flags, offers, l + 1);
        if Find(sp, v, l).Some? {
          KeptEnters(sp, s, v, p, flags, offers, l);
        } else {
          var y, x := Find(sp, v, l - 1).value, offers[l - 1].value;
          FindStep(sp, v, l);
          EntryRoundTrip(x, flags);
          LinkIsLinked(sp, v, y, x, l, Entry(x, flags));
          TransformFromMaps(s1, v, p, flags, offers, l + 1);
          LinkPoints(x, flags);
          LinkEnters(sp, s1, s, v, p, flags, offers, l, y, x, Entry(x, flags));
          LinkPrefix(sp, v, y, x, l, Entry(x, flags));
        }
      }
    }
  }

  lemma LinkPoints(x: nat, flags: nat)
    requires IsPage(x) && flags < PAGE
    ensures Points(Entry(x, flags), x, flags)
  {
    hide Entry, Have, Target;
    EntryRoundTrip(x, flags);
  }

  lemma LinkPrefix(sp: Space, v: nat, y: nat, x: nat, l: nat, e: nat)
    requires Tree(sp) && v < USER_LIMIT && 1 <= l <= 3 && CanLink(sp, y, Index(v, l - 1), x, l, e) && |sp.lists| == 4
    ensures forall j :: 0 <= j < l ==> Find(Link(sp, y, Index(v, l - 1), x, l, e), v, j) == Find(sp, v, j)
  {
    hide Tree, Find, Have, Target, Index, IsPage;
    forall j | 0 <= j < l ensures Find(Link(sp, y, Index(v, l - 1), x, l, e), v, j) == Find(sp, v, j) {
      LinkFind(sp, y, Index(v, l - 1), x, l, e, v, j);
    }
  }

  /** A successful transform writes the entry of v's page with address and flags, makes each missing table with an
      entry of the same flags, and leaves every other entry of every table as it was. */
  lemma TransformEnters(sp: Space, v: nat, p: nat, flags: nat, offers: seq<Option<nat>>)
    requires Tree(sp) && NoEmpty(sp, None) && v < USER_LIMIT && IsPage(p) && flags < PAGE && FreshPages(sp, offers, 1)
    ensures |sp.lists| == 4
    ensures var (s, ok) := Transform(sp, v, p, flags, offers); ok ==> Entered(sp, s, v, p, flags, offers, 1)
  {
    hide Entered;
    TransformFromEnters(sp, v, p, flags, offers, 1);
  }

  /** Every entry in use of the user half has these flags and no others. */
  ghost predicate Flagged(sp: Space, flags: nat) {
    forall y: nat, i: nat :: Slot(sp, y, i) && Have(sp.mem[y][i]) ==> sp.mem[y][i] % PAGE == flags
  }

  /** Mapping with the same flags throughout leaves no entry with others. */
  lemma EnteredFlags(sp: Space, s: Space, v: nat, p: nat, flags: nat, offers: seq<Option<nat>>)
    requires Pages(sp) && Pages(s) && s.root == sp.root && |offers| == 3
    requires Entered(sp, s, v, p, flags, offers, 1) && Flagged(sp, flags)
    ensures Flagged(s, flags)
  {
    hide Find, Index, Have, Points, IsPage;
    NoEntry();
    forall y: nat, i: nat | Slot(s, y, i) && Have(s.mem[y][i]) ensures s.mem[y][i] % PAGE == flags {
      if OnPath(sp, s, v, 1, y, i) {
        var k :| 0 <= k <= 3 && Find(s, v, k) == Some(y) && i == Index(v, k) && (k < 3 ==> Find(sp, v, k + 1).None?);
        PathFlags(sp, s, v, p, flags, offers, k);
      } else if y in sp.mem {
        assert Slot(sp, y, i) && s.mem[y][i] == sp.mem[y][i];
      } else {
        MadeFlags(sp, s, v, p, flags, offers, y, i);
      }
    }
  }

  lemma PathFlags(sp: Space, s: Space, v: nat, p: nat, flags: nat, offers: seq<Option<nat>>, k: nat)
    requires |offers| == 3 && Entered(sp, s, v, p, flags, offers, 1)
    requires k <= 3 && Find(s, v, k).Some? && (k < 3 ==> Find(sp, v, k + 1).None?)
    ensures var y := Find(s, v, k).value; y in s.mem && |s.mem[y]| == ENTRIES && s.mem[y][Index(v, k)] % PAGE == flags
  {
    hide Find, Index;
    if k < 3 {
      assert TableMade(sp, s, v, flags, offers, k + 1);
    }
  }

  lemma MadeFlags(sp: Space, s: Space, v: nat, p: nat, flags: nat, offers: seq<Option<nat>>, y: nat, i: nat)
    requires |offers| == 3 && Entered(sp, s, v, p, flags, offers, 1) && Made(sp, v, offers, 1, y)
    ensures y in s.mem && |s.mem[y]| == ENTRIES
    ensures i < ENTRIES ==> s.mem[y][i] == 0 || s.mem[y][i] % PAGE == flags
  {
    hide Find, Index, Points;
    var k :| 1 <= k <= 3 && Find(sp, v, k).None? && offers[k - 1] == Some(y);
    assert TableMade(sp, s, v, flags, offers, k);
    if k < 3 {
      NoneBelow(sp, v, k, k + 1);
    }
    PathFlags(sp, s, v, p, flags, offers, k);
  }

  lemma {:induction false} ReclaimFlags(sp: Space, v: nat, l: nat, flags: nat)
    requires l <= 3 && Flagged(sp, flags)
    ensures Flagged(ReclaimUp(sp, v, l), flags)
    decreases l
  {
    hide Find, Have;
    NoEntry();
    if l > 0 {
      var r := Reclaim(sp, v, l);
      forall y: nat, i: nat | Slot(r, y, i) && Have(r.mem[y][i]) ensures r.mem[y][i] % PAGE == flags {
        assert Slot(sp, y, i);
      }
      ReclaimFlags(r, v, l - 1, flags);
    }
  }

  /** Unmapping leaves the flags of every entry still in use. */
  lemma UntransformFlags(sp: Space, v: nat, flags: nat)
    requires Flagged(sp, flags)
    ensures Flagged(Untransform(sp, v).0, flags)
  {
    hide Find, Have, Index, ReclaimUp, Flagged;
    ReclaimFlags(sp, v, 1, flags);
    ReclaimFlags(sp, v, 2, flags);
    ReclaimFlags(sp, v, 3, flags);
    var y := Find(sp, v, 3);
    if y.Some? && y.value in sp.mem && |sp.mem[y.value]| == ENTRIES {
      LeafFlags(sp, y.value, Index(v, 3), flags);
      ReclaimFlags(Leaf(sp, y.value, Index(v, 3), 0), v, 3, flags);
    }
  }

  lemma LeafFlags(sp: Space, y: nat, i: nat, flags: nat)
    requires Flagged(sp, flags) && y in sp.mem && i < |sp.mem[y]|
    ensures Flagged(Leaf(sp, y, i, 0), flags)
  {
    hide Have;
    NoEntry();
    var r := Leaf(sp, y, i, 0);
    forall z: nat, j: nat | Slot(r, z, j) && Have(r.mem[z][j]) ensures r.mem[z][j] % PAGE == flags {
      assert Slot(sp, z, j);
    }
  }

  // ---------------------------------------------------------------- failure

  /** No table of v's path from level l on is empty. */
  ghost predicate FullBelow(sp: Space, v: nat, l: nat) {
    forall j, x :: l <= j <= 3 && 0 <= j && Find(sp, v, j) == Some(x) && x in sp.mem ==> !AllZero(sp.mem[x])
  }

  lemma LinkIsEmpty(sp: Space, v: nat, y: nat, i: nat, x: nat, l: nat, e: nat)
    requires Tree(sp) && v < USER_LIMIT && CanLink(sp, y, i, x, l, e) && |sp.lists| == 4
    requires Find(sp, v, l - 1) == Some(y) && Index(v, l - 1) == i
    ensures var s := Link(sp, y, i, x, l, e);
      Find(s, v, l) == Some(x) && s.mem[x] == ZeroTable() && Removable(s, x) && FullBelow(s, v, l + 1)
  {
    hide Tree, Find, Have, Target, Index, IsPage;
    var s := Link(sp, y, i, x, l, e);
    LinkPages(sp, y, i, x, l, e);
    LinkFind(sp, y, i, x, l, e, v, l);
    LinkTree(sp, y, i, x, l, e);
    EmptyEnds(s, v, l);
  }

  /** Linking a table and reclaiming it at once restores the space. */
  lemma LinkThenReclaim(sp: Space, v: nat, y: nat, i: nat, x: nat, l: nat, e: nat)
    requires Tree(sp) && v < USER_LIMIT && CanLink(sp, y, i, x, l, e) && |sp.lists| == 4
    requires Find(sp, v, l - 1) == Some(y) && Index(v, l - 1) == i && sp.mem[y][i] == 0
    ensures Reclaim(Link(sp, y, i, x, l, e), v, l) == sp
    ensures FullBelow(Link(sp, y, i, x, l, e), v, l + 1)
  {
    hide Find, Have, Target, Index, IsPage, Parents, Children, Tidy, Listed, AllZero, FullBelow;
    var s := Link(sp, y, i, x, l, e);
    LinkIsEmpty(sp, v, y, i, x, l, e);
    var u := Unlink(s, x);
    assert x !in sp.own;
    assert Drop(s.lists[l], x) == sp.lists[l];
    assert u.lists == sp.lists;
    assert u.own == sp.own;
    assert s.mem[y][i := 0] == sp.mem[y];
    assert u.mem.Keys == sp.mem.Keys;
    assert u.mem == sp.mem;
  }

  /** Below an empty table of the path there is nothing. */
  lemma EmptyEnds(sp: Space, v: nat, l: nat)
    requires Tree(sp) && v < USER_LIMIT && 1 <= l <= 3 && Find(sp, v, l).Some? && Find(sp, v, l).value in sp.mem
    requires AllZero(sp.mem[Find(sp, v, l).value])
    ensures forall j :: l < j <= 3 ==> Find(sp, v, j).None?
  {
    hide Tree, Have, Target, Index;
    FindStep(sp, v, l + 1);
    assert Find(sp, v, l + 1).None?;
    forall j | l < j <= 3 ensures Find(sp, v, j).None? {
      if j == l + 2 {
        assert Find(sp, v, j - 1).None?;
      }
    }
  }

  lemma {:induction false} FailureUndone(sp: Space, v: nat, p: nat, flags: nat, offers: seq<Option<nat>>, l: nat)
    requires Tree(sp) && v < USER_LIMIT && flags < PAGE && 1 <= l <= 4 && |sp.lists| == 4
    requires FreshPages(sp, offers, l) && Find(sp, v, l - 1).Some? && FullBelow(sp, v, l)
    ensures var (s, ok) := TransformFrom(sp, v, p, flags, offers, l);
      !ok ==> s == ReclaimUp(sp, v, l - 1)
    decreases 4 - l
  {
    hide Tree, Find, Index, IsPage, Have, Target, Entry, Unlink;
    FindStep(sp, v, l);
    if l < 4 {
      var y, i := Find(sp, v, l - 1).value, Index(v, l - 1);
      if Find(sp, v, l).Some? {
        FindStep(sp, v, l + 1);
        FailureUndone(sp, v, p, flags, offers, l + 1);
        assert Reclaim(sp, v, l) == sp;
      } else if offers[l - 1].Some? {
        var x := offers[l - 1].value;
        var e := Entry(x, flags);
        EntryRoundTrip(x, flags);
        LinkThenReclaim(sp, v, y, i, x, l, e);
        LinkTree(sp, y, i, x, l, e);
        LinkFind(sp, y, i, x, l, e, v, l);
        LinkPages(sp, y, i, x, l, e);
        FailureUndone(Link(sp, y, i, x, l, e), v, p, flags, offers, l + 1);
      }
    }
  }

  /** A transform that fails at any level leaves tables and lists as they were. */
  lemma TransformFailureRestores(sp: Space, v: nat, p: nat, flags: nat, offers: seq<Option<nat>>)
    requires Tree(sp) && NoEmpty(sp, None) && v < USER_LIMIT && flags < PAGE && FreshPages(sp, offers, 1)
    ensures |sp.lists| == 4
    ensures !Transform(sp, v, p, flags, offers).1 ==> Transform(sp, v, p, flags, offers).0 == sp
  {
    forall j, x | 1 <= j <= 3 && Find(sp, v, j) == Some(x) && x in sp.mem ensures !AllZero(sp.mem[x]) {
      FindOwned(sp, v, j);
    }
    FailureUndone(sp, v, p, flags, offers, 1);
  }

  // ---------------------------------------------------------------- the way up

  lemma ReclaimOk(sp: Space, v: nat, l: nat)
    requires Tree(sp) && v < USER_LIMIT && 1 <= l <= 3 && NoEmpty(sp, Find(sp, v, l))
    ensures var r := Reclaim(sp, v, l);
      && Tree(r) && SameMap(sp, r) && NoEmpty(r, Find(r, v, l - 1))
  {
    hide Tree, Find, Have, Target, Index, IsPage, AllZero;
    var x := Find(sp, v, l);
    if x.Some? && Removable(sp, x.value) {
      var r := Unlink(sp, x.value);
      FindOwned(sp, v, l);
      UnlinkTree(sp, x.value);
      UnlinkPages(sp, x.value);
      UnlinkFind(sp, x.value, v, l - 1);
      forall w | 0 <= w < USER_LIMIT ensures Translate(r, w) == Translate(sp, w) {
        UnlinkFind(sp, x.value, w, 4);
      }
    } else if x.Some? {
      FindOwned(sp, v, l);
      Placement(sp, x.value);
    }
  }

  lemma {:induction false} ReclaimUpOk(sp: Space, v: nat, l: nat)
    requires Tree(sp) && v < USER_LIMIT && l <= 3 && NoEmpty(sp, Find(sp, v, l))
    ensures var r := ReclaimUp(sp, v, l); Tree(r) && SameMap(sp, r) && NoEmpty(r, None)
    decreases l
  {
    hide Find, Translate, Parents, Children, Tidy, Listed, AllZero;
    if l > 0 {
      ReclaimOk(sp, v, l);
      ReclaimUpOk(Reclaim(sp, v, l), v, l - 1);
    } else {
      RootIsFound(sp, v);
    }
  }

  lemma RootIsFound(sp: Space, v: nat)
    ensures Find(sp, v, 0) == Some(sp.root)
  {
  }

  lemma {:induction false} ReclaimUpNothing(sp: Space, v: nat, l: nat)
    requires Tree(sp) && v < USER_LIMIT && l <= 3 && NoEmpty(sp, None)
    ensures ReclaimUp(sp, v, l) == sp
    decreases l
  {
    hide Tree, Find;
    if l > 0 {
      ReclaimUpNothing(sp, v, l - 1);
    }
  }

  /** Untransform returns exactly the page v was mapped to, removes that page's translation and no
      other, and gives back every table it empties; an unmapped address changes nothing. */
  lemma UntransformUnmaps(sp: Space, v: nat)
    requires Tree(sp) && NoEmpty(sp, None) && v < USER_LIMIT
    ensures var (s, r) := Untransform(sp, v);
      && r == Translate(sp, v)
      && Tree(s) && NoEmpty(s, None) && Remapped(sp, s, v, None)
      && (r.None? ==> s == sp)
  {
    hide Tree, Have, Target, Index, AllZero;
    ReclaimUpNothing(sp, v, 1);
    ReclaimUpNothing(sp, v, 2);
    ReclaimUpNothing(sp, v, 3);
    if Translate(sp, v).None? {
      UnmappedPage(sp, v);
    } else {
      FindStep(sp, v, 4);
      LeafEffect(sp, v, 0);
      ReclaimUpOk(Leaf(sp, Find(sp, v, 3).value, Index(v, 3), 0), v, 3);
    }
  }

  /** All addresses of one page translate alike. */
  lemma UnmappedPage(sp: Space, v: nat)
    requires v < USER_LIMIT && Translate(sp, v).None?
    ensures Remapped(sp, sp, v, None)
  {
    hide Index, Have, Target;
    forall w | 0 <= w < USER_LIMIT && w / PAGE == v / PAGE ensures Translate(sp, w) == Translate(sp, v) {
      IndicesArePage(v, w);
      assert Find(sp, w, 0) == Find(sp, v, 0);
      assert Find(sp, w, 1) == Find(sp, v, 1);
      assert Find(sp, w, 2) == Find(sp, v, 2);
      assert Find(sp, w, 3) == Find(sp, v, 3);
    }
  }

  // ---------------------------------------------------------------- map then unmap

  lemma {:induction false} UnmapUndoes(sp: Space, v: nat, p: nat, flags: nat, offers: seq<Option<nat>>, l: nat)
    requires Tree(sp) && v < USER_LIMIT && IsPage(p) && flags < PAGE && 1 <= l <= 4 && |sp.lists| == 4
    requires FreshPages(sp, offers, l) && Find(sp, v, l - 1).Some? && FullBelow(sp, v, l) && Find(sp, v, 4).None?
    ensures var (s, ok) := TransformFrom(sp, v, p, flags, offers, l);
      ok ==> && Find(s, v, 1).Some? && Find(s, v, 2).Some? && Find(s, v, 3).Some? && Find(s, v, 4).Some?
             && var y := Find(s, v, 3).value;
             && y in s.mem && |s.mem[y]| == ENTRIES
             && ReclaimUp(Leaf(s, y, Index(v, 3), 0), v, 3) == ReclaimUp(sp, v, l - 1)
    decreases 4 - l
  {
    hide Tree, Find, Index, IsPage, Have, Target, Entry, Unlink;
    FindStep(sp, v, l);
    var y, i := Find(sp, v, l - 1).value, Index(v, l - 1);
    if l == 4 {
      var e := Entry(p, flags);
      EntryRoundTrip(p, flags);
      LeafEffect(sp, v, e);
      var s := Leaf(sp, y, i, e);
      assert s.mem[y][i := 0] == sp.mem[y];
      assert Leaf(s, y, i, 0).mem == sp.mem;
      PathAbove(sp, v);
      assert Find(s, v, 3) == Some(y) && Translate(s, v) == Some(p);
    } else if Find(sp, v, l).Some? {
      FindStep(sp, v, l + 1);
      UnmapUndoes(sp, v, p, flags, offers, l + 1);
      assert Reclaim(sp, v, l) == sp;
    } else if offers[l - 1].Some? {
      var x := offers[l - 1].value;
      var e := Entry(x, flags);
      EntryRoundTrip(x, flags);
      LinkThenReclaim(sp, v, y, i, x, l, e);
      LinkTree(sp, y, i, x, l, e);
      LinkFind(sp, y, i, x, l, e, v, l);
      LinkFind(sp, y, i, x, l, e, v, 4);
      LinkPages(sp, y, i, x, l, e);
      UnmapUndoes(Link(sp, y, i, x, l, e), v, p, flags, offers, l + 1);
    }
  }

  lemma PathAbove(sp: Space, v: nat)
    requires Find(sp, v, 3).Some?
    ensures Find(sp, v, 1).Some? && Find(sp, v, 2).Some?
  {
    hide Index, Have, Target;
  }

  /** Mapping an unmapped page and unmapping it at once restores tables and lists exactly. */
  lemma MapThenUnmap(sp: Space, v: nat, p: nat, flags: nat, offers: seq<Option<nat>>)
    requires Tree(sp) && NoEmpty(sp, None) && v < USER_LIMIT && IsPage(p) && flags < PAGE && FreshPages(sp, offers, 1)
    requires Translate(sp, v).None?
    ensures |sp.lists| == 4
    ensures var (s, ok) := Transform(sp, v, p, flags, offers);
      ok ==> Untransform(s, v) == (sp, Some(p))
  {
    forall j, x | 1 <= j <= 3 && Find(sp, v, j) == Some(x) && x in sp.mem ensures !AllZero(sp.mem[x]) {
      FindOwned(sp, v, j);
    }
    UnmapUndoes(sp, v, p, flags, offers, 1);
    TransformMaps(sp, v, p, flags, offers);
  }

  // ---------------------------------------------------------------- whole runs refine a flat map

  datatype Op = Map(v: nat, p: nat, flags: nat, offers: seq<Option<nat>>) | Unmap(v: nat)

  ghost predicate Good(sp: Space) { Tree(sp) && NoEmpty(sp, None) }

  ghost predicate Allowed(sp: Space, op: Op) {
    && op.v < USER_LIMIT
    && (op.Map? ==> IsPage(op.p) && op.flags < PAGE && FreshPages(sp, op.offers, 1))
  }

  /** The translation as a map from page numbers to physical pages. */
  ghost predicate Refines(sp: Space, m: map<nat, nat>) {
    forall w :: 0 <= w < USER_LIMIT ==> Translate(sp, w) == if w / PAGE in m then Some(m[w / PAGE]) else None
  }

  function Step(sp: Space, op: Op): (s: Space)
    requires |sp.lists| == 4 && (op.Map? ==> |op.offers| == 3)
  {
    match op
    case Map(v, p, flags, offers) => Transform(sp, v, p, flags, offers).0
    case Unmap(v) => Untransform(sp, v).0
  }

  function FlatStep(sp: Space, m: map<nat, nat>, op: Op): (r: map<nat, nat>)
    requires |sp.lists| == 4 && (op.Map? ==> |op.offers| == 3)
  {
    match op
    case Map(v, p, flags, offers) => if Transform(sp, v, p, flags, offers).1 then m[v / PAGE := p] else m
    case Unmap(v) => m - {v / PAGE}
  }

  ghost predicate Run(states: seq<Space>, flats: seq<map<nat, nat>>, ops: seq<Op>) {
    && |states| == |flats| == |ops| + 1
    && forall i :: 0 <= i < |ops| ==>
         && |states[i].lists| == 4 && Allowed(states[i], ops[i])
         && states[i + 1] == Step(states[i], ops[i]) && flats[i + 1] == FlatStep(states[i], flats[i], ops[i])
  }

  lemma StepRefines(sp: Space, m: map<nat, nat>, op: Op)
    requires Good(sp) && Refines(sp, m) && |sp.lists| == 4 && Allowed(sp, op)
    ensures Good(Step(sp, op)) && Refines(Step(sp, op), FlatStep(sp, m, op))
  {
    hide Tree, Transform, Untransform, Translate, IsPage, NoEmpty;
    match op
    case Map(v, p, flags, offers) =>
      TransformMaps(sp, v, p, flags, offers);
      TransformFailureRestores(sp, v, p, flags, offers);
    case Unmap(v) =>
      UntransformUnmaps(sp, v);
  }

  /** In every run the tables stay a tree without empty tables and translate as the flat map does. */
  lemma {:induction false} RunRefines(states: seq<Space>, flats: seq<map<nat, nat>>, ops: seq<Op>, n: nat)
    requires Run(states, flats, ops) && Good(states[0]) && Refines(states[0], flats[0]) && n < |states|
    ensures Good(states[n]) && Refines(states[n], flats[n])
  {
    hide Good, Refines, Step, FlatStep;
    if n > 0 {
      RunRefines(states, flats, ops, n - 1);
      var i := n - 1;
      assert states[i + 1] == Step(states[i], ops[i]);
      StepRefines(states[i], flats[i], ops[i]);
    }
  }
}
