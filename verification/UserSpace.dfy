/** The user address space object of kernel/krlvadrsmem.c together with its box manager. Lists are
    sequences, front first; objects are named by numbers. */
module UserSpace {
  import opened Bits
  import opened Lists
  import opened Options
  import opened Regions
  import opened Boxes
  import opened Vma

  /** The cached region is listed and the end pointer is the last region. */
  ghost predicate Pointers(rs: seq<Region>, curr: Option<nat>, last: Option<nat>) {
    && (curr.Some? ==> Listed(rs, curr.value))
    && last == if rs == [] then None else Some(rs[|rs| - 1].id)
  }

  /** Boxes in use are counted, cached ones are empty, and each list has its counter. */
  ghost predicate Managed(boxes: map<nat, Box>, used: seq<nat>, cache: seq<nat>, usedNr: int, cacheNr: int) {
    && NoDup(used) && NoDup(cache)
    && (forall b :: b in boxes <==> b in used || b in cache)
    && (forall b :: b in used ==> b in boxes && boxes[b].refs >= 1)
    && (forall b :: b in cache ==> b in boxes && boxes[b] == EMPTY_BOX)
    && usedNr == |used| && cacheNr == |cache| <= CACHE_MAX
  }

  /** Every frame ever taken is mapped now or was given back. */
  ghost predicate Conserved(pt: map<nat, nat>, taken: multiset<nat>, released: seq<nat>) {
    taken == multiset(released) + multiset(pt.Values)
  }

  /** The place of the region with identity id in the list, |rs| without one. */
  function Spot(rs: seq<Region>, id: Option<nat>): (i: nat)
    ensures i <= |rs| && (i < |rs| ==> Some(rs[i].id) == id)
  {
    if rs == [] || Some(rs[0].id) == id then 0 else 1 + Spot(rs[1..], id)
  }

  /** Taking a box (off the cache or new) and giving it the first reference. */
  lemma ManagedGet(boxes: map<nat, Box>, used: seq<nat>, cache: seq<nat>, usedNr: int, cacheNr: int, b: nat)
    requires Managed(boxes, used, cache, usedNr, cacheNr)
    requires b !in boxes || (cache != [] && b == cache[0])
    ensures var t := if b in boxes then 1 else 0;
      t <= |cache| && Managed(boxes[b := Box(1, [], 0)], [b] + used, cache[t..], usedNr + 1, cacheNr - t)
  {
    assert b in cache ==> boxes[b].refs == 0;
    var t := if b in boxes then 1 else 0;
    assert t == 1 ==> cache == [b] + cache[1..];
  }

  /** Taking the last reference off an empty box and filing it in the cache, or dropping it when full. */
  lemma ManagedPut(boxes: map<nat, Box>, used: seq<nat>, cache: seq<nat>, usedNr: int, cacheNr: int, i: nat)
    requires Managed(boxes, used, cache, usedNr, cacheNr) && i < |used| && used[i] in boxes
      && boxes[used[i]] == Box(1, [], 0)
    ensures cacheNr < CACHE_MAX ==>
      Managed(boxes[used[i] := EMPTY_BOX], Without(used, i), [used[i]] + cache, usedNr - 1, cacheNr + 1)
    ensures Managed(boxes - {used[i]}, Without(used, i), cache, usedNr - 1, cacheNr)
  {
    WithoutMembers(used, i);
    assert used[i] !in cache;
  }

  lemma ManagedHas(boxes: map<nat, Box>, used: seq<nat>, cache: seq<nat>, usedNr: int, cacheNr: int, b: nat)
    requires Managed(boxes, used, cache, usedNr, cacheNr)
    ensures cacheNr == |cache| && (b in boxes && boxes[b].refs >= 1 ==> b in used)
    ensures cache != [] ==> cache[0] in boxes && boxes[cache[0]] == EMPTY_BOX
  {
  }

  /** A box in use may change as long as it stays referenced. */
  lemma ManagedUpdate(boxes: map<nat, Box>, used: seq<nat>, cache: seq<nat>, usedNr: int, cacheNr: int, b: nat, x: Box)
    requires Managed(boxes, used, cache, usedNr, cacheNr) && b in boxes && boxes[b].refs >= 1 && x.refs >= 1
    ensures Managed(boxes[b := x], used, cache, usedNr, cacheNr)
  {
  }

  // ---------------------------------------------------------------- giving a region its box

  lemma {:induction false} CountNone(rs: seq<Region>, b: nat)
    requires forall i :: 0 <= i < |rs| ==> rs[i].box != Some(b)
    ensures CountOf(rs, b) == 0
  {
    if rs != [] {
      CountNone(rs[1..], b);
    }
  }

  /** A region without box has no mapped pages, so it may take a box that nobody points at. */
  lemma AttachKeeps(rs: seq<Region>, i: nat, b: nat, pt: map<nat, nat>, boxes: map<nat, Box>, home: map<nat, nat>)
    requires i < |rs| && rs[i].box == None && Located(rs, pt, home) && Referenced(rs, boxes)
    requires b in boxes ==> boxes[b].refs == 0
    ensures var rs' := Splice(rs, i, i + 1, [rs[i].(box := Some(b))]);
      Located(rs', pt, home) && Referenced(rs', boxes[b := Box(1, [], 0)])
  {
    var n := rs[i].(box := Some(b));
    LocatedSplice(rs, i, i + 1, [n], pt, home);
    if b !in boxes {
      CountNone(rs, b);
    }
    forall c | c in boxes || c == b
      ensures CountOf(Splice(rs, i, i + 1, [n]), c) == if c == b then 1 else boxes[c].refs
    {
      hide Located, HasBox;
      CountReplace(rs, i, n, c);
    }
  }

  lemma AttachShape(rs: seq<Region>, i: nat, b: nat, limit: nat)
    requires i < |rs| && Sorted(rs) && Aligned(rs, limit)
    ensures var rs' := Splice(rs, i, i + 1, [rs[i].(box := Some(b))]);
      && Sorted(rs') && Aligned(rs', limit) && rs' == rs[i := rs[i].(box := Some(b))]
      && forall x: nat :: Covered(rs', x) <==> Covered(rs, x)
  {
    var n := rs[i].(box := Some(b));
    var rs' := Splice(rs, i, i + 1, [n]);
    assert rs' == rs[i := n];
    forall x: nat ensures Covered(rs', x) <==> Covered(rs, x) {
      SpliceCovers(rs, i, i + 1, [n], x);
      assert rs[i..i + 1] == [rs[i]];
      OneCovers(n, x);
      OneCovers(rs[i], x);
    }
  }

  lemma AttachPointers(rs: seq<Region>, i: nat, n: Region, curr: Option<nat>, last: Option<nat>)
    requires i < |rs| && Pointers(rs, curr, last) && n.id == rs[i].id
    ensures Pointers(rs[i := n], curr, last)
  {
    if curr.Some? {
      var j :| 0 <= j < |rs| && rs[j].id == curr.value;
      assert rs[i := n][j].id == curr.value;
    }
  }

  lemma PointsAtCounted(rs: seq<Region>, boxes: map<nat, Box>, i: nat)
    requires Referenced(rs, boxes) && i < |rs| && rs[i].box.Some?
    ensures rs[i].box.value in boxes && boxes[rs[i].box.value].refs >= 1
  {
    CountPositive(rs, i, rs[i].box.value);
  }

  // ---------------------------------------------------------------- mapping and unmapping a page

  /** The page of an address in a region starts in that region. */
  lemma FloorInside(rs: seq<Region>, limit: nat, i: nat, x: nat)
    requires Aligned(rs, limit) && i < |rs| && Inside(rs[i], x)
    ensures Inside(rs[i], x / PAGE * PAGE)
  {
  }

  lemma LocatedAdd(rs: seq<Region>, pt: map<nat, nat>, home: map<nat, nat>, i: nat, q: nat, f: nat, b: nat)
    requires Located(rs, pt, home) && i < |rs| && Inside(rs[i], q * PAGE) && rs[i].box == Some(b)
    ensures Located(rs, pt[q := f], home[q := b])
  {
    var home' := home[q := b];
    forall p | p in home' ensures HasBox(rs, p, home'[p]) {
      if p != q {
        assert HasBox(rs, p, home[p]);
      }
    }
  }

  /** Changing the pages of a box leaves its references. */
  lemma ReferencedUpdate(rs: seq<Region>, boxes: map<nat, Box>, b: nat, x: Box)
    requires Referenced(rs, boxes) && b in boxes && x.refs == boxes[b].refs
    ensures Referenced(rs, boxes[b := x])
  {
  }

  lemma ConservedMap(pt: map<nat, nat>, taken: multiset<nat>, released: seq<nat>, q: nat, f: nat)
    requires Conserved(pt, taken, released) && q !in pt && f !in pt.Values
    ensures Conserved(pt[q := f], taken + multiset{f}, released)
  {
    var pt' := pt[q := f];
    forall g | g in pt.Values + {f} ensures g in pt'.Values {
      if g == f {
        assert pt'[q] == f;
      } else {
        var p :| p in pt && pt[p] == g;
        assert pt'[p] == g;
      }
    }
    assert pt'.Values == pt.Values + {f};
  }

  /** Frame f is on the list of a box and mapped nowhere. */
  ghost predicate Stranded(pt: map<nat, nat>, boxes: map<nat, Box>, f: nat) {
    f !in pt.Values && exists b :: b in boxes && f in boxes[b].pages
  }

  lemma NotKept(pt: map<nat, nat>, boxes: map<nat, Box>, home: map<nat, nat>, place: map<nat, nat>, q: nat, f: nat,
                b: nat)
    requires Ledger(pt, boxes, home, place) && q in pt && f !in pt.Values && b in boxes
    ensures var pt', boxes' := pt[q := f], PutIn(boxes, b, f);
      Stranded(pt', boxes', pt[q]) && !Ledger(pt', boxes', home[q := b], place[f := q])
  {
    hide Ledger;
    Overmapped(pt, boxes, home, place, q, f, b);
  }

  lemma ConservedBack(pt: map<nat, nat>, taken: multiset<nat>, released: seq<nat>, f: nat)
    requires Conserved(pt, taken, released)
    ensures Conserved(pt, taken + multiset{f}, released + [f])
  {
  }

  lemma ConservedDrop(pt: map<nat, nat>, taken: multiset<nat>, released: seq<nat>, q: nat)
    requires Conserved(pt, taken, released) && q in pt && (pt - {q}).Values == pt.Values - {pt[q]}
    ensures Conserved(pt - {q}, taken, released + [pt[q]])
  {
    var f := pt[q];
    assert f in pt.Values;
    assert multiset(pt.Values) == multiset(pt.Values - {f}) + multiset{f};
  }

  // ---------------------------------------------------------------- cutting a range out

  lemma UsedStays(boxes: map<nat, Box>, boxes': map<nat, Box>, used: seq<nat>, cache: seq<nat>, usedNr: int,
                  cacheNr: int)
    requires Managed(boxes, used, cache, usedNr, cacheNr) && boxes'.Keys == boxes.Keys
    requires forall b :: b in boxes ==>
      boxes'[b].refs >= boxes[b].refs && (boxes[b].refs == 0 ==> boxes'[b] == boxes[b])
    ensures Managed(boxes', used, cache, usedNr, cacheNr)
  {
  }

  /** The tests of vma_del_find_kmvarsdsc on region i; e lies below s when the end of the range wrapped. */
  ghost predicate Holds(rs: seq<Region>, i: nat, s: nat, e: nat) {
    i < |rs| && rs[i].start <= s && e <= rs[i].end && (s < e ==> (e - s) % PAGE == 0)
  }

  function AroundCached(rs: seq<Region>, cached: nat, s: nat, e: nat): (i: nat)
    requires cached <= |rs|
    ensures i <= |rs| && (i < |rs| ==> rs[i].start <= s && e <= rs[i].end)
  {
    if cached < |rs| && rs[cached].start <= s && e <= rs[cached].end then cached else Around(rs, s, e)
  }

  /** The cache does not matter unless the end of the range wrapped. */
  lemma CacheIsPlain(rs: seq<Region>, cached: nat, s: nat, e: nat)
    requires Sorted(rs) && cached <= |rs| && s < e
    ensures AroundCached(rs, cached, s, e) == Around(rs, s, e)
  {
    if cached < |rs| {
      ScanIsUnique(rs, cached);
    }
  }

  /** How often the loop of vma_del_unmapping_phyadrs turns. */
  function Turns(s: nat, e: nat): (n: nat) { if s < e then (e - s + PAGE - 1) / PAGE else 0 }

  lemma NoTurns(s: nat, e: nat)
    ensures s >= e ==> Turns(s, e) == 0
  {
  }

  /** Turn k is at page k behind the first, and the last one reaches the end. */
  lemma TurnStep(s: nat, e: nat, k: nat)
    requires s + k * PAGE < e
    ensures k < Turns(s, e) && (s + k * PAGE) / PAGE == s / PAGE + k
    ensures s + (k + 1) * PAGE >= e ==> k + 1 == Turns(s, e)
  {
  }

  /** Pages outside [s, e) stay located when it is cut out and unmapped. */
  lemma CutOutLocated(rs: seq<Region>, i: nat, s: nat, e: nat, id: nat, pt: map<nat, nat>, home: map<nat, nat>)
    requires Holds(rs, i, s, e) && s < e && s % PAGE == 0 && e % PAGE == 0 && Located(rs, pt, home)
    ensures Located(CutAt(rs, i, s, e, id), Outside(pt, s / PAGE, Turns(s, e)), Outside(home, s / PAGE, Turns(s, e)))
  {
    hide Located;
    var n := Turns(s, e);
    LocatedOutside(rs, pt, home, s / PAGE, n);
    CutLocated(rs, i, s, e, id, Outside(pt, s / PAGE, n), Outside(home, s / PAGE, n));
  }

  /** Every address still covered lies in a region with limits, kind and box as before. */
  ghost predicate KeepsSorts(rs: seq<Region>, r: seq<Region>) {
    forall y: nat :: Covered(r, y) ==> At(r, y) < |r| && At(rs, y) < |rs| && SameSort(r[At(r, y)], rs[At(rs, y)])
  }

  lemma CutSorts(rs: seq<Region>, i: nat, s: nat, e: nat, id: nat)
    requires Sorted(rs) && Holds(rs, i, s, e) && s < e
    ensures KeepsSorts(rs, CutAt(rs, i, s, e, id))
  {
    hide Sorted, Covered, CutAt;
    var r := CutAt(rs, i, s, e, id);
    forall y: nat | Covered(r, y) ensures At(r, y) < |r| && At(rs, y) < |rs| && SameSort(r[At(r, y)], rs[At(rs, y)]) {
      CutSame(rs, i, s, e, id, y);
    }
  }

  /** Every page mapped inside region i is in the box of region i. */
  lemma InsideHome(rs: seq<Region>, i: nat, pt: map<nat, nat>, home: map<nat, nat>, p: nat)
    requires Sorted(rs) && Located(rs, pt, home) && i < |rs| && p in pt && Inside(rs[i], p * PAGE)
    ensures p in home && rs[i].box == Some(home[p])
  {
    var j :| 0 <= j < |rs| && Inside(rs[j], p * PAGE) && rs[j].box == Some(home[p]);
    ScanIsUnique(rs, i);
    ScanIsUnique(rs, j);
  }

  lemma CutReferenced(rs: seq<Region>, i: nat, s: nat, e: nat, id: nat, boxes: map<nat, Box>, boxes': map<nat, Box>)
    requires Holds(rs, i, s, e) && Referenced(rs, boxes)
    requires boxes'.Keys <= boxes.Keys
    requires forall b :: b in boxes' ==>
      boxes'[b].refs == boxes[b].refs + if rs[i].box == Some(b) then |Remains(rs[i], s, e, id)| - 1 else 0
    requires forall b :: b in boxes && b !in boxes' ==>
      rs[i].box == Some(b) && boxes[b].refs == 1 && Remains(rs[i], s, e, id) == []
    ensures Referenced(CutAt(rs, i, s, e, id), boxes')
  {
    var rs' := CutAt(rs, i, s, e, id);
    forall b: nat
      ensures CountOf(rs', b) == CountOf(rs, b) + if rs[i].box == Some(b) then |Remains(rs[i], s, e, id)| - 1 else 0
    {
      CountCut(rs, i, s, e, id, b);
    }
    forall j | 0 <= j < |rs'| && rs'[j].box.Some? ensures rs'[j].box.value in boxes' {
      var b := rs'[j].box.value;
      CountPositive(rs', j, b);
      if b !in boxes {
        CountNone(rs, b);
        assert false;
      }
    }
  }

  /** The pieces of a region without whole pages are aligned exactly when the cut starts at a page. */
  lemma CutAlignedIff(rs: seq<Region>, i: nat, s: nat, e: nat, id: nat, limit: nat)
    requires Aligned(rs, limit) && Holds(rs, i, s, e) && s < e
    ensures Aligned(CutAt(rs, i, s, e, id), limit) <==> s % PAGE == 0
  {
    var l := Remains(rs[i], s, e, id);
    assert e % PAGE == s % PAGE;
    if s % PAGE == 0 {
      SpliceAligned(rs, i, i + 1, l, limit);
    } else {
      assert l != [] && CutAt(rs, i, s, e, id)[i] == l[0];
      assert |l| == 2 ==> CutAt(rs, i, s, e, id)[i + 1] == l[1];
    }
  }

  /** After cutting and unmapping whole pages every mapped page lies in a region, except for the last page of
      an unaligned range: it is cut out and stays mapped. */
  lemma CutMappedIff(rs: seq<Region>, i: nat, s: nat, e: nat, id: nat, pt: map<nat, nat>, home: map<nat, nat>)
    requires Sorted(rs) && Holds(rs, i, s, e) && s < e && Located(rs, pt, home)
    requires rs[i].start < s && e < rs[i].end ==> !Listed(rs, id)
    ensures var q, n := s / PAGE, Turns(s, e);
      (forall p :: p in Outside(pt, q, n) ==> Covered(CutAt(rs, i, s, e, id), p * PAGE))
      <==> s % PAGE == 0 || q + n !in pt
  {
    hide Sorted, Covered, CutAt;
    var q, n := s / PAGE, Turns(s, e);
    CutCovers(rs, i, s, e, id);
    forall p | p in pt ensures Covered(rs, p * PAGE) {
      LocatedCovered(rs, pt, home, p);
    }
    assert s % PAGE != 0 ==> s <= (q + n) * PAGE < e;
    assert q + n in pt ==> q + n in Outside(pt, q, n);
    forall p | p in Outside(pt, q, n) && (s % PAGE == 0 || p != q + n) ensures !(s <= p * PAGE < e) {}
  }

  lemma LocatedCovered(rs: seq<Region>, pt: map<nat, nat>, home: map<nat, nat>, p: nat)
    requires Located(rs, pt, home) && p in pt
    ensures Covered(rs, p * PAGE)
  {
    assert HasBox(rs, p, home[p]);
  }

  lemma DropPointers(rs: seq<Region>, i: nat, was: Option<nat>, end: Option<nat>, curr: Option<nat>, last: Option<nat>)
    requires i < |rs| && Pointers(rs, was, end)
    requires curr == if i + 1 < |rs| then Some(rs[i + 1].id) else if i > 0 then Some(rs[i - 1].id) else None
    requires last == if i + 1 < |rs| then end else curr
    ensures Pointers(Splice(rs, i, i + 1, []), curr, last)
  {
    var rs' := Splice(rs, i, i + 1, []);
    assert i + 1 < |rs| ==> rs'[i] == rs[i + 1];
    assert i + 1 == |rs| && i > 0 ==> rs'[i - 1] == rs[i - 1];
  }

  lemma SplitPointers(rs: seq<Region>, i: nat, a: Region, b: Region, was: Option<nat>, end: Option<nat>)
    requires i < |rs| && Pointers(rs, was, end)
    ensures Pointers(Splice(rs, i, i + 1, [a, b]), Some(b.id), if i + 1 == |rs| then Some(b.id) else end)
  {
    var rs' := Splice(rs, i, i + 1, [a, b]);
    assert rs'[i + 1] == b;
    assert i + 1 < |rs| ==> rs'[|rs'| - 1] == rs[|rs| - 1];
  }

  /** The three ways to write a cut list: one region less, one trimmed, or one split in two. */
  lemma CutIs(rs: seq<Region>, i: nat, s: nat, e: nat, id: nat)
    requires Holds(rs, i, s, e)
    ensures var r, c := rs[i], CutAt(rs, i, s, e, id);
      if r.start == s && e == r.end then c == Splice(rs, i, i + 1, [])
      else if r.start == s then c == rs[i := r.(start := e)]
      else if e == r.end then c == rs[i := r.(end := s)]
      else var b := r.(id := id, start := e);
        c == Splice(rs, i, i + 1, [r.(end := s), b]) && c == InsertAfter(rs[i := r.(end := s)], i, b) && |c| == |rs| + 1
  {
    var r, b := rs[i], rs[i].(id := id, start := e);
    assert Splice(rs, i, i + 1, [r.(end := s), b]) == InsertAfter(rs[i := r.(end := s)], i, b);
    assert Splice(rs, i, i + 1, [r.(end := s)]) == rs[i := r.(end := s)];
    assert Splice(rs, i, i + 1, [r.(start := e)]) == rs[i := r.(start := e)];
  }

  /** A list with whole pages cut out stays in order. */
  lemma CutShape(rs: seq<Region>, i: nat, s: nat, e: nat, id: nat, limit: nat)
    requires Sorted(rs) && Aligned(rs, limit) && Holds(rs, i, s, e) && s < e
    requires rs[i].start < s && e < rs[i].end ==> !Listed(rs, id)
    ensures Sorted(CutAt(rs, i, s, e, id))
    ensures Aligned(CutAt(rs, i, s, e, id), limit) <==> s % PAGE == 0
  {
    hide Sorted, Aligned;
    CutCovers(rs, i, s, e, id);
    CutAlignedIff(rs, i, s, e, id, limit);
  }

  /** Without its region a box with one reference has no page left. */
  lemma LastPage(rs: seq<Region>, i: nat, s: nat, e: nat, id: nat, pt: map<nat, nat>, boxes: map<nat, Box>,
                 home: map<nat, nat>, place: map<nat, nat>)
    requires Holds(rs, i, s, e) && rs[i].start == s && e == rs[i].end
    requires rs[i].box.Some? && rs[i].box.value in boxes && Referenced(rs, boxes)
    requires Ledger(pt, boxes, home, place) && Located(CutAt(rs, i, s, e, id), pt, home)
    ensures boxes[rs[i].box.value].refs == 1 ==> boxes[rs[i].box.value] == Box(1, [], 0)
  {
    hide Ledger, Located;
    var b := rs[i].box.value;
    CountCut(rs, i, s, e, id, b);
    if boxes[b].refs == 1 {
      UnreferencedIsEmpty(CutAt(rs, i, s, e, id), pt, boxes, home, place, b);
      ListOf(pt, boxes, home, place, b);
    }
  }

  lemma RangeHome(rs: seq<Region>, limit: nat, i: nat, s: nat, e: nat, pt: map<nat, nat>, home: map<nat, nat>)
    requires Sorted(rs) && Aligned(rs, limit) && Located(rs, pt, home) && Holds(rs, i, s, e)
    ensures forall p :: s / PAGE <= p < s / PAGE + Turns(s, e) && p in pt ==> p in home && rs[i].box == Some(home[p])
  {
    hide Sorted, Located;
    forall p | s / PAGE <= p < s / PAGE + Turns(s, e) && p in pt ensures p in home && rs[i].box == Some(home[p]) {
      assert rs[i].start % PAGE == 0;
      InsideHome(rs, i, pt, home, p);
    }
  }

  /** The page behind the last one unmapped, 0x2000, lies in the range cut out of the first code pages and stays
      mapped. */
  lemma UnalignedStrands(id: nat, box: Option<nat>, above: seq<Region>, n: nat, pt: map<nat, nat>)
    requires 2 in pt && forall i :: 0 <= i < |above| ==> above[i].start >= 0x5000
    ensures var rs := [Region(id, 0x1000, 0x5000, 0, 0, box)] + above;
      && Turns(0x1800, 0x2800) == 1 && 2 in Outside(pt, 0x1800 / PAGE, 1)
      && !Covered(CutAt(rs, 0, 0x1800, 0x2800, n), 2 * PAGE)
  {
    var rs := [Region(id, 0x1000, 0x5000, 0, 0, box)] + above;
    var r := CutAt(rs, 0, 0x1800, 0x2800, n);
    assert rs[1..] == above;
    assert r == [Region(id, 0x1000, 0x1800, 0, 0, box), Region(n, 0x2800, 0x5000, 0, 0, box)] + above;
  }

  lemma SameRefs(rs: seq<Region>, boxes: map<nat, Box>, boxes': map<nat, Box>)
    requires Referenced(rs, boxes) && boxes'.Keys == boxes.Keys && forall b :: b in boxes ==>
      boxes'[b].refs == boxes[b].refs
    ensures Referenced(rs, boxes')
  {
  }

  function FirstRegions(a: nat, h: nat, s: nat): (rs: seq<Region>) {
    [Region(a, 0x1000, 0x5000, 0, 0, None), Region(h, HEAP_START, HEAP_START + PAGE, 0, HEAP_TYPE, None),
     Region(s, STACK_START, USER_END, 0, STACK_TYPE, None)]
  }

  lemma FirstOk(a: nat, h: nat, s: nat)
    requires a != h && h != s && a != s
    ensures var rs := FirstRegions(a, h, s);
      && Sorted(rs) && Aligned(rs, USER_END) && Pointers(rs, None, Some(s))
      && |rs| == 3 && (forall i :: 0 <= i < 3 ==> rs[i].limits == 0 && rs[i].box == None)
      && rs[0].id == a && rs[0].start == 0x1000 && rs[0].kind == 0
      && rs[1].id == h && rs[1].start == HEAP_START && rs[1].kind == HEAP_TYPE
      && rs[2].id == s && rs[2].start == STACK_START && rs[2].kind == STACK_TYPE
      && forall x: nat :: Covered(rs, x) <==>
           0x1000 <= x < 0x5000 || HEAP_START <= x < HEAP_START + PAGE || STACK_START <= x < USER_END
  {
    var rs := FirstRegions(a, h, s);
    forall x: nat
      ensures Covered(rs, x) <==>
        0x1000 <= x < 0x5000 || HEAP_START <= x < HEAP_START + PAGE || STACK_START <= x < USER_END
    {
      assert || Inside(rs[0], x) || Inside(rs[1], x) || Inside(rs[2], x)
             || forall i :: 0 <= i < |rs| ==> !Inside(rs[i], x);
    }
  }

  /** From `was` to `now` the page of x was filled: in a program region it holds the page of the file as far behind
      the file's start as x is behind the region's, and elsewhere nothing was copied. */
  ghost predicate Filled(was: map<nat, seq<bv8>>, now: map<nat, seq<bv8>>, r: Region, x: nat,
                         file: Option<nat -> bv8>)
  {
    if r.kind != BIN_TYPE then now == was
    else
      && file.Some? && r.start <= x && x / PAGE in now && now == was[x / PAGE := now[x / PAGE]]
      && |now[x / PAGE]| == PAGE
      && forall i :: 0 <= i < PAGE ==> now[x / PAGE][i] == file.value((x - r.start) / PAGE * PAGE + i)
  }

  lemma FilledBox(was: map<nat, seq<bv8>>, now: map<nat, seq<bv8>>, r: Region, b: Option<nat>, x: nat,
                  file: Option<nat -> bv8>)
    ensures Filled(was, now, r.(box := b), x, file) == Filled(was, now, r, x, file)
  {
  }

  class Space {
    const limit: nat
    var regions: seq<Region>
    var curr: Option<nat>
    var last: Option<nat>
    var boxes: map<nat, Box>
    var used: seq<nat>
    var cache: seq<nat>
    var usedNr: int
    var cacheNr: int
    var pt: map<nat, nat>
    var image: map<nat, seq<bv8>> // what was last copied into a page of a program
    var released: seq<nat>
    ghost var taken: multiset<nat>
    ghost var home: map<nat, nat>
    ghost var place: map<nat, nat>

    ghost predicate Shape()
      reads this
    {
      Sorted(regions) && Aligned(regions, limit) && Pointers(regions, curr, last) && 2 * limit < TWO64
    }

    ghost predicate Store()
      reads this
    {
      Ledger(pt, boxes, home, place) && Managed(boxes, used, cache, usedNr, cacheNr) && Conserved(pt, taken, released)
    }

    ghost predicate Valid()
      reads this
    {
      Shape() && Store() && Located(regions, pt, home) && Referenced(regions, boxes)
    }

    /** What a cut keeps wherever it starts and ends. */
    ghost predicate Kept()
      reads this
    {
      Pointers(regions, curr, last) && Store() && Referenced(regions, boxes)
    }

    /** kvma_inituserspace_virmemadrs: the first code pages, the heap and the stack. Without one of the
        three descriptors the space stays as it was initialised, without any address. */
    constructor (a: Option<nat>, h: Option<nat>, s: Option<nat>)
      requires a.Some? && h.Some? && s.Some? ==> a != h && h != s && a != s
      ensures Valid() && pt == map[] && released == []
      ensures if a.Some? && h.Some? && s.Some?
        then
          && limit == USER_END && curr == None && last == s
          && (forall x: nat :: Covered(regions, x) <==>
                0x1000 <= x < 0x5000 || HEAP_START <= x < HEAP_START + PAGE || STACK_START <= x < USER_END)
          && |regions| == 3 && (forall i :: 0 <= i < 3 ==> regions[i].limits == 0 && regions[i].box == None)
          && regions[0].id == a.value && regions[0].start == 0x1000 && regions[0].kind == 0
          && regions[1].id == h.value && regions[1].start == HEAP_START && regions[1].kind == HEAP_TYPE
          && regions[2].id == s.value && regions[2].start == STACK_START && regions[2].kind == STACK_TYPE
        else limit == 0 && regions == [] && curr == None && last == None
    {
      var ok := a.Some? && h.Some? && s.Some?;
      limit := if ok then USER_END else 0;
      regions := if ok then FirstRegions(a.value, h.value, s.value) else [];
      curr, last := None, if ok then s else None;
      boxes, used, cache, usedNr, cacheNr := map[], [], [], 0, 0;
      pt, image, released, taken, home, place := map[], map[], [], multiset{}, map[], map[];
      new;
      hide FirstRegions;
      if ok {
        FirstOk(a.value, h.value, s.value);
      }
    }

    // ---------------------------------------------------------------- lookup

    /** vma_map_find_kmvarsdsc: the cache first, then the list; the same region as the plain scan. */
    method FindAt(x: nat) returns (i: nat)
      requires Sorted(regions)
      ensures i == At(regions, x)
    {
      i := Spot(regions, curr);
      if i < |regions| && Inside(regions[i], x) {
        ScanIsUnique(regions, i);
        return;
      }
      i := 0;
      while i < |regions| && !Inside(regions[i], x)
        invariant i <= |regions|
        invariant forall j :: 0 <= j < i ==> !Inside(regions[j], x)
      {
        i := i + 1;
      }
    }

    /** vma_del_find_kmvarsdsc: the cached region when it passes the tests, else the first that does. */
    method FindAround(s: nat, size: nat) returns (i: nat)
      ensures i == if size < PAGE then |regions| else AroundCached(regions, Spot(regions, curr), s, Add64(s, size))
    {
      if size < PAGE {
        return |regions|;
      }
      var e := Add64(s, size);
      i := Spot(regions, curr);
      if i < |regions| && regions[i].start <= s && e <= regions[i].end {
        return;
      }
      i := 0;
      while i < |regions| && !(regions[i].start <= s && e <= regions[i].end)
        invariant i <= |regions|
        invariant forall j :: 0 <= j < i ==> !(regions[j].start <= s && e <= regions[j].end)
      {
        i := i + 1;
      }
    }

    method ScanFit(a: Ask, strict: bool) returns (k: nat)
      ensures k == FirstFit(regions, limit, a, strict, 0)
    {
      k := 0;
      while k < |regions| && !Suits(regions, limit, a, strict, k)
        invariant k <= |regions|
        invariant forall j :: 0 <= j < k ==> !Suits(regions, limit, a, strict, j)
      {
        k := k + 1;
      }
    }

    /** vma_find_kmvarsdsc. */
    method FindPlace(a: Ask) returns (k: nat)
      ensures k == Pick(regions, limit, Spot(regions, curr), a)
    {
      if a.size < PAGE || Add64(a.start, a.size) > limit {
        return |regions|;
      }
      k := Spot(regions, curr);
      if k < |regions| && Suits(regions, limit, a, true, k) {
        return;
      }
      k := ScanFit(a, true);
      if k == |regions| {
        k := ScanFit(a, false);
      }
    }

    // ---------------------------------------------------------------- reserving addresses

    /** The region behind which vma_find_kmvarsdsc puts the range, |regions| when nowhere. */
    ghost function Chosen(a: Ask): (k: nat)
      reads this
      ensures k <= |regions|
    {
      PickFailsIff(regions, limit, Spot(regions, curr), a);
      Pick(regions, limit, Spot(regions, curr), a)
    }

    /** vma_new_vadrs on 64-bit numbers. On success exactly [ret, ret + rounded size) is added, and nothing
        covered it, if and only if the end of the request does not wrap. */
    method Reserve(start: nat, size: nat, limits: nat, kind: nat, offer: Option<nat>) returns (ret: nat)
      requires Valid() && (offer.Some? ==> !Listed(regions, offer.value)) && start < TWO64 && size < TWO64
      modifies this`regions, this`curr, this`last
      ensures ret == 0 ==> unchanged(this)
      ensures ret == 0 <==>
        || size < 1 || (start != 0 && (start % PAGE != 0 || start < PAGE || USER_END < Add64(start, size)))
        || var a := Ask(start, Round64(size), limits, kind);
           var k := old(Chosen(a)); k == |old(regions)| || (!Grows(old(regions)[k], a) && offer.None?)
      ensures ret != 0 ==> Reserved(Ask(start, Round64(size), limits, kind), offer, ret)
      ensures start + Round64(size) < TWO64 ==> Valid()
    {
      if size < 1 || (start != 0 && (start % PAGE != 0 || start < PAGE || USER_END < Add64(start, size))) {
        return 0;
      }
      ret := ReserveCore(Ask(start, Round64(size), limits, kind), offer);
    }

    /** What a successful request leaves. */
    twostate predicate Reserved(a: Ask, offer: Option<nat>, ret: nat)
      reads this
    {
      && var k := old(Chosen(a));
      && k < |old(regions)| && Fits(old(regions), limit, a, k) && ret == From(old(regions)[k], a)
      && (a.start != 0 ==> ret == a.start)
      && regions == Granted(old(regions), k, a, if offer.Some? then offer.value else 0)
      && (a.start + a.size < TWO64 <==>
            forall y: nat :: Covered(regions, y) <==> old(Covered(regions, y)) || ret <= y < ret + a.size)
      && (a.start + a.size < TWO64 ==>
            && ret % PAGE == 0 && PAGE <= a.size && ret + a.size <= limit && a.start + a.size <= limit
            && KeepsRegions(old(regions), regions, a, ret)
            && forall y: nat :: ret <= y < ret + a.size ==> !old(Covered(regions, y)))
      && var was := old(regions)[k];
      && var grown := ret == was.end && was.limits == a.limits && was.kind == a.kind;
      && curr == (if grown then Some(was.id) else offer)
      && last == if !grown && k + 1 == |old(regions)| then offer else old(last)
    }

    /** vma_new_vadrs_core. */
    method ReserveCore(a: Ask, offer: Option<nat>) returns (ret: nat)
      requires Valid() && (offer.Some? ==> !Listed(regions, offer.value)) && a.start % PAGE == 0 && a.size % PAGE == 0
      requires a.start < TWO64 && a.size < TWO64
      modifies this`regions, this`curr, this`last
      ensures ret == 0 ==> unchanged(this)
      ensures ret == 0 <==> var k := old(Chosen(a)); k == |old(regions)| || (!Grows(old(regions)[k], a) && offer.None?)
      ensures ret != 0 ==> Reserved(a, offer, ret)
      ensures a.start + a.size < TWO64 ==> Valid()
    {
      hide Sorted, Aligned, Pointers, Ledger, Managed, Conserved, Located, Referenced, Covered, Pick, Fits, Add64;
      hide Granted, KeepsRegions;
      var i := FindPlace(a);
      PickFailsIff(regions, limit, Spot(regions, curr), a);
      if i == |regions| {
        return 0;
      }
      var r := regions[i];
      if Grows(r, a) {
        ChosenOk(a, i, if offer.Some? then offer.value else 0);
        ret := Grow(i, a, if offer.Some? then offer.value else 0);
        return;
      }
      if offer.None? {
        return 0;
      }
      ChosenOk(a, i, offer.value);
      ret := Insert(i, a, offer.value);
    }

    lemma ChosenOk(a: Ask, i: nat, id: nat)
      requires Valid() && a.start % PAGE == 0 && a.size % PAGE == 0 && a.start < TWO64 && a.size < TWO64
      requires i == Chosen(a) < |regions| && (!Grows(regions[i], a) ==> !Listed(regions, id))
      ensures Fits(regions, limit, a, i) && a.size >= PAGE && Add64(a.start, a.size) <= limit && From(regions[i], a) > 0
      ensures var x, r := From(regions[i], a), Granted(regions, i, a, id);
        && (a.start + a.size < TWO64 <==>
              forall y: nat :: Covered(r, y) <==> Covered(regions, y) || x <= y < x + a.size)
        && (a.start + a.size < TWO64 ==>
              && x % PAGE == 0 && x + a.size <= limit && a.start + a.size <= limit
              && KeepsRegions(regions, r, a, x)
              && forall y: nat :: x <= y < x + a.size ==> !Covered(regions, y))
    {
      hide Sorted, Covered, Granted, Pick, Ledger, Managed, Conserved, Located, Referenced, Pointers, KeepsRegions;
      hide Aligned, Fits, Add64, Spot;
      PickFailsIff(regions, limit, Spot(regions, curr), a);
      GrantedIff(regions, limit, i, a, id);
      Nonempty(regions, i);
      if a.start + a.size < TWO64 {
        AskEnds(a, limit);
        GrantedCovers(regions, limit, i, a, id);
        GrantedSame(regions, limit, i, a, id);
      }
    }

    /** The new list keeps the invariant unless the end wrapped. */
    lemma GrantedValid(a: Ask, i: nat, id: nat)
      requires Valid() && i < |regions| && Fits(regions, limit, a, i) && a.size >= PAGE && a.size % PAGE == 0
      requires a.start % PAGE == 0 && a.start + a.size <= limit && (!Grows(regions[i], a) ==> !Listed(regions, id))
      ensures var r := Granted(regions, i, a, id);
        Sorted(r) && Aligned(r, limit) && Located(r, pt, home) && Referenced(r, boxes)
    {
      hide Sorted, Covered, Granted, Ledger, Managed, Conserved, Located, Referenced, Pointers, Add64;
      GrantedCovers(regions, limit, i, a, id);
      NoWrap(regions, limit, i, a);
      GrantedKeeps(regions, i, a, id, pt, boxes, home);
    }

    method Grow(i: nat, a: Ask, ghost id: nat) returns (ret: nat)
      requires Valid() && i < |regions| && Fits(regions, limit, a, i) && Grows(regions[i], a)
      requires a.start % PAGE == 0 && a.size % PAGE == 0 && a.size >= PAGE && Add64(a.start, a.size) <= limit
      modifies this`regions, this`curr
      ensures regions == Granted(old(regions), i, a, id) && ret == From(old(regions)[i], a)
      ensures curr == Some(old(regions)[i].id)
      ensures a.start + a.size < TWO64 ==> Valid()
    {
      hide Sorted, Aligned, Ledger, Managed, Conserved, Located, Referenced, Covered, Fits;
      var r := regions[i];
      if a.start + a.size < TWO64 {
        GrantedValid(a, i, id);
      }
      ret := r.end;
      regions := Extend(regions, i, Add64(r.end, a.size));
      curr := Some(r.id);
      assert regions[i].id == r.id;
    }

    method Insert(i: nat, a: Ask, id: nat) returns (ret: nat)
      requires Valid() && i < |regions| && Fits(regions, limit, a, i) && !Grows(regions[i], a) && !Listed(regions, id)
      requires a.start % PAGE == 0 && a.size % PAGE == 0 && a.size >= PAGE && Add64(a.start, a.size) <= limit
      modifies this`regions, this`curr, this`last
      ensures regions == Granted(old(regions), i, a, id) && ret == From(old(regions)[i], a)
      ensures curr == Some(id) && last == if i + 1 == |old(regions)| then Some(id) else old(last)
      ensures a.start + a.size < TWO64 ==> Valid()
    {
      hide Sorted, Aligned, Ledger, Managed, Conserved, Located, Referenced, Covered, Fits;
      if a.start + a.size < TWO64 {
        GrantedValid(a, i, id);
      }
      ret := From(regions[i], a);
      regions := InsertAfter(regions, i, Region(id, ret, Add64(ret, a.size), a.limits, a.kind, None));
      curr := Some(id);
      assert regions[i + 1].id == id;
      if i + 2 == |regions| {
        last := Some(id);
      }
    }

    // ---------------------------------------------------------------- boxes

    /** knl_get_kvmemcbox: an empty box with one reference, from the cache before the allocator. None stands
        for the kernel having stopped. */
    method GetBox(offer: Option<nat>) returns (b: Option<nat>)
      requires Managed(boxes, used, cache, usedNr, cacheNr) && (offer.Some? ==> offer.value !in boxes)
      modifies this`boxes, this`used, this`cache, this`usedNr, this`cacheNr
      ensures b.None? <==> old(cache) == [] && offer.None?
      ensures b.None? ==> unchanged(this)
      ensures b.Some? ==> b.value in old(boxes) ==> old(boxes)[b.value] == EMPTY_BOX
      ensures b.Some? ==> boxes == old(boxes)[b.value := Box(1, [], 0)] && Managed(boxes, used, cache, usedNr, cacheNr)
      ensures b.Some? ==> used == [b.value] + old(used) && usedNr == old(usedNr) + 1
      ensures b.Some? ==>
        if old(cache) != [] then b.value == old(cache)[0] && cache == old(cache)[1..] && cacheNr == old(cacheNr) - 1
        else b == offer && cache == [] && cacheNr == old(cacheNr)
    {
      hide Managed;
      ManagedHas(boxes, used, cache, usedNr, cacheNr, 0);
      if 0 < cacheNr && cache != [] {
        var c := cache[0];
        ManagedGet(boxes, used, cache, usedNr, cacheNr, c);
        boxes := boxes[c := Box(1, [], 0)];
        cache, cacheNr := cache[1..], cacheNr - 1;
        used, usedNr := [c] + used, usedNr + 1;
        return Some(c);
      }
      if offer.None? {
        return None;
      }
      ManagedGet(boxes, used, cache, usedNr, cacheNr, offer.value);
      boxes := boxes[offer.value := Box(1, [], 0)];
      used, usedNr := [offer.value] + used, usedNr + 1;
      return offer;
    }

    /** knl_put_kvmemcbox: the last reference files an empty box in the cache, or drops it when full. */
    method PutBox(b: Option<nat>) returns (ok: bool)
      requires Managed(boxes, used, cache, usedNr, cacheNr)
      requires b.Some? ==> b.value in boxes && boxes[b.value].refs >= 1
      requires b.Some? && boxes[b.value].refs == 1 ==> boxes[b.value] == Box(1, [], 0)
      modifies this`boxes, this`used, this`cache, this`usedNr, this`cacheNr
      ensures Managed(boxes, used, cache, usedNr, cacheNr) && ok == b.Some?
      ensures b.None? ==> unchanged(this)
      ensures b.Some? ==> var x := old(boxes)[b.value];
        if x.refs == 1 && old(cacheNr) >= CACHE_MAX then boxes == old(boxes) - {b.value}
        else boxes == old(boxes)[b.value := x.(refs := x.refs - 1)]
      ensures b.Some? ==>
        if old(boxes)[b.value].refs > 1 then
          used == old(used) && usedNr == old(usedNr) && cache == old(cache) && cacheNr == old(cacheNr)
        else
          && b.value in old(used) && usedNr == old(usedNr) - 1
          && used == Without(old(used), IndexOf(old(used), b.value))
          && cache == (if old(cacheNr) >= CACHE_MAX then old(cache) else [b.value] + old(cache))
    {
      hide Managed;
      if b.None? {
        return false;
      }
      ManagedHas(boxes, used, cache, usedNr, cacheNr, b.value);
      var x := boxes[b.value];
      if x.refs - 1 >= 1 {
        ManagedUpdate(boxes, used, cache, usedNr, cacheNr, b.value, x.(refs := x.refs - 1));
        boxes := boxes[b.value := x.(refs := x.refs - 1)];
        return true;
      }
      var i := IndexOf(used, b.value);
      ManagedPut(boxes, used, cache, usedNr, cacheNr, i);
      used, usedNr := Without(used, i), usedNr - 1;
      if cacheNr >= CACHE_MAX {
        boxes := boxes - {b.value};
        return true;
      }
      boxes := boxes[b.value := x.(refs := x.refs - 1)];
      cache, cacheNr := [b.value] + cache, cacheNr + 1;
      return true;
    }

    /** vma_new_usermsa: the frame goes to the front of the box's list. */
    method AddFrame(b: nat, f: nat)
      requires b in boxes
      modifies this`boxes, this`taken
      ensures boxes == PutIn(old(boxes), b, f)
      ensures taken == old(taken) + multiset{f}
    {
      boxes := boxes[b := boxes[b].(pages := [f] + boxes[b].pages, count := boxes[b].count + 1)];
      taken := taken + multiset{f};
    }

    /** vma_del_usermsa: the frame leaves the box's list and goes back to the page allocator. */
    method DropFrame(b: nat, f: nat) returns (ok: bool)
      requires b in boxes && f != 0
      modifies this`boxes, this`released
      ensures ok == (f in old(boxes)[b].pages)
      ensures !ok ==> unchanged(this)
      ensures ok ==> boxes == TakeOut(old(boxes), b, f) && released == old(released) + [f]
    {
      var l := boxes[b].pages;
      var i := 0;
      while i < |l| && l[i] != f
        invariant i <= |l|
        invariant forall j :: 0 <= j < i ==> l[j] != f
      {
        i := i + 1;
      }
      if i == |l| {
        return false;
      }
      boxes := boxes[b := boxes[b].(pages := Without(l, i), count := boxes[b].count - 1)];
      released := released + [f];
      return true;
    }

    // ---------------------------------------------------------------- faults

    /** vma_map_retn_kvmemcbox: the box of region i, made on the first fault, None when the kernel stopped. */
    method BoxOf(i: nat, offer: Option<nat>) returns (b: Option<nat>)
      requires Valid() && i < |regions| && (offer.Some? ==> offer.value !in boxes)
      modifies this`regions, this`boxes, this`used, this`cache, this`usedNr, this`cacheNr
      ensures Valid() && (b.None? <==> old(regions)[i].box.None? && old(cache) == [] && offer.None?)
      ensures b.None? ==> unchanged(this)
      ensures regions == old(regions)[i := old(regions)[i].(box := b)]
      ensures b.Some? ==> b.value in boxes && boxes[b.value].refs >= 1
      ensures forall x: nat :: Covered(regions, x) <==> old(Covered(regions, x))
    {
      hide Sorted, Aligned, Pointers, Ledger, Managed, Conserved, Located, Referenced, Covered;
      b := regions[i].box;
      if b.Some? {
        PointsAtCounted(regions, boxes, i);
        return;
      }
      b := GetBox(offer);
      if b.None? {
        return;
      }
      AttachShape(regions, i, b.value, limit);
      AttachKeeps(regions, i, b.value, pt, old(boxes), home);
      LedgerRefs(pt, old(boxes), boxes, home, place);
      AttachPointers(regions, i, regions[i].(box := b), curr, last);
      regions := regions[i := regions[i].(box := b)];
    }

    /** vma_map_msa_fault: the frame is mapped at the page of x, or given back when mapping fails. When the page
        was mapped already, its frame stays on the list of its box and is mapped nowhere. */
    method MapFrame(i: nat, x: nat, f: nat, maps: bool)
      requires Valid() && i < |regions| && Inside(regions[i], x) && regions[i].box.Some?
      requires f != 0 && f !in pt.Values
      modifies this`boxes, this`pt, this`home, this`place, this`taken, this`released
      ensures Valid() <==> (maps ==> x / PAGE !in old(pt))
      ensures maps ==> pt == old(pt)[x / PAGE := f] && released == old(released)
      ensures maps ==> regions[i].box.value in old(boxes) && boxes == PutIn(old(boxes), regions[i].box.value, f)
      ensures maps && x / PAGE in old(pt) ==> Stranded(pt, boxes, old(pt)[x / PAGE])
      ensures !maps ==> pt == old(pt) && released == old(released) + [f] && boxes == old(boxes)
    {
      hide Sorted, Aligned, Pointers, Ledger, Managed, Conserved, Located, Referenced, Without, Stranded;
      var b := regions[i].box.value;
      PointsAtCounted(regions, boxes, i);
      if maps {
        Enter(i, b, x, f);
        return;
      }
      ConservedBack(pt, taken, released, f);
      AddAndDrop(b, f);
    }

    /** The frame is listed and mapped. */
    method Enter(ghost i: nat, b: nat, x: nat, f: nat)
      requires Valid() && i < |regions| && Inside(regions[i], x) && regions[i].box == Some(b) && b in boxes
      requires boxes[b].refs >= 1 && f != 0 && f !in pt.Values
      modifies this`boxes, this`pt, this`home, this`place, this`taken
      ensures Valid() <==> x / PAGE !in old(pt)
      ensures pt == old(pt)[x / PAGE := f] && boxes == PutIn(old(boxes), b, f)
      ensures x / PAGE in old(pt) ==> Stranded(pt, boxes, old(pt)[x / PAGE])
    {
      hide Sorted, Aligned, Pointers, Ledger, Managed, Conserved, Located, Referenced, PutIn, Stranded, Inside;
      EnterFacts(i, b, x, f);
      AddFrame(b, f);
      pt, home, place := pt[x / PAGE := f], home[x / PAGE := b], place[f := x / PAGE];
    }

    lemma EnterFacts(i: nat, b: nat, x: nat, f: nat)
      requires Valid() && i < |regions| && Inside(regions[i], x) && regions[i].box == Some(b) && b in boxes
      requires boxes[b].refs >= 1 && f != 0 && f !in pt.Values
      ensures var q, boxes' := x / PAGE, PutIn(boxes, b, f);
        if q in pt then
          Stranded(pt[q := f], boxes', pt[q]) && !Ledger(pt[q := f], boxes', home[q := b], place[f := q])
        else
          && Ledger(pt[q := f], boxes', home[q := b], place[f := q]) && Managed(boxes', used, cache, usedNr, cacheNr)
          && Located(regions, pt[q := f], home[q := b]) && Referenced(regions, boxes')
          && Conserved(pt[q := f], taken + multiset{f}, released)
    {
      hide Sorted, Aligned, Pointers, Ledger, Managed, Conserved, Located, Referenced, PutIn, Stranded, Inside;
      if x / PAGE in pt {
        NotKept(pt, boxes, home, place, x / PAGE, f, b);
      } else {
        ConservedMap(pt, taken, released, x / PAGE, f);
        MapLedger(i, b, x, f);
      }
    }

    /** A frame listed and taken off again when it cannot be mapped. */
    method AddAndDrop(b: nat, f: nat)
      requires b in boxes && f != 0
      modifies this`boxes, this`taken, this`released
      ensures boxes == old(boxes) && taken == old(taken) + multiset{f} && released == old(released) + [f]
    {
      AddFrame(b, f);
      FrontGone(f, old(boxes)[b].pages);
      var ok := DropFrame(b, f);
      assert boxes == old(boxes);
    }

    lemma MapLedger(i: nat, b: nat, x: nat, f: nat)
      requires Valid() && i < |regions| && Inside(regions[i], x) && regions[i].box == Some(b) && b in boxes
        && boxes[b].refs >= 1
      requires x / PAGE !in pt && f != 0 && f !in pt.Values
      ensures var q, boxes' := x / PAGE, PutIn(boxes, b, f);
        && Ledger(pt[q := f], boxes', home[q := b], place[f := q]) && Managed(boxes', used, cache, usedNr, cacheNr)
        && Located(regions, pt[q := f], home[q := b]) && Referenced(regions, boxes')
    {
      hide Sorted, Aligned, Pointers, Ledger, Managed, Conserved, Located, Referenced;
      FloorInside(regions, limit, i, x);
      var y := boxes[b].(pages := [f] + boxes[b].pages, count := boxes[b].count + 1);
      LedgerAdd(pt, boxes, home, place, x / PAGE, f, b);
      ManagedUpdate(boxes, used, cache, usedNr, cacheNr, b, y);
      LocatedAdd(regions, pt, home, i, x / PAGE, f, b);
      ReferencedUpdate(regions, boxes, b, y);
    }

    /** vma_full_textbin: a page of a program region gets the page of the image file as far behind the
        file's start as the address is behind the region's start; `file` is the memory from the file's first
        byte on. Without the file the kernel stops. */
    method FillText(r: Region, x: nat, file: Option<nat -> bv8>) returns (ok: bool)
      requires Inside(r, x)
      modifies this`image
      ensures ok <==> r.kind == BIN_TYPE ==> file.Some?
      ensures ok ==> Filled(old(image), image, r, x, file)
      ensures !ok ==> image == old(image)
    {
      if r.kind != BIN_TYPE {
        return true;
      }
      if file.None? {
        return false;
      }
      var at := (x - r.start) / PAGE * PAGE;
      image := image[x / PAGE := seq(PAGE, i requires 0 <= i < PAGE => file.value(at + i))];
      return true;
    }

    /** vma_map_fairvadrs: a fault in a region maps a fresh frame at its page and fills it from the program image,
        if there is one. */
    method Fault(x: nat, offer: Option<nat>, frame: Option<nat>, maps: bool, file: Option<nat -> bv8>) returns (c: Code)
      requires Valid() && (offer.Some? ==> offer.value !in boxes)
      requires frame.Some? ==> frame.value != 0 && frame.value !in pt.Values
      modifies this
      ensures curr == old(curr) && last == old(last)
      ensures x / PAGE !in old(pt) || (c != Done && c != Stopped) ==> Valid()
      ensures c == Done ==> (Valid() <==> x / PAGE !in old(pt))
      ensures c == Done && x / PAGE in old(pt) ==> Stranded(pt, boxes, old(pt)[x / PAGE])
      ensures forall y: nat :: Covered(regions, y) <==> old(Covered(regions, y))
      ensures c == var i := At(old(regions), x);
        if x < PAGE || USER_END < x then BadParameter
        else if i == |old(regions)| then BadAddress
        else if old(regions)[i].box.None? && old(cache) == [] && offer.None? then Stopped
        else if frame.None? || !maps then NoMemory
        else if old(regions)[i].kind == BIN_TYPE && file.None? then Stopped else Done
      ensures c != Stopped ==> pt == if c == Done then old(pt)[x / PAGE := frame.value] else old(pt)
      ensures c != Stopped ==>
        released == if c == NoMemory && frame.Some? then old(released) + [frame.value] else old(released)
      ensures c == Done ==> Filled(old(image), image, old(regions)[At(old(regions), x)], x, file)
    {
      hide Sorted, Aligned, Pointers, Ledger, Managed, Conserved, Located, Referenced, Covered;
      hide Filled, Stranded;
      if x < PAGE || USER_END < x {
        return BadParameter;
      }
      var i := FindAt(x);
      if i == |regions| {
        return BadAddress;
      }
      var b := BoxOf(i, offer);
      if b.None? {
        return Stopped;
      }
      c := FillPage(i, x, frame, maps, file);
      FilledBox(old(image), image, old(regions)[i], b, x, file);
    }

    /** The part of vma_map_fairvadrs_core behind the box. */
    method FillPage(i: nat, x: nat, frame: Option<nat>, maps: bool, file: Option<nat -> bv8>) returns (c: Code)
      requires Valid() && i < |regions| && Inside(regions[i], x) && regions[i].box.Some?
      requires frame.Some? ==> frame.value != 0 && frame.value !in pt.Values
      modifies this`boxes, this`pt, this`home, this`place, this`taken, this`released, this`image
      ensures x / PAGE !in old(pt) || (c != Done && c != Stopped) ==> Valid()
      ensures c == Done ==> (Valid() <==> x / PAGE !in old(pt))
      ensures c == Done && x / PAGE in old(pt) ==> Stranded(pt, boxes, old(pt)[x / PAGE])
      ensures c == if frame.None? || !maps then NoMemory
        else if regions[i].kind == BIN_TYPE && file.None? then Stopped else Done
      ensures pt == if frame.Some? && maps then old(pt)[x / PAGE := frame.value] else old(pt)
      ensures c != Stopped ==>
        released == if c == NoMemory && frame.Some? then old(released) + [frame.value] else old(released)
      ensures c == Done ==> Filled(old(image), image, regions[i], x, file)
      ensures c != Done ==> image == old(image)
    {
      hide Sorted, Aligned, Pointers, Ledger, Managed, Conserved, Located, Referenced, Filled, Stranded;
      if frame.None? {
        return NoMemory;
      }
      MapFrame(i, x, frame.value, maps);
      if !maps {
        return NoMemory;
      }
      var ok := FillText(regions[i], x, file);
      return if ok then Done else Stopped;
    }

    // ---------------------------------------------------------------- giving addresses back

    /** One turn of the loop in vma_del_unmapping_phyadrs. */
    method UnmapPage(b: Option<nat>, p: nat)
      requires Ledger(pt, boxes, home, place) && Conserved(pt, taken, released)
        && (p in pt ==> p in home && b == Some(home[p]))
      modifies this`boxes, this`pt, this`home, this`released
      ensures Ledger(pt, boxes, home, place) && Conserved(pt, taken, released)
      ensures pt == old(pt) - {p} && home == old(home) - {p}
      ensures released == old(released) + if p in old(pt) then [old(pt)[p]] else []
      ensures boxes.Keys == old(boxes).Keys
      ensures forall c :: c in boxes ==>
        boxes[c].refs == old(boxes)[c].refs && (b != Some(c) ==> boxes[c] == old(boxes)[c])
    {
      hide Ledger, Conserved, TakeOut;
      var f := if p in pt then pt[p] else 0;
      SameKeys(pt, boxes, home, place);
      if f == 0 {
        NoPage(pt, boxes, home, place, p);
        pt, home := pt - {p}, home - {p};
        return;
      }
      LedgerDrop(pt, boxes, home, place, p);
      ConservedDrop(pt, taken, released, p);
      pt, home := pt - {p}, home - {p};
      if b.Some? {
        var ok := DropFrame(b.value, f);
      }
    }

    /** vma_del_unmapping_phyadrs: the frames of the pages go back, in ascending order of pages. */
    method Unmap(b: Option<nat>, s: nat, e: nat)
      requires Ledger(pt, boxes, home, place) && Conserved(pt, taken, released)
      requires forall p :: s / PAGE <= p < s / PAGE + Turns(s, e) && p in pt ==> p in home && b == Some(home[p])
      modifies this`boxes, this`pt, this`home, this`released
      ensures Ledger(pt, boxes, home, place) && Conserved(pt, taken, released)
      ensures pt == Outside(old(pt), s / PAGE, Turns(s, e)) && home == Outside(old(home), s / PAGE, Turns(s, e))
      ensures released == old(released) + Frames(old(pt), s / PAGE, Turns(s, e))
      ensures boxes.Keys == old(boxes).Keys
      ensures forall c :: c in boxes ==>
        boxes[c].refs == old(boxes)[c].refs && (b != Some(c) ==> boxes[c] == old(boxes)[c])
    {
      hide Ledger, Conserved, Outside, Turns;
      ghost var q, k := s / PAGE, 0;
      var v := s;
      NoTurns(s, e);
      OutsideStep(pt, q, 0);
      OutsideStep(home, q, 0);
      while v < e
        invariant v == s + k * PAGE && k <= Turns(s, e) && (v >= e ==> k == Turns(s, e))
        invariant Ledger(pt, boxes, home, place) && Conserved(pt, taken, released)
        invariant pt == Outside(old(pt), q, k) && home == Outside(old(home), q, k)
        invariant released == old(released) + Frames(old(pt), q, k)
        invariant boxes.Keys == old(boxes).Keys
        invariant forall c :: c in boxes ==>
          boxes[c].refs == old(boxes)[c].refs && (b != Some(c) ==> boxes[c] == old(boxes)[c])
      {
        TurnStep(s, e, k);
        OutsideStep(old(pt), q, k);
        OutsideStep(old(home), q, k);
        UnmapPage(b, v / PAGE);
        v, k := v + PAGE, k + 1;
      }
    }

    /** vma_del_set_endcurrkmvd. */
    method Unpoint(i: nat)
      requires i < |regions|
      modifies this`curr, this`last
      ensures curr == (if i + 1 < |regions| then Some(regions[i + 1].id) else if i > 0 then Some(regions[i - 1].id)
        else None)
      ensures last == if i + 1 < |regions| then old(last) else curr
    {
      if i + 1 == |regions| {
        if i > 0 {
          last, curr := Some(regions[i - 1].id), Some(regions[i - 1].id);
        } else {
          last, curr := None, None;
        }
      } else {
        curr := Some(regions[i + 1].id);
      }
    }

    /** Exactly the frames mapped in the pages from s on up to e went back, in ascending order. */
    twostate predicate Returned(s: nat, e: nat)
      reads this
    {
      && pt == Outside(old(pt), s / PAGE, Turns(s, e))
      && released == old(released) + Frames(old(pt), s / PAGE, Turns(s, e))
    }

    /** vma_del_unmapping for region i of rs with box b: the pages are gone and every box counts as before. */
    method UnmapIn(b: Option<nat>, s: nat, e: nat, ghost rs: seq<Region>, ghost i: nat, ghost id: nat)
      requires Store() && Sorted(rs) && Aligned(rs, limit) && Located(rs, pt, home) && Holds(rs, i, s, e)
      requires b == rs[i].box
      requires b.Some? ==> b.value in boxes && boxes[b.value].refs >= 1
      modifies this`boxes, this`pt, this`home, this`released
      ensures Store() && boxes.Keys == old(boxes).Keys && forall c :: c in boxes ==> boxes[c].refs == old(boxes)[c].refs
      ensures s < e && s % PAGE == 0 ==> Located(CutAt(rs, i, s, e, id), pt, home)
      ensures Returned(s, e)
    {
      hide Sorted, Aligned, Located, Ledger, Managed, Conserved, Outside, Frames, Turns, CutAt;
      RangeHome(rs, limit, i, s, e, pt, home);
      if s < e && s % PAGE == 0 {
        EndAligned(s, e);
        CutOutLocated(rs, i, s, e, id, pt, home);
      }
      Unmap(b, s, e);
      UsedStays(old(boxes), boxes, used, cache, usedNr, cacheNr);
    }

    method UnmapWhole(i: nat, s: nat, e: nat, ghost id: nat)
      requires Valid() && Holds(regions, i, s, e) && s < e && s % PAGE == 0
      modifies this`boxes, this`pt, this`home, this`released
      ensures Store() && Referenced(regions, boxes) && Located(CutAt(regions, i, s, e, id), pt, home)
      ensures Returned(s, e)
    {
      hide Sorted, Aligned, Pointers, Located, Ledger, Managed, Conserved, Referenced, Outside, Frames, CutAt;
      if regions[i].box.Some? {
        PointsAtCounted(regions, boxes, i);
      }
      UnmapIn(regions[i].box, s, e, regions, i, id);
      SameRefs(regions, old(boxes), boxes);
    }

    /** knl_put_kvmemcbox for a region whose pages are all unmapped. */
    method LeaveBox(i: nat, s: nat, e: nat, ghost id: nat)
      requires Store() && Referenced(regions, boxes) && Holds(regions, i, s, e)
      requires regions[i].start == s && regions[i].end == e
      requires Located(CutAt(regions, i, s, e, id), pt, home)
      modifies this`boxes, this`used, this`cache, this`usedNr, this`cacheNr
      ensures Store() && Referenced(CutAt(regions, i, s, e, id), boxes)
    {
      hide Located, Ledger, Managed, Conserved, Referenced, CutAt;
      var b := regions[i].box;
      if b.Some? {
        PointsAtCounted(regions, boxes, i);
        LastPage(regions, i, s, e, id, pt, boxes, home, place);
      }
      var ok := PutBox(b);
      CutReferenced(regions, i, s, e, id, old(boxes), boxes);
      LedgerRefs(pt, old(boxes), boxes, home, place);
    }

    /** The cached and the last region after the cut of region i: its neighbours when it went, the new region when it
        was split, and as before when it was trimmed. */
    twostate predicate Repointed(i: nat, s: nat, e: nat, id: Option<nat>)
      reads this
    {
      && i < |old(regions)|
      && var rs, r, end := old(regions), old(regions)[i], i + 1 == |old(regions)|;
      if r.start == s && r.end == e then
        && curr == (if !end then Some(rs[i + 1].id) else if i > 0 then Some(rs[i - 1].id) else None)
        && last == if end then curr else old(last)
      else if r.start == s || r.end == e then curr == old(curr) && last == old(last)
      else curr == id && last == if end then id else old(last)
    }

    /** The whole region goes. */
    method CutWhole(i: nat, s: nat, e: nat, ghost id: nat)
      requires Valid() && Holds(regions, i, s, e) && regions[i].start == s && regions[i].end == e
      modifies this
      ensures Valid() && regions == CutAt(old(regions), i, s, e, id)
      ensures Returned(s, e) && Repointed(i, s, e, Some(id))
    {
      hide Sorted, Located, Ledger, Managed, Conserved, Referenced, Aligned, Pointers, Outside, Frames, CutAt, Splice,
           InsertAfter;
      CutIs(regions, i, s, e, id);
      StartAligned(regions, limit, i);
      Nonempty(regions, i);
      UnmapWhole(i, s, e, id);
      Unpoint(i);
      LeaveBox(i, s, e, id);
      CutShape(regions, i, s, e, id, limit);
      DropPointers(regions, i, old(curr), old(last), curr, last);
      regions := Splice(regions, i, i + 1, []);
    }

    /** The range is the lower or the upper end of the region, which is trimmed. */
    method CutEnd(i: nat, s: nat, e: nat, ghost id: nat)
      requires Valid() && Holds(regions, i, s, e) && (regions[i].start == s) != (regions[i].end == e)
      modifies this
      ensures Kept() && regions == CutAt(old(regions), i, s, e, id)
      ensures s < e ==> Sorted(regions) && (Valid() <==> s % PAGE == 0)
      ensures Returned(s, e) && Repointed(i, s, e, Some(id))
    {
      hide Sorted, Located, Ledger, Managed, Conserved, Referenced, Aligned, Pointers, Outside, Frames, CutAt, Splice,
           InsertAfter;
      CutIs(regions, i, s, e, id);
      ghost var rs := regions;
      var r := regions[i];
      if r.box.Some? {
        PointsAtCounted(rs, boxes, i);
      }
      if s < e {
        CutShape(rs, i, s, e, id, limit);
      }
      var r' := if r.start == s then r.(start := e) else r.(end := s);
      AttachPointers(rs, i, r', curr, last);
      regions := regions[i := r'];
      UnmapIn(r.box, s, e, rs, i, id);
      CutReferenced(rs, i, s, e, id, old(boxes), boxes);
    }

    /** The range lies strictly inside: a new region takes over the upper part and shares the box. */
    method CutMiddle(i: nat, s: nat, e: nat, id: nat)
      requires Valid() && Holds(regions, i, s, e) && regions[i].start < s && e < regions[i].end
      requires !Listed(regions, id)
      modifies this
      ensures Kept() && regions == CutAt(old(regions), i, s, e, id)
      ensures s < e ==> Sorted(regions) && (Valid() <==> s % PAGE == 0)
      ensures Returned(s, e) && Repointed(i, s, e, Some(id))
    {
      hide Sorted, Located, Ledger, Managed, Conserved, Referenced, Aligned, Pointers, Outside, Frames, CutAt, Splice,
           InsertAfter;
      CutIs(regions, i, s, e, id);
      if s < e {
        CutShape(regions, i, s, e, id, limit);
      }
      ghost var rs := regions;
      var r := regions[i];
      SplitPointers(rs, i, r.(end := s), r.(id := id, start := e), curr, last);
      regions := regions[i := r.(end := s)];
      ShareAndUnmap(r.box, s, e, rs, i, id);
      regions := InsertAfter(regions, i, r.(id := id, start := e));
      curr := Some(id);
      if i + 2 == |regions| {
        last := Some(id);
      }
    }

    /** Both halves of region i of rs share its box, and the pages between them are unmapped. */
    method ShareAndUnmap(b: Option<nat>, s: nat, e: nat, ghost rs: seq<Region>, ghost i: nat, ghost id: nat)
      requires Store() && Sorted(rs) && Aligned(rs, limit) && Located(rs, pt, home) && Referenced(rs, boxes)
      requires Holds(rs, i, s, e) && b == rs[i].box
      requires rs[i].start < s && e < rs[i].end
      modifies this`boxes, this`pt, this`home, this`released
      ensures Store() && (s < e && s % PAGE == 0 ==> Located(CutAt(rs, i, s, e, id), pt, home))
      ensures Referenced(CutAt(rs, i, s, e, id), boxes)
      ensures Returned(s, e)
    {
      hide Sorted, Aligned, Located, Ledger, Managed, Conserved, Referenced, Outside, Frames, CutAt;
      if b.Some? {
        PointsAtCounted(rs, boxes, i);
      }
      CountBox(b);
      UnmapIn(b, s, e, rs, i, id);
      CutReferenced(rs, i, s, e, id, old(boxes), boxes);
    }

    /** knl_count_kvmemcbox. */
    method CountBox(b: Option<nat>)
      requires Store() && (b.Some? ==> b.value in boxes && boxes[b.value].refs >= 1)
      modifies this`boxes
      ensures Store()
      ensures b.None? ==> boxes == old(boxes)
      ensures b.Some? ==> var x := old(boxes)[b.value]; boxes == old(boxes)[b.value := x.(refs := x.refs + 1)]
    {
      hide Ledger, Managed, Conserved;
      if b.Some? {
        var x := boxes[b.value].(refs := boxes[b.value].refs + 1);
        ManagedUpdate(boxes, used, cache, usedNr, cacheNr, b.value, x);
        LedgerRefs(pt, boxes, boxes[b.value := x], home, place);
        boxes := boxes[b.value := x];
      }
    }

    /** vma_del_vadrs on 64-bit numbers. The range is taken out of one region that passes the tests, and the
        frames of the pages from start's on are given back, in ascending order. */
    method GiveBack(start: nat, size: nat, offer: Option<nat>) returns (ok: bool)
      requires Valid() && (offer.Some? ==> !Listed(regions, offer.value)) && start < TWO64 && size < TWO64
      modifies this
      ensures !ok ==> unchanged(this)
      ensures ok ==> size > 0 && start != 0 && Round64(size) >= PAGE
      ensures ok <==> size > 0 && start != 0 && Round64(size) >= PAGE && old(CanCut(start, Round64(size), offer))
      ensures ok ==> Given(start, Round64(size), offer)
    {
      if size < 1 || start == 0 {
        return false;
      }
      ok := GiveBackCore(start, Round64(size), offer);
    }

    /** A region passes the tests of the delete, and a descriptor is there for a split. */
    ghost predicate CanCut(s: nat, size: nat, offer: Option<nat>)
      reads this
    {
      var e := Add64(s, size);
      var i := AroundCached(regions, Spot(regions, curr), s, e);
      i < |regions| && (regions[i].start < s && e < regions[i].end ==> offer.Some?)
    }

    /** What a successful delete leaves. The list is in order and lacks exactly the range if and only if the end
        did not wrap. Then every mapped page has its region if and only if the start is page aligned or the
        page behind the last one unmapped was not mapped, and all invariants hold if and only if the start is
        page aligned. */
    twostate predicate Given(s: nat, size: nat, offer: Option<nat>)
      reads this
    {
      && var e, id := Add64(s, size), if offer.Some? then offer.value else 0;
      && var i := AroundCached(old(regions), Spot(old(regions), old(curr)), s, e);
      && i < |old(regions)| && regions == CutAt(old(regions), i, s, e, id)
      && Kept() && Returned(s, e) && Repointed(i, s, e, offer)
      && (s + size < TWO64 <==>
            && Sorted(regions)
            && forall y: nat :: Covered(regions, y) <==> old(Covered(regions, y)) && !(s <= y < s + size))
      && (s + size < TWO64 ==>
            && i == Around(old(regions), s, s + size)
            && KeepsSorts(old(regions), regions)
            && (forall p :: p in pt <==> p in old(pt) && !(s / PAGE <= p < s / PAGE + size / PAGE))
            && (forall p :: p in pt ==> pt[p] == old(pt)[p])
            && (Valid() <==> s % PAGE == 0)
            && ((forall p :: p in pt ==> Covered(regions, p * PAGE))
                <==> s % PAGE == 0 || s / PAGE + size / PAGE !in old(pt)))
    }

    /** vma_del_vadrs_core. */
    method GiveBackCore(s: nat, size: nat, offer: Option<nat>) returns (ok: bool)
      requires Valid() && (offer.Some? ==> !Listed(regions, offer.value))
      requires s < TWO64 && size < TWO64 && size % PAGE == 0
      modifies this
      ensures !ok ==> unchanged(this)
      ensures ok <==> size >= PAGE && old(CanCut(s, size, offer))
      ensures ok ==> Given(s, size, offer)
    {
      hide Sorted, Located, Ledger, Managed, Conserved, Referenced, Aligned, Pointers, Frames, CutAt, Covered;
      hide Around, Spot, Kept, Shape, KeepsSorts, Outside, Turns;
      OutsideIs(pt, s / PAGE, size / PAGE);
      var e := Add64(s, size);
      var i := FindAround(s, size);
      if i == |regions| {
        return false;
      }
      WrapBelow(s, size);
      if regions[i].start < s && e < regions[i].end ==> offer.Some? {
        CutFacts(i, s, size, if offer.Some? then offer.value else 0);
      }
      ok := Cut(i, s, e, offer);
    }

    /** What the cut of region i means, before it is made. */
    lemma CutFacts(i: nat, s: nat, size: nat, id: nat)
      requires Valid() && i < |regions| && PAGE <= size < TWO64 && s < TWO64 && size % PAGE == 0
      requires regions[i].start <= s && Add64(s, size) <= regions[i].end
      requires regions[i].start < s && Add64(s, size) < regions[i].end ==> !Listed(regions, id)
      ensures var r := CutAt(regions, i, s, Add64(s, size), id);
        && (s + size < TWO64 <==>
              Sorted(r) && forall y: nat :: Covered(r, y) <==> Covered(regions, y) && !(s <= y < s + size))
        && (s + size < TWO64 ==>
              && AroundCached(regions, Spot(regions, curr), s, Add64(s, size)) == Around(regions, s, s + size)
              && KeepsSorts(regions, r) && Turns(s, s + size) == size / PAGE
              && ((forall p :: p in Outside(pt, s / PAGE, Turns(s, s + size)) ==> Covered(r, p * PAGE))
                  <==> s % PAGE == 0 || s / PAGE + size / PAGE !in pt))
    {
      hide Sorted, Located, Ledger, Managed, Conserved, Referenced, Aligned, Pointers, Outside, CutAt, Covered, Spot;
      hide Around, Turns, AroundCached, Add64, KeepsSorts;
      WrapBelow(s, size);
      CutIff(regions, i, s, size, id);
      if s + size < TWO64 {
        CacheIsPlain(regions, Spot(regions, curr), s, s + size);
        CutMappedIff(regions, i, s, s + size, id, pt, home);
        CutSorts(regions, i, s, s + size, id);
      }
    }

    /** The four cases of vma_del_vadrs_core. */
    method Cut(i: nat, s: nat, e: nat, offer: Option<nat>) returns (ok: bool)
      requires Valid() && Holds(regions, i, s, e) && (offer.Some? ==> !Listed(regions, offer.value))
      modifies this
      ensures ok <==> (old(regions)[i].start < s && e < old(regions)[i].end ==> offer.Some?)
      ensures !ok ==> unchanged(this)
      ensures ok ==> regions == CutAt(old(regions), i, s, e, if offer.Some? then offer.value else 0)
      ensures ok ==> Kept() && Returned(s, e) && (s < e ==> (Valid() <==> s % PAGE == 0))
      ensures ok ==> Repointed(i, s, e, offer)
    {
      hide Sorted, Located, Ledger, Managed, Conserved, Referenced, Aligned, Pointers, Outside, Frames, CutAt;
      var r := regions[i];
      ghost var id := if offer.Some? then offer.value else 0;
      if r.start == s && r.end == e {
        StartAligned(regions, limit, i);
        CutWhole(i, s, e, id);
        return true;
      }
      if r.start == s || r.end == e {
        CutEnd(i, s, e, id);
        return true;
      }
      if offer.None? {
        return false;
      }
      CutMiddle(i, s, e, offer.value);
      return true;
    }

    // ---------------------------------------------------------------- over whole runs

    /** A range reserved and given back at once leaves list, mappings and frames as they were. */
    method ReserveThenGiveBack(a: Ask, offer: Option<nat>) returns (done: bool)
      requires Valid() && (offer.Some? ==> !Listed(regions, offer.value)) && a.start % PAGE == 0 && a.size % PAGE == 0
      requires a.size < TWO64 && a.start + a.size < TWO64
      modifies this
      ensures Valid() && regions == old(regions) && pt == old(pt) && released == old(released)
      ensures done <==> var k := old(Chosen(a)); k < |old(regions)| && (Grows(old(regions)[k], a) || offer.Some?)
    {
      hide Sorted, Located, Ledger, Managed, Conserved, Referenced, Aligned, Pointers, Outside, Frames, CutAt, Covered,
           Granted, Fits, Pick;
      hide Around, Landing, From, Alike, Spot, AroundCached, Turns;
      var ret := ReserveCore(a, offer);
      if ret == 0 {
        return false;
      }
      ghost var k, id := old(Chosen(a)), if offer.Some? then offer.value else 0;
      GrantedThenCut(old(regions), limit, k, a, id, 0);
      NothingMapped(old(regions), pt, home, ret / PAGE, a.size / PAGE);
      WholePages(a.size);
      CacheIsPlain(regions, Spot(regions, curr), ret, ret + a.size);
      WrapBelow(ret, a.size);
      done := GiveBackCore(ret, a.size, None);
    }

    /** Nothing leaks in any reachable state: a box is in use exactly while some region points at it, its
        page list is exactly the frames mapped in those regions, a box out of use is empty, no frame is
        mapped twice, and a frame was taken once more often than returned exactly when it is mapped. */
    lemma NothingLeaks(b: nat, f: nat)
      requires Valid() && b in boxes
      ensures b in used <==> exists i :: 0 <= i < |regions| && regions[i].box == Some(b)
      ensures b !in used ==> b in cache && boxes[b].pages == []
      ensures f in boxes[b].pages <==> exists q :: q in pt && pt[q] == f && HasBox(regions, q, b)
      ensures taken[f] == multiset(released)[f] + if exists q :: q in pt && pt[q] == f then 1 else 0
      ensures forall p, q :: p in pt && q in pt && pt[p] == pt[q] ==> p == q
    {
      hide Ledger, Located, HasBox;
      forall p, q | p in pt && q in pt && pt[p] == pt[q] ensures p == q {
        PageOf(pt, boxes, home, place, p);
        PageOf(pt, boxes, home, place, q);
      }
      BoxPagesExact(regions, pt, boxes, home, place, b, f);
      if i :| 0 <= i < |regions| && regions[i].box == Some(b) {
        CountPositive(regions, i, b);
      } else {
        CountNone(regions, b);
      }
    }
  }

  lemma NoPage(pt: map<nat, nat>, boxes: map<nat, Box>, home: map<nat, nat>, place: map<nat, nat>, p: nat)
    requires Ledger(pt, boxes, home, place) && (p in pt ==> pt[p] == 0)
    ensures p !in pt && pt - {p} == pt && home - {p} == home
  {
    if p in pt {
      PageOf(pt, boxes, home, place, p);
    }
  }

  /** Pages of a range that no region covered are not mapped. */
  lemma NothingMapped(rs: seq<Region>, pt: map<nat, nat>, home: map<nat, nat>, q: nat, n: nat)
    requires Located(rs, pt, home) && forall y: nat :: q * PAGE <= y < (q + n) * PAGE ==> !Covered(rs, y)
    ensures Outside(pt, q, n) == pt && Frames(pt, q, n) == []
  {
    forall p | p in pt && q <= p < q + n ensures false {
      assert HasBox(rs, p, home[p]);
      assert q * PAGE <= p * PAGE < (q + n) * PAGE;
      assert Covered(rs, p * PAGE);
    }
    FramesOutside(pt, q, n);
  }

  /** A sum that wraps lies below its first part. */
  lemma WrapBelow(s: nat, size: nat)
    requires s < TWO64 && PAGE <= size < TWO64 && size % PAGE == 0
    ensures var e := Add64(s, size);
      if s + size < TWO64 then e == s + size && Turns(s, e) == size / PAGE else e < s
  {
  }

  lemma EndAligned(s: nat, e: nat)
    requires s < e && s % PAGE == 0 && (e - s) % PAGE == 0
    ensures e % PAGE == 0
  {
  }

  lemma WholePages(size: nat)
    requires size % PAGE == 0
    ensures size / PAGE * PAGE == size
  {
  }

  lemma StartAligned(rs: seq<Region>, limit: nat, i: nat)
    requires Aligned(rs, limit) && i < |rs|
    ensures rs[i].start % PAGE == 0
  {
  }

  lemma FrontGone(f: nat, l: seq<nat>)
    ensures IndexOf([f] + l, f) == 0 && Without([f] + l, 0) == l
  {
    var m := [f] + l;
    assert m[0] == f && m[1..] == l;
  }
}
