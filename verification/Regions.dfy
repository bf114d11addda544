/** Virtual address regions of a process, kernel/krlvadrsmem.c, as values: a list of half-open
    intervals in ascending order, the ways a request changes it, and what it covers. */
module Regions {
  import opened Options

  const PAGE: nat := 0x1000

  /** kmvarsdsc_t; `id` is its address, `box` its page box. */
  datatype Region = Region(id: nat, start: nat, end: nat, limits: nat, kind: nat, box: Option<nat>)

  predicate Inside(r: Region, x: nat) { r.start <= x < r.end }

  ghost predicate Covered(rs: seq<Region>, x: nat) {
    exists i :: 0 <= i < |rs| && Inside(rs[i], x)
  }

  /** Nonempty intervals in ascending order without overlap, each with its own identity. */
  ghost predicate Sorted(rs: seq<Region>) {
    && (forall i :: 0 <= i < |rs| ==> rs[i].start < rs[i].end)
    && (forall i, j :: 0 <= i < j < |rs| ==> rs[i].end <= rs[j].start)
    && (forall i, j :: 0 <= i < j < |rs| ==> rs[i].id != rs[j].id)
  }

  /** Starts are page aligned, and so are ends below the limit of the address space. */
  ghost predicate Aligned(rs: seq<Region>, limit: nat) {
    forall i :: 0 <= i < |rs| ==>
      rs[i].start % PAGE == 0 && rs[i].end <= limit && (rs[i].end % PAGE == 0 || rs[i].end == limit)
  }

  ghost predicate Listed(rs: seq<Region>, id: nat) {
    exists i :: 0 <= i < |rs| && rs[i].id == id
  }

  // ---------------------------------------------------------------- lookup

  /** The plain list scan of vma_map_find_kmvarsdsc: first region that holds x, |rs| when none does. */
  function At(rs: seq<Region>, x: nat): (i: nat)
    ensures i <= |rs|
    ensures i < |rs| ==> Inside(rs[i], x)
    ensures forall j :: 0 <= j < i ==> !Inside(rs[j], x)
  {
    if rs == [] || Inside(rs[0], x) then 0 else 1 + At(rs[1..], x)
  }

  /** The plain scan of vma_del_find_kmvarsdsc: first region that holds all of [s, e). */
  function Around(rs: seq<Region>, s: nat, e: nat): (i: nat)
    ensures i <= |rs|
    ensures i < |rs| ==> rs[i].start <= s && e <= rs[i].end
    ensures forall j :: 0 <= j < i ==> !(rs[j].start <= s && e <= rs[j].end)
  {
    if rs == [] || (rs[0].start <= s && e <= rs[0].end) then 0 else 1 + Around(rs[1..], s, e)
  }

  /** In a sorted list a region found some other way is the one the scan finds. */
  lemma ScanIsUnique(rs: seq<Region>, i: nat)
    requires Sorted(rs) && i < |rs|
    ensures forall x: nat :: Inside(rs[i], x) ==> At(rs, x) == i
    ensures forall s: nat, e: nat :: s < e && rs[i].start <= s && e <= rs[i].end ==> Around(rs, s, e) == i
  {
    forall x: nat | Inside(rs[i], x) ensures At(rs, x) == i {
      var j := At(rs, x);
      assert j <= i;
    }
    forall s: nat, e: nat | s < e && rs[i].start <= s && e <= rs[i].end ensures Around(rs, s, e) == i {
      var j := Around(rs, s, e);
      assert j <= i;
    }
  }

  // ---------------------------------------------------------------- lists in pieces

  /** Every region of a lies below every region of b and is another object. */
  ghost predicate Before(a: seq<Region>, b: seq<Region>) {
    forall i, j :: 0 <= i < |a| && 0 <= j < |b| ==> a[i].end <= b[j].start && a[i].id != b[j].id
  }

  lemma SortedConcat(a: seq<Region>, b: seq<Region>)
    ensures Sorted(a + b) <==> Sorted(a) && Sorted(b) && Before(a, b)
  {
    var c := a + b;
    if Sorted(c) {
      assert forall i :: 0 <= i < |a| ==> c[i] == a[i];
      assert forall j :: 0 <= j < |b| ==> c[|a| + j] == b[j];
    }
  }

  lemma CoveredConcat(a: seq<Region>, b: seq<Region>, x: nat)
    ensures Covered(a + b, x) <==> Covered(a, x) || Covered(b, x)
  {
    var c := a + b;
    if Covered(c, x) {
      var i :| 0 <= i < |c| && Inside(c[i], x);
      assert i < |a| ==> Inside(a[i], x);
      assert i >= |a| ==> Inside(b[i - |a|], x);
    }
    if Covered(a, x) {
      var i :| 0 <= i < |a| && Inside(a[i], x);
      assert Inside(c[i], x);
    }
    if Covered(b, x) {
      var i :| 0 <= i < |b| && Inside(b[i], x);
      assert Inside(c[|a| + i], x);
    }
  }

  /** rs with the regions from a to b replaced by mid. */
  function Splice(rs: seq<Region>, a: nat, b: nat, mid: seq<Region>): (r: seq<Region>)
    requires a <= b <= |rs|
  {
    rs[..a] + mid + rs[b..]
  }

  lemma SpliceSorted(rs: seq<Region>, a: nat, b: nat, mid: seq<Region>)
    requires Sorted(rs) && a <= b <= |rs| && Sorted(mid) && Before(rs[..a], mid) && Before(mid, rs[b..])
    ensures Sorted(Splice(rs, a, b, mid))
  {
    hide Sorted;
    assert rs == rs[..a] + rs[a..] && rs == rs[..b] + rs[b..];
    SortedConcat(rs[..a], rs[a..]);
    SortedConcat(rs[..b], rs[b..]);
    SortedConcat(rs[..a], mid);
    SortedConcat(rs[..a] + mid, rs[b..]);
    assert rs[..a] <= rs[..b];
  }

  lemma SpliceCovers(rs: seq<Region>, a: nat, b: nat, mid: seq<Region>, x: nat)
    requires a <= b <= |rs|
    ensures Covered(Splice(rs, a, b, mid), x) <==> Covered(rs[..a], x) || Covered(mid, x) || Covered(rs[b..], x)
    ensures Covered(rs, x) <==> Covered(rs[..a], x) || Covered(rs[a..b], x) || Covered(rs[b..], x)
  {
    hide Covered;
    CoveredConcat(rs[..a] + mid, rs[b..], x);
    CoveredConcat(rs[..a], mid, x);
    assert rs == rs[..a] + rs[a..b] + rs[b..];
    CoveredConcat(rs[..a] + rs[a..b], rs[b..], x);
    CoveredConcat(rs[..a], rs[a..b], x);
  }

  // ---------------------------------------------------------------- growing

  /** [s, e) lies after region i and before the next one. */
  ghost predicate Gap(rs: seq<Region>, i: nat, s: nat, e: nat) {
    i < |rs| && rs[i].end <= s < e && (i + 1 < |rs| ==> e <= rs[i + 1].start)
  }

  lemma GapIsFree(rs: seq<Region>, i: nat, s: nat, e: nat, x: nat)
    requires Sorted(rs) && Gap(rs, i, s, e) && s <= x < e
    ensures !Covered(rs, x)
  {
    forall j | 0 <= j < |rs| ensures !Inside(rs[j], x) {
      if j <= i {
        assert rs[j].end <= rs[i].end;
      } else {
        assert rs[i + 1].start <= rs[j].start;
      }
    }
  }

  function Extend(rs: seq<Region>, i: nat, e: nat): (r: seq<Region>)
    requires i < |rs|
  {
    Splice(rs, i, i + 1, [rs[i].(end := e)])
  }

  function InsertAfter(rs: seq<Region>, i: nat, n: Region): (r: seq<Region>)
    requires i < |rs|
  {
    Splice(rs, i + 1, i + 1, [n])
  }

  /** Growing region i into the gap behind it adds exactly that range. */
  lemma ExtendCovers(rs: seq<Region>, i: nat, e: nat)
    requires Sorted(rs) && i < |rs| && Gap(rs, i, rs[i].end, e)
    ensures Sorted(Extend(rs, i, e))
    ensures forall x: nat :: Covered(Extend(rs, i, e), x) <==> Covered(rs, x) || rs[i].end <= x < e
  {
    var n := rs[i].(end := e);
    assert Before(rs[..i], [n]);
    assert Before([n], rs[i + 1..]);
    SpliceSorted(rs, i, i + 1, [n]);
    forall x: nat ensures Covered(Extend(rs, i, e), x) <==> Covered(rs, x) || rs[i].end <= x < e {
      SpliceCovers(rs, i, i + 1, [n], x);
      OneCovers(n, x);
      OneCovers(rs[i], x);
      assert rs[i..i + 1] == [rs[i]];
    }
  }

  lemma OneCovers(r: Region, x: nat)
    ensures Covered([r], x) <==> Inside(r, x)
  {
    assert [r][0] == r;
  }

  lemma NoneCovers(x: nat)
    ensures !Covered([], x)
  {
  }

  /** Inserting a region into the gap behind region i adds exactly its range. */
  lemma InsertCovers(rs: seq<Region>, i: nat, n: Region)
    requires Sorted(rs) && Gap(rs, i, n.start, n.end) && !Listed(rs, n.id)
    ensures Sorted(InsertAfter(rs, i, n))
    ensures forall x: nat :: Covered(InsertAfter(rs, i, n), x) <==> Covered(rs, x) || n.start <= x < n.end
  {
    assert forall j :: 0 <= j < |rs| ==> rs[j].id != n.id;
    assert Before(rs[..i + 1], [n]);
    assert Before([n], rs[i + 1..]);
    SpliceSorted(rs, i + 1, i + 1, [n]);
    forall x: nat ensures Covered(InsertAfter(rs, i, n), x) <==> Covered(rs, x) || n.start <= x < n.end {
      SpliceCovers(rs, i + 1, i + 1, [n], x);
      OneCovers(n, x);
      NoneCovers(x);
      assert rs[i + 1..i + 1] == [];
    }
  }

  // ---------------------------------------------------------------- shrinking

  /** What is left of region r without [s, e): nothing, one end, the other, or both; of two pieces
      the lower one keeps the identity. Nothing demands that s lies below e. */
  function Remains(r: Region, s: nat, e: nat, id: nat): (l: seq<Region>)
    requires r.start <= s && e <= r.end
  {
    if r.start == s && e == r.end then []
    else if r.start == s then [r.(start := e)]
    else if e == r.end then [r.(end := s)]
    else [r.(end := s), r.(id := id, start := e)]
  }

  function CutAt(rs: seq<Region>, i: nat, s: nat, e: nat, id: nat): (r: seq<Region>)
    requires i < |rs| && rs[i].start <= s && e <= rs[i].end
  {
    Splice(rs, i, i + 1, Remains(rs[i], s, e, id))
  }

  lemma RemainsCovers(r: Region, s: nat, e: nat, id: nat, x: nat)
    requires r.start <= s < e <= r.end
    ensures Covered(Remains(r, s, e, id), x) <==> Inside(r, x) && !(s <= x < e)
  {
    var l := Remains(r, s, e, id);
    if Inside(r, x) && !(s <= x < e) {
      assert Inside(l[if x < s then 0 else |l| - 1], x);
    }
  }

  /** Cutting [s, e) out of region i removes exactly that range, in all four cases. */
  lemma CutCovers(rs: seq<Region>, i: nat, s: nat, e: nat, id: nat)
    requires Sorted(rs) && i < |rs| && rs[i].start <= s < e <= rs[i].end
    requires rs[i].start < s && e < rs[i].end ==> !Listed(rs, id)
    ensures Sorted(CutAt(rs, i, s, e, id))
    ensures forall x: nat :: Covered(CutAt(rs, i, s, e, id), x) <==> Covered(rs, x) && !(s <= x < e)
  {
    hide Sorted, Covered, CutAt;
    CutSorted(rs, i, s, e, id);
    forall x: nat ensures Covered(CutAt(rs, i, s, e, id), x) <==> Covered(rs, x) && !(s <= x < e) {
      CutCoversAt(rs, i, s, e, id, x);
    }
  }

  lemma CutSorted(rs: seq<Region>, i: nat, s: nat, e: nat, id: nat)
    requires Sorted(rs) && i < |rs| && rs[i].start <= s < e <= rs[i].end
    requires rs[i].start < s && e < rs[i].end ==> !Listed(rs, id)
    ensures Sorted(CutAt(rs, i, s, e, id))
  {
    var l := Remains(rs[i], s, e, id);
    assert |l| == 2 ==> forall j :: 0 <= j < |rs| ==> rs[j].id != id;
    assert Before(rs[..i], l);
    assert Before(l, rs[i + 1..]);
    SpliceSorted(rs, i, i + 1, l);
  }

  lemma CutCoversAt(rs: seq<Region>, i: nat, s: nat, e: nat, id: nat, x: nat)
    requires Sorted(rs) && i < |rs| && rs[i].start <= s < e <= rs[i].end
    ensures Covered(CutAt(rs, i, s, e, id), x) <==> Covered(rs, x) && !(s <= x < e)
  {
    hide Sorted, Covered;
    SpliceCovers(rs, i, i + 1, Remains(rs[i], s, e, id), x);
    RemainsCovers(rs[i], s, e, id, x);
    OneCovers(rs[i], x);
    assert rs[i..i + 1] == [rs[i]];
    if Inside(rs[i], x) {
      OthersAway(rs, i, x);
    }
  }

  /** Limits, kind and box agree. */
  predicate SameSort(r: Region, t: Region) { r.limits == t.limits && r.kind == t.kind && r.box == t.box }

  /** What stays covered after a cut keeps limits, kind and box, and keeps its region unless that was split. */
  lemma CutSame(rs: seq<Region>, i: nat, s: nat, e: nat, id: nat, y: nat)
    requires Sorted(rs) && i < |rs| && rs[i].start <= s < e <= rs[i].end && Covered(CutAt(rs, i, s, e, id), y)
    ensures var c := CutAt(rs, i, s, e, id);
      && At(c, y) < |c| && At(rs, y) < |rs| && SameSort(c[At(c, y)], rs[At(rs, y)])
      && (c[At(c, y)].id == rs[At(rs, y)].id || (At(rs, y) == i && c[At(c, y)].id == id && rs[i].start < s && e <= y))
  {
    hide Sorted, Remains;
    var c, l := CutAt(rs, i, s, e, id), Remains(rs[i], s, e, id);
    var k := At(c, y);
    var n := if k < i then k else if k < i + |l| then i else k + 1 - |l|;
    assert c[k] == if k < i then rs[k] else if k < i + |l| then l[k - i] else rs[n];
    if i <= k < i + |l| {
      PieceSame(rs[i], s, e, id, k - i, y);
    }
    ScanIsUnique(rs, n);
  }

  lemma PieceSame(r: Region, s: nat, e: nat, id: nat, m: nat, y: nat)
    requires r.start <= s < e <= r.end && m < |Remains(r, s, e, id)| && Inside(Remains(r, s, e, id)[m], y)
    ensures var t := Remains(r, s, e, id)[m];
      SameSort(t, r) && Inside(r, y) && (t.id == r.id || (t.id == id && r.start < s && e <= y))
  {
  }

  lemma OthersAway(rs: seq<Region>, i: nat, x: nat)
    requires Sorted(rs) && i < |rs| && Inside(rs[i], x)
    ensures !Covered(rs[..i], x) && !Covered(rs[i + 1..], x)
  {
    forall j | 0 <= j < i ensures !Inside(rs[..i][j], x) {
      assert rs[j].end <= rs[i].start;
    }
    var above := rs[i + 1..];
    forall j | 0 <= j < |above| ensures !Inside(above[j], x) {
      assert rs[i].end <= rs[i + 1 + j].start;
    }
  }
}
