/** The user address space of a process, kernel/krlvadrsmem.c: requests that reserve and give back
    ranges of addresses, page faults that fill them, and the manager of the counted page boxes.
    Descriptors, boxes and frames come from allocators that may refuse, so they are parameters. */
module Vma {
  import opened Bits
  import opened Options
  import opened Regions
  import opened Boxes

  const USER_END: nat := 0x7fff_ffff_ffff
  const HEAP_START: nat := 0x1_0000_0000
  const STACK_START: nat := 0x7fff_c000_0000
  const HEAP_TYPE: nat := 8
  const STACK_TYPE: nat := 16
  const BIN_TYPE: nat := 64
  const CACHE_MAX: nat := 0x1000

  /** What a fault answers; `Stopped` is a stop of the whole kernel. */
  datatype Code = Done | BadParameter | BadAddress | Stopped | NoMemory

  function RoundUp(size: nat): (r: nat)
    ensures r % PAGE == 0 && size <= r < size + PAGE
  {
    (size + PAGE - 1) / PAGE * PAGE
  }

  /** VADSZ_ALIGN on 64-bit numbers: rounding up to 2^64 wraps to 0. */
  function Round64(size: nat): (r: nat)
    requires size < TWO64
    ensures r % PAGE == 0 && r < TWO64
  {
    if RoundUp(size) < TWO64 then RoundUp(size) else 0
  }

  lemma RoundWraps(size: nat)
    requires size < TWO64
    ensures Round64(size) == RoundUp(size) % TWO64
  {
    assert RoundUp(size) <= TWO64;
  }

  // ---------------------------------------------------------------- choosing a place

  /** What a request asks for; start 0 leaves the choice of the address to the kernel. */
  datatype Ask = Ask(start: nat, size: nat, limits: nat, kind: nat)

  function From(r: Region, a: Ask): (x: nat) { if a.start == 0 then r.end else a.start }

  predicate Alike(r: Region, a: Ask) { r.limits == a.limits && r.kind == a.kind }

  /** vma_find_kmvarsdsc_is_ok: the range fits behind region i. */
  predicate Fits(rs: seq<Region>, limit: nat, a: Ask, i: nat)
    requires i < |rs|
  {
    var x := From(rs[i], a);
    rs[i].end <= x && if i + 1 < |rs| then Add64(x, a.size) <= rs[i + 1].start else Add64(x, a.size) < limit
  }

  predicate Suits(rs: seq<Region>, limit: nat, a: Ask, strict: bool, i: nat)
    requires i < |rs|
  {
    (strict ==> Alike(rs[i], a)) && Fits(rs, limit, a, i)
  }

  /** The first suitable region from i on, |rs| when there is none. */
  function FirstFit(rs: seq<Region>, limit: nat, a: Ask, strict: bool, i: nat): (k: nat)
    requires i <= |rs|
    ensures i <= k <= |rs|
    ensures k < |rs| ==> Suits(rs, limit, a, strict, k)
    ensures forall j :: i <= j < k ==> !Suits(rs, limit, a, strict, j)
    decreases |rs| - i
  {
    if i == |rs| || Suits(rs, limit, a, strict, i) then i else FirstFit(rs, limit, a, strict, i + 1)
  }

  /** vma_find_kmvarsdsc: the cached region when alike, else the first alike, else the first. */
  function Pick(rs: seq<Region>, limit: nat, cached: nat, a: Ask): (k: nat)
    requires cached <= |rs|
  {
    if a.size < PAGE || Add64(a.start, a.size) > limit then |rs|
    else if cached < |rs| && Suits(rs, limit, a, true, cached) then cached
    else
      var k := FirstFit(rs, limit, a, true, 0);
      if k < |rs| then k else FirstFit(rs, limit, a, false, 0)
  }

  /** The cache never decides whether a request succeeds: it fails exactly when the range fits nowhere. */
  lemma PickFailsIff(rs: seq<Region>, limit: nat, cached: nat, a: Ask)
    requires cached <= |rs|
    ensures Pick(rs, limit, cached, a) <= |rs|
    ensures Pick(rs, limit, cached, a) < |rs| ==> Fits(rs, limit, a, Pick(rs, limit, cached, a)) && a.size >= PAGE
    ensures Pick(rs, limit, cached, a) == |rs| <==>
      a.size < PAGE || Add64(a.start, a.size) > limit || forall j :: 0 <= j < |rs| ==> !Fits(rs, limit, a, j)
    ensures var k := Pick(rs, limit, cached, a);
      k < |rs| && !Alike(rs[k], a) ==> forall j :: 0 <= j < |rs| && Alike(rs[j], a) ==> !Fits(rs, limit, a, j)
    ensures var k := Pick(rs, limit, cached, a);
      k < |rs| ==>
        if cached < |rs| && rs[cached].limits == a.limits && rs[cached].kind == a.kind && Fits(rs, limit, a, cached)
        then k == cached
        else forall j :: 0 <= j < k && Fits(rs, limit, a, j) ==>
               !(rs[j].limits == a.limits && rs[j].kind == a.kind) && rs[k].limits == a.limits && rs[k].kind == a.kind
  {
    var k := Pick(rs, limit, cached, a);
    assert k < |rs| ==> Suits(rs, limit, a, false, k);
    if a.size >= PAGE && Add64(a.start, a.size) <= limit {
      var t := FirstFit(rs, limit, a, true, 0);
      var u := FirstFit(rs, limit, a, false, 0);
      forall j | 0 <= j < |rs| && Fits(rs, limit, a, j) ensures k < |rs| && (Alike(rs[j], a) ==> Alike(rs[k], a)) {
        assert Suits(rs, limit, a, false, j);
        assert Alike(rs[j], a) ==> Suits(rs, limit, a, true, j);
      }
      forall j | 0 <= j < k < |rs| && Fits(rs, limit, a, j) && !(cached < |rs| && Suits(rs, limit, a, true, cached))
        ensures !Alike(rs[j], a) && Alike(rs[k], a)
      {
        assert Suits(rs, limit, a, false, j);
        assert Alike(rs[j], a) ==> Suits(rs, limit, a, true, j);
      }
      if cached < |rs| {
        assert Suits(rs, limit, a, true, cached) <==> Alike(rs[cached], a) && Fits(rs, limit, a, cached);
      }
    }
  }

  /** The request grows region i instead of making a new one. */
  predicate Grows(r: Region, a: Ask) { (a.start == 0 || a.start == r.end) && Alike(r, a) }

  function Granted(rs: seq<Region>, i: nat, a: Ask, id: nat): (r: seq<Region>)
    requires i < |rs|
  {
    var x := From(rs[i], a);
    if Grows(rs[i], a) then Extend(rs, i, Add64(rs[i].end, a.size))
    else InsertAfter(rs, i, Region(id, x, Add64(x, a.size), a.limits, a.kind, None))
  }

  /** No sum of a request that ends below the limit wraps. */
  lemma NoWrap(rs: seq<Region>, limit: nat, i: nat, a: Ask)
    requires Aligned(rs, limit) && i < |rs| && a.start + a.size <= limit && 2 * limit < TWO64
    ensures rs[i].end <= limit && Add64(From(rs[i], a), a.size) == From(rs[i], a) + a.size
    ensures Add64(rs[i].end, a.size) == rs[i].end + a.size && Add64(a.start, a.size) == a.start + a.size
  {
  }

  lemma AskEnds(a: Ask, limit: nat)
    requires Add64(a.start, a.size) <= limit && a.start + a.size < TWO64
    ensures a.start + a.size <= limit
  {
  }

  /** A granted request adds exactly [x, x + size), which nothing covered before. */
  lemma GrantedCovers(rs: seq<Region>, limit: nat, i: nat, a: Ask, id: nat)
    requires Sorted(rs) && Aligned(rs, limit) && i < |rs| && Fits(rs, limit, a, i) && a.size >= PAGE
      && a.size % PAGE == 0
    requires a.start % PAGE == 0 && a.start + a.size <= limit && 2 * limit < TWO64
    requires !Grows(rs[i], a) ==> !Listed(rs, id)
    ensures var x, r := From(rs[i], a), Granted(rs, i, a, id);
      && Sorted(r) && Aligned(r, limit) && x % PAGE == 0 && x > 0 && x + a.size <= limit
      && (forall y: nat :: x <= y < x + a.size ==> !Covered(rs, y))
      && (forall y: nat :: Covered(r, y) <==> Covered(rs, y) || x <= y < x + a.size)
  {
    hide Sorted, Covered, Add64;
    var x := From(rs[i], a);
    NoWrap(rs, limit, i, a);
    GrantedGap(rs, limit, i, a);
    forall y: nat | x <= y < x + a.size ensures !Covered(rs, y) {
      GapIsFree(rs, i, x, x + a.size, y);
    }
    if Grows(rs[i], a) {
      ExtendCovers(rs, i, rs[i].end + a.size);
      GrowAligned(rs, i, limit, a.size);
    } else {
      var n := Region(id, x, x + a.size, a.limits, a.kind, None);
      InsertCovers(rs, i, n);
      SpliceAligned(rs, i + 1, i + 1, [n], limit);
    }
  }

  lemma GrantedGap(rs: seq<Region>, limit: nat, i: nat, a: Ask)
    requires Sorted(rs) && Aligned(rs, limit) && i < |rs| && Fits(rs, limit, a, i) && a.size >= PAGE
      && a.size % PAGE == 0
    requires a.start % PAGE == 0 && a.start + a.size <= limit && 2 * limit < TWO64
    ensures var x := From(rs[i], a);
      x % PAGE == 0 && (x + a.size) % PAGE == 0 && 0 < x && x + a.size <= limit && Gap(rs, i, x, x + a.size)
      && (a.start == 0 ==> rs[i].end % PAGE == 0)
  {
    hide Add64;
    var x := From(rs[i], a);
    NoWrap(rs, limit, i, a);
    if i + 1 < |rs| {
      assert rs[i + 1].start < rs[i + 1].end <= limit;
    }
    assert rs[i].end < limit;
    SumAligned(x, a.size);
  }

  lemma SumAligned(x: nat, y: nat)
    requires x % PAGE == 0 && y % PAGE == 0
    ensures (x + y) % PAGE == 0
  {
  }

  lemma GrowAligned(rs: seq<Region>, i: nat, limit: nat, size: nat)
    requires Aligned(rs, limit) && i < |rs| && rs[i].end % PAGE == 0 && size % PAGE == 0 && rs[i].end + size <= limit
    ensures Aligned(Extend(rs, i, rs[i].end + size), limit)
  {
    SumAligned(rs[i].end, size);
    var n := rs[i].(end := rs[i].end + size);
    assert Aligned([n], limit);
    hide Aligned;
    SpliceAligned(rs, i, i + 1, [n], limit);
  }

  lemma SpliceAligned(rs: seq<Region>, a: nat, b: nat, mid: seq<Region>, limit: nat)
    requires Aligned(rs, limit) && a <= b <= |rs| && Aligned(mid, limit)
    ensures Aligned(Splice(rs, a, b, mid), limit)
  {
  }

  /** Growing and inserting change neither references nor where mapped pages lie. */
  lemma GrantedKeeps(rs: seq<Region>, i: nat, a: Ask, id: nat, pt: map<nat, nat>, boxes: map<nat, Box>,
                     home: map<nat, nat>)
    requires i < |rs| && Located(rs, pt, home) && Referenced(rs, boxes) && rs[i].end <= Add64(rs[i].end, a.size)
    ensures Located(Granted(rs, i, a, id), pt, home) && Referenced(Granted(rs, i, a, id), boxes)
  {
    var n := Region(id, From(rs[i], a), Add64(From(rs[i], a), a.size), a.limits, a.kind, None);
    if Grows(rs[i], a) {
      ReplaceKeeps(rs, i, rs[i].(end := Add64(rs[i].end, a.size)), pt, boxes, home);
    } else {
      InsertKeeps(rs, i, n, pt, boxes, home);
    }
  }

  /** A region replaced by a larger one with the same box. */
  lemma ReplaceKeeps(rs: seq<Region>, i: nat, n: Region, pt: map<nat, nat>, boxes: map<nat, Box>, home: map<nat, nat>)
    requires i < |rs| && Located(rs, pt, home) && Referenced(rs, boxes)
    requires n.start <= rs[i].start && rs[i].end <= n.end && n.box == rs[i].box
    ensures Located(Splice(rs, i, i + 1, [n]), pt, home) && Referenced(Splice(rs, i, i + 1, [n]), boxes)
  {
    forall q, j | q in pt && i <= j < i + 1 && Inside(rs[j], q * PAGE) && rs[j].box == Some(home[q])
      ensures HasBox([n], q, home[q])
    {
      assert Inside([n][0], q * PAGE);
    }
    LocatedSplice(rs, i, i + 1, [n], pt, home);
    forall b | b in boxes ensures CountOf(Splice(rs, i, i + 1, [n]), b) == CountOf(rs, b) {
      hide Located, HasBox;
      CountReplace(rs, i, n, b);
    }
  }

  lemma CountReplace(rs: seq<Region>, i: nat, n: Region, b: nat)
    requires i < |rs|
    ensures CountOf(Splice(rs, i, i + 1, [n]), b)
      == CountOf(rs, b) - (if rs[i].box == Some(b) then 1 else 0) + if n.box == Some(b) then 1 else 0
  {
    hide CountOf;
    CountSplice(rs, i, i + 1, [n], b);
    assert rs[i..i + 1] == [rs[i]];
    CountOne(n, b);
    CountOne(rs[i], b);
  }

  lemma InsertKeeps(rs: seq<Region>, i: nat, n: Region, pt: map<nat, nat>, boxes: map<nat, Box>, home: map<nat, nat>)
    requires i < |rs| && Located(rs, pt, home) && Referenced(rs, boxes) && n.box == None
    ensures Located(InsertAfter(rs, i, n), pt, home) && Referenced(InsertAfter(rs, i, n), boxes)
  {
    LocatedSplice(rs, i + 1, i + 1, [n], pt, home);
    forall b | b in boxes ensures CountOf(InsertAfter(rs, i, n), b) == CountOf(rs, b) {
      CountSplice(rs, i + 1, i + 1, [n], b);
      CountOne(n, b);
      assert rs[i + 1..i + 1] == [];
    }
  }

  /** Where a granted range lies in the new list. */
  function Landing(rs: seq<Region>, i: nat, a: Ask): (k: nat)
    requires i < |rs|
  {
    if Grows(rs[i], a) then i else i + 1
  }

  /** Cutting a granted range out again gives the old list back, whether it grew a region or made one. */
  lemma GrantedThenCut(rs: seq<Region>, limit: nat, i: nat, a: Ask, id: nat, id': nat)
    requires Sorted(rs) && Aligned(rs, limit) && i < |rs| && Fits(rs, limit, a, i) && a.size >= PAGE
      && a.size % PAGE == 0
    requires a.start % PAGE == 0 && a.start + a.size <= limit && 2 * limit < TWO64
    requires !Grows(rs[i], a) ==> !Listed(rs, id)
    ensures var x, r := From(rs[i], a), Granted(rs, i, a, id);
      var k := Around(r, x, x + a.size);
      && k == Landing(rs, i, a) && k < |r| && r[k].start <= x && x + a.size == r[k].end
      && CutAt(r, k, x, x + a.size, id') == rs
  {
    hide Aligned, Sorted, Covered, Add64;
    var x, r, k := From(rs[i], a), Granted(rs, i, a, id), Landing(rs, i, a);
    NoWrap(rs, limit, i, a);
    GrantedCovers(rs, limit, i, a, id);
    assert r[k].start <= x && x + a.size == r[k].end by {
      Nonempty(rs, i);
    }
    ScanIsUnique(r, k);
    Nonempty(rs, i);
    if Grows(rs[i], a) {
      assert CutAt(r, k, x, x + a.size, id') == Splice(r, i, i + 1, [rs[i]]);
      assert Splice(r, i, i + 1, [rs[i]]) == rs;
    } else {
      assert CutAt(r, k, x, x + a.size, id') == Splice(r, i + 1, i + 2, []);
      assert Splice(r, i + 1, i + 2, []) == rs;
    }
  }

  // ---------------------------------------------------------------- what a region keeps

  /** The list with the request's range, written out: region i grows exactly when the range starts at its end and
      limits and kind are those of the request, else a region with the request's limits and kind follows it. */
  lemma GrantedIs(rs: seq<Region>, i: nat, a: Ask, id: nat)
    requires i < |rs|
    ensures var r := rs[i];
      var x := if a.start == 0 then r.end else a.start;
      Granted(rs, i, a, id) ==
        if x == r.end && r.limits == a.limits && r.kind == a.kind then rs[i := r.(end := (x + a.size) % TWO64)]
        else rs[..i + 1] + [Region(id, x, (x + a.size) % TWO64, a.limits, a.kind, None)] + rs[i + 1..]
  {
    var n := rs[i].(end := Add64(rs[i].end, a.size));
    assert rs[..i] + [n] + rs[i + 1..] == rs[i := n];
    assert rs[i + 1..] == rs[i + 1..|rs|];
  }

  /** The range granted lies in a region with the limits and the kind of the request. What was covered before stays in
      the same region, which may have grown, but only if its limits and kind are those of the request. */
  ghost predicate KeepsRegions(rs: seq<Region>, r: seq<Region>, a: Ask, x: nat) {
    && (forall y: nat :: x <= y < x + a.size ==>
          At(r, y) < |r| && r[At(r, y)].limits == a.limits && r[At(r, y)].kind == a.kind)
    && (forall y: nat :: Covered(rs, y) ==>
          && At(rs, y) < |rs| && At(r, y) < |r|
          && var was, now := rs[At(rs, y)], r[At(r, y)];
          && now.id == was.id && now.start == was.start && SameSort(now, was)
          && (now.end != was.end ==>
                was.limits == a.limits && was.kind == a.kind && was.end == x && now.end == x + a.size))
  }

  lemma GrantedSame(rs: seq<Region>, limit: nat, i: nat, a: Ask, id: nat)
    requires Sorted(rs) && Aligned(rs, limit) && i < |rs| && Fits(rs, limit, a, i) && a.size >= PAGE
      && a.size % PAGE == 0
    requires a.start % PAGE == 0 && a.start + a.size <= limit && 2 * limit < TWO64
    requires !Grows(rs[i], a) ==> !Listed(rs, id)
    ensures KeepsRegions(rs, Granted(rs, i, a, id), a, From(rs[i], a))
  {
    hide Aligned, Covered, Sorted, Add64;
    var x, r := From(rs[i], a), Granted(rs, i, a, id);
    NoWrap(rs, limit, i, a);
    GrantedCovers(rs, limit, i, a, id);
    forall y: nat | x <= y < x + a.size
      ensures At(r, y) < |r| && r[At(r, y)].limits == a.limits && r[At(r, y)].kind == a.kind
    {
      GrantedNew(rs, i, a, id, y);
    }
    forall y: nat | Covered(rs, y)
      ensures At(rs, y) < |rs| && At(r, y) < |r|
      ensures var was, now := rs[At(rs, y)], r[At(r, y)];
        && now.id == was.id && now.start == was.start && SameSort(now, was)
        && (now.end != was.end ==>
              was.limits == a.limits && was.kind == a.kind && was.end == x && now.end == x + a.size)
    {
      GrantedOld(rs, i, a, id, y);
    }
  }

  lemma GrantedNew(rs: seq<Region>, i: nat, a: Ask, id: nat, y: nat)
    requires Sorted(rs) && i < |rs| && Sorted(Granted(rs, i, a, id))
    requires Add64(From(rs[i], a), a.size) == From(rs[i], a) + a.size
    requires rs[i].end <= From(rs[i], a) <= y < From(rs[i], a) + a.size
    ensures var r := Granted(rs, i, a, id);
      At(r, y) < |r| && r[At(r, y)].limits == a.limits && r[At(r, y)].kind == a.kind
  {
    hide Add64;
    GrantedIs(rs, i, a, id);
    assert rs[i].start < rs[i].end;
    var r := Granted(rs, i, a, id);
    var k := if Grows(rs[i], a) then i else i + 1;
    assert Inside(r[k], y);
    ScanIsUnique(r, k);
  }

  lemma GrantedOld(rs: seq<Region>, i: nat, a: Ask, id: nat, y: nat)
    requires Sorted(rs) && i < |rs| && Sorted(Granted(rs, i, a, id)) && Covered(rs, y)
    requires Add64(rs[i].end, a.size) == rs[i].end + a.size
    ensures var r := Granted(rs, i, a, id);
      && At(rs, y) < |rs| && At(r, y) < |r|
      && var was, now := rs[At(rs, y)], r[At(r, y)];
      && now.id == was.id && now.start == was.start && SameSort(now, was)
      && (now.end != was.end ==>
            && was.limits == a.limits && was.kind == a.kind
            && was.end == From(rs[i], a) && now.end == was.end + a.size)
  {
    hide Add64, Sorted, Granted, At;
    var n :| 0 <= n < |rs| && Inside(rs[n], y);
    ScanIsUnique(rs, n);
    var k := GrantedAt(rs, i, a, id, n);
    ScanIsUnique(Granted(rs, i, a, id), k);
  }

  /** Where region n is in the new list. */
  lemma GrantedAt(rs: seq<Region>, i: nat, a: Ask, id: nat, n: nat) returns (k: nat)
    requires i < |rs| && n < |rs| && Add64(rs[i].end, a.size) == rs[i].end + a.size
    ensures k < |Granted(rs, i, a, id)|
    ensures Granted(rs, i, a, id)[k]
      == if Grows(rs[i], a) && n == i then rs[n].(end := rs[n].end + a.size) else rs[n]
  {
    hide Add64;
    k := if Grows(rs[i], a) || n <= i then n else n + 1;
  }

  // ---------------------------------------------------------------- sums that wrap

  /** A request that is granted adds exactly its range if and only if its end does not wrap. */
  lemma GrantedIff(rs: seq<Region>, limit: nat, i: nat, a: Ask, id: nat)
    requires Sorted(rs) && Aligned(rs, limit) && i < |rs| && 2 * limit < TWO64 && Fits(rs, limit, a, i)
    requires a.size >= PAGE && Add64(a.start, a.size) <= limit && a.start < TWO64 && a.size < TWO64
    requires a.start % PAGE == 0 && a.size % PAGE == 0 && (!Grows(rs[i], a) ==> !Listed(rs, id))
    ensures a.start + a.size < TWO64 <==>
      var x, r := From(rs[i], a), Granted(rs, i, a, id);
      forall y: nat :: Covered(r, y) <==> Covered(rs, y) || x <= y < x + a.size
  {
    hide Sorted, Covered;
    if a.start + a.size < TWO64 {
      GrantedCovers(rs, limit, i, a, id);
    } else {
      WrapUncovered(rs, limit, i, a, id);
    }
  }

  lemma WrapUncovered(rs: seq<Region>, limit: nat, i: nat, a: Ask, id: nat)
    requires Aligned(rs, limit) && i < |rs| && 2 * limit < TWO64 && Fits(rs, limit, a, i)
    requires Add64(a.start, a.size) <= limit && a.start < TWO64 && a.size < TWO64 <= a.start + a.size
    ensures var x, y := From(rs[i], a), a.start + a.size - 1;
      x <= y < x + a.size && !Covered(Granted(rs, i, a, id), y)
  {
    var r := Granted(rs, i, a, id);
    assert forall j :: 0 <= j < |r| ==> r[j].end <= limit;
  }

  /** Behind the first code pages a request of 2^64 - 4096 bytes is granted, and the code pages lose their last
      one. */
  lemma WrapShrinks(id: nat, above: seq<Region>, limit: nat)
    requires limit >= 0x5000 && (above != [] ==> above[0].start >= 0x5000)
    ensures var rs, a := [Region(id, 0x1000, 0x5000, 0, 0, None)] + above, Ask(0x5000, TWO64 - PAGE, 0, 0);
      && Pick(rs, limit, 0, a) == 0
      && Granted(rs, 0, a, 0) == [Region(id, 0x1000, 0x4000, 0, 0, None)] + above
  {
    assert Add64(0x5000, TWO64 - PAGE) == 0x4000;
  }

  /** A delete leaves a list in order without exactly its range if and only if its end does not wrap. */
  lemma CutIff(rs: seq<Region>, i: nat, s: nat, size: nat, id: nat)
    requires Sorted(rs) && i < |rs| && rs[i].start <= s < TWO64 && 0 < size < TWO64 && Add64(s, size) <= rs[i].end
    requires rs[i].start < s && Add64(s, size) < rs[i].end ==> !Listed(rs, id)
    ensures var r := CutAt(rs, i, s, Add64(s, size), id);
      s + size < TWO64 <==> Sorted(r) && forall y: nat :: Covered(r, y) <==> Covered(rs, y) && !(s <= y < s + size)
  {
    hide Sorted, Covered, CutAt;
    if s + size < TWO64 {
      CutCovers(rs, i, s, s + size, id);
    } else {
      WrapOverlaps(rs, i, s, Add64(s, size), id);
    }
  }

  /** With an end below its start a delete adds addresses or leaves an overlap. */
  lemma WrapOverlaps(rs: seq<Region>, i: nat, s: nat, e: nat, id: nat)
    requires Sorted(rs) && i < |rs| && rs[i].start <= s && e < s && e <= rs[i].end
    ensures var r := CutAt(rs, i, s, e, id);
      Sorted(r) ==> exists y: nat :: Covered(r, y) && (y == s || (y < s && !Covered(rs, y)))
  {
    var r := CutAt(rs, i, s, e, id);
    if Sorted(r) {
      if rs[i].start == s {
        assert r[i] == rs[i].(start := e) && Inside(r[i], s);
        assert Covered(r, s);
      } else if e == rs[i].end {
        assert r[i] == rs[i].(end := s) && Inside(r[i], e);
        forall j | 0 <= j < |rs| ensures !Inside(rs[j], e) {
          if j > i {
            assert r[j] == rs[j] && r[i].end <= r[j].start;
          }
        }
        assert Covered(r, e) && !Covered(rs, e);
      } else {
        SplitOverlaps(rs, i, s, e, id);
      }
    }
  }

  lemma SplitOverlaps(rs: seq<Region>, i: nat, s: nat, e: nat, id: nat)
    requires i < |rs| && rs[i].start < s && e < s && e < rs[i].end
    ensures !Sorted(CutAt(rs, i, s, e, id))
  {
    var r := CutAt(rs, i, s, e, id);
    assert r[i].end == s && r[i + 1].start == e;
  }

  /** In the first code pages a delete of 2^64 - 4096 bytes is accepted, and leaves two regions that overlap. */
  lemma WrapCutOverlaps(id: nat, above: seq<Region>, n: nat)
    ensures var rs := [Region(id, 0x1000, 0x5000, 0, 0, None)] + above;
      && Add64(0x2000, TWO64 - PAGE) == 0x1000 && Around(rs, 0x2000, 0x1000) == 0
      && CutAt(rs, 0, 0x2000, 0x1000, n)
         == [Region(id, 0x1000, 0x2000, 0, 0, None), Region(n, 0x1000, 0x5000, 0, 0, None)] + above
  {
    var rs := [Region(id, 0x1000, 0x5000, 0, 0, None)] + above;
    assert rs[1..] == above && rs[..0] == [];
  }

  lemma Nonempty(rs: seq<Region>, i: nat)
    requires Sorted(rs) && i < |rs|
    ensures rs[i].start < rs[i].end
  {
  }
}
