/** Page boxes, kernel/krlvadrsmem.c: the frames mapped for a region are kept in a counted box that
    split regions share. Ghost maps tell for every mapped page its box and for every frame its page. */
module Boxes {
  import opened Lists
  import opened Options
  import opened Regions

  /** kvmemcbox_t: `refs` is kmb_cont, `pages` kmb_msalist front first, `count` kmb_msanr. */
  datatype Box = Box(refs: int, pages: seq<nat>, count: int)

  const EMPTY_BOX := Box(0, [], 0)

  /** Page number q lies in a region that points at box b. */
  ghost predicate HasBox(rs: seq<Region>, q: nat, b: nat) {
    exists i :: 0 <= i < |rs| && Inside(rs[i], q * PAGE) && rs[i].box == Some(b)
  }

  /** Mapped page q is entered under its frame and in its box. */
  ghost predicate PageEntry(pt: map<nat, nat>, boxes: map<nat, Box>, home: map<nat, nat>, place: map<nat, nat>, q: nat)
    requires q in pt
  {
    && pt[q] != 0 && pt[q] in place && place[pt[q]] == q
    && q in home && home[q] in boxes && pt[q] in boxes[home[q]].pages
  }

  /** Frame f in the list of box b is mapped at its page. */
  ghost predicate FrameEntry(pt: map<nat, nat>, home: map<nat, nat>, place: map<nat, nat>, b: nat, f: nat) {
    f in place && place[f] in pt && pt[place[f]] == f && place[f] in home && home[place[f]] == b
  }

  ghost predicate ListEntry(b: Box) {
    NoDup(b.pages) && b.count == |b.pages|
  }

  /** The page lists hold exactly the mapped frames: `home` is the box of a mapped page, `place` the
      page of a mapped frame. */
  ghost predicate Ledger(pt: map<nat, nat>, boxes: map<nat, Box>, home: map<nat, nat>, place: map<nat, nat>) {
    && home.Keys == pt.Keys
    && (forall q :: q in pt ==> PageEntry(pt, boxes, home, place, q))
    && (forall b, f :: b in boxes && f in boxes[b].pages ==> FrameEntry(pt, home, place, b, f))
    && (forall b :: b in boxes ==> ListEntry(boxes[b]))
  }

  lemma PageOf(pt: map<nat, nat>, boxes: map<nat, Box>, home: map<nat, nat>, place: map<nat, nat>, q: nat)
    requires Ledger(pt, boxes, home, place) && q in pt
    ensures PageEntry(pt, boxes, home, place, q)
  {
  }

  lemma FrameOf(pt: map<nat, nat>, boxes: map<nat, Box>, home: map<nat, nat>, place: map<nat, nat>, b: nat, f: nat)
    requires Ledger(pt, boxes, home, place) && b in boxes && f in boxes[b].pages
    ensures FrameEntry(pt, home, place, b, f)
  {
  }

  lemma ListOf(pt: map<nat, nat>, boxes: map<nat, Box>, home: map<nat, nat>, place: map<nat, nat>, b: nat)
    requires Ledger(pt, boxes, home, place) && b in boxes
    ensures home.Keys == pt.Keys && ListEntry(boxes[b])
  {
  }

  lemma Entered(pt: map<nat, nat>, boxes: map<nat, Box>, home: map<nat, nat>, place: map<nat, nat>)
    requires home.Keys == pt.Keys
    requires forall q :: q in pt ==> PageEntry(pt, boxes, home, place, q)
    requires forall b, f :: b in boxes && f in boxes[b].pages ==> FrameEntry(pt, home, place, b, f)
    requires forall b :: b in boxes ==> ListEntry(boxes[b])
    ensures Ledger(pt, boxes, home, place)
  {
  }

  /** Every mapped page lies in a region pointing at its box. */
  ghost predicate Located(rs: seq<Region>, pt: map<nat, nat>, home: map<nat, nat>) {
    home.Keys == pt.Keys && forall q :: q in pt ==> HasBox(rs, q, home[q])
  }

  function CountOf(rs: seq<Region>, b: nat): (n: nat) {
    if rs == [] then 0 else (if rs[0].box == Some(b) then 1 else 0) + CountOf(rs[1..], b)
  }

  /** A box counts the regions that point at it. */
  ghost predicate Referenced(rs: seq<Region>, boxes: map<nat, Box>) {
    && (forall i :: 0 <= i < |rs| && rs[i].box.Some? ==> rs[i].box.value in boxes)
    && (forall b :: b in boxes ==> boxes[b].refs == CountOf(rs, b))
  }

  lemma {:induction false} CountConcat(a: seq<Region>, c: seq<Region>, b: nat)
    ensures CountOf(a + c, b) == CountOf(a, b) + CountOf(c, b)
  {
    if a == [] {
      assert a + c == c;
    } else {
      CountConcat(a[1..], c, b);
      assert (a + c)[1..] == a[1..] + c;
    }
  }

  lemma CountSplice(rs: seq<Region>, l: nat, u: nat, mid: seq<Region>, b: nat)
    requires l <= u <= |rs|
    ensures CountOf(Splice(rs, l, u, mid), b) == CountOf(rs, b) - CountOf(rs[l..u], b) + CountOf(mid, b)
  {
    hide CountOf;
    CountConcat(rs[..l] + mid, rs[u..], b);
    CountConcat(rs[..l], mid, b);
    assert rs == rs[..l] + rs[l..u] + rs[u..];
    CountConcat(rs[..l] + rs[l..u], rs[u..], b);
    CountConcat(rs[..l], rs[l..u], b);
  }

  lemma CountOne(r: Region, b: nat)
    ensures CountOf([r], b) == if r.box == Some(b) then 1 else 0
  {
    assert [r][1..] == [];
  }

  lemma {:induction false} CountPositive(rs: seq<Region>, i: nat, b: nat)
    requires i < |rs| && rs[i].box == Some(b)
    ensures CountOf(rs, b) >= 1
  {
    if i > 0 {
      CountPositive(rs[1..], i - 1, b);
    }
  }

  lemma HeldIsCounted(rs: seq<Region>, q: nat, b: nat)
    requires HasBox(rs, q, b)
    ensures CountOf(rs, b) >= 1
  {
    var i :| 0 <= i < |rs| && Inside(rs[i], q * PAGE) && rs[i].box == Some(b);
    CountPositive(rs, i, b);
  }

  // ---------------------------------------------------------------- what the ledger means

  /** A box's page list is exactly the frames mapped in the regions that point at it. */
  lemma BoxPagesExact(rs: seq<Region>, pt: map<nat, nat>, boxes: map<nat, Box>, home: map<nat, nat>,
                      place: map<nat, nat>, b: nat, f: nat)
    requires Sorted(rs) && Ledger(pt, boxes, home, place) && Located(rs, pt, home) && b in boxes
    ensures f in boxes[b].pages <==> exists q :: q in pt && pt[q] == f && HasBox(rs, q, b)
  {
    hide Ledger;
    if f in boxes[b].pages {
      FrameOf(pt, boxes, home, place, b, f);
      assert HasBox(rs, place[f], b);
    }
    if q :| q in pt && pt[q] == f && HasBox(rs, q, b) {
      PageOf(pt, boxes, home, place, q);
      SameBox(rs, q, b, home[q]);
    }
  }

  lemma SameBox(rs: seq<Region>, q: nat, b: nat, c: nat)
    requires Sorted(rs) && HasBox(rs, q, b) && HasBox(rs, q, c)
    ensures b == c
  {
    var i :| 0 <= i < |rs| && Inside(rs[i], q * PAGE) && rs[i].box == Some(b);
    var j :| 0 <= j < |rs| && Inside(rs[j], q * PAGE) && rs[j].box == Some(c);
    ScanIsUnique(rs, i);
    ScanIsUnique(rs, j);
  }

  /** A box no region points at has an empty page list. */
  lemma UnreferencedIsEmpty(rs: seq<Region>, pt: map<nat, nat>, boxes: map<nat, Box>, home: map<nat, nat>,
                            place: map<nat, nat>, b: nat)
    requires Ledger(pt, boxes, home, place) && Located(rs, pt, home) && b in boxes && CountOf(rs, b) == 0
    ensures boxes[b].pages == []
  {
    hide Ledger;
    if boxes[b].pages != [] {
      var f := boxes[b].pages[0];
      FrameOf(pt, boxes, home, place, b, f);
      assert HasBox(rs, place[f], b);
      HeldIsCounted(rs, place[f], b);
    }
  }

  // ---------------------------------------------------------------- changing the region list

  /** Regions without box change nothing for mapped pages; a grown region keeps its pages. */
  lemma LocatedSplice(rs: seq<Region>, l: nat, u: nat, mid: seq<Region>, pt: map<nat, nat>, home: map<nat, nat>)
    requires l <= u <= |rs| && Located(rs, pt, home)
    requires forall q, i :: q in pt && l <= i < u && Inside(rs[i], q * PAGE) && rs[i].box == Some(home[q]) ==>
      HasBox(mid, q, home[q])
    ensures Located(Splice(rs, l, u, mid), pt, home)
  {
    var rs' := Splice(rs, l, u, mid);
    forall q | q in pt ensures HasBox(rs', q, home[q]) {
      var i :| 0 <= i < |rs| && Inside(rs[i], q * PAGE) && rs[i].box == Some(home[q]);
      if i < l {
        assert rs'[i] == rs[i];
      } else if u <= i {
        assert rs'[i - u + l + |mid|] == rs[i];
      } else {
        var j :| 0 <= j < |mid| && Inside(mid[j], q * PAGE) && mid[j].box == Some(home[q]);
        assert rs'[l + j] == mid[j];
      }
    }
  }

  /** Pages outside the hole stay in what remains of their region. */
  lemma CutLocated(rs: seq<Region>, i: nat, s: nat, e: nat, id: nat, pt: map<nat, nat>, home: map<nat, nat>)
    requires i < |rs| && rs[i].start <= s < e <= rs[i].end && Located(rs, pt, home)
    requires forall q :: q in pt ==> !(s <= q * PAGE < e)
    ensures Located(CutAt(rs, i, s, e, id), pt, home)
  {
    var mid := Remains(rs[i], s, e, id);
    forall q, j | q in pt && i <= j < i + 1 && Inside(rs[j], q * PAGE) && rs[j].box == Some(home[q])
      ensures HasBox(mid, q, home[q])
    {
      assert mid != [];
      var k := if q * PAGE < s then 0 else |mid| - 1;
      assert Inside(mid[k], q * PAGE) && mid[k].box == Some(home[q]);
    }
    LocatedSplice(rs, i, i + 1, mid, pt, home);
  }

  /** Cutting adds or removes as many references as it leaves pieces more or fewer than one. */
  lemma CountCut(rs: seq<Region>, i: nat, s: nat, e: nat, id: nat, b: nat)
    requires i < |rs| && rs[i].start <= s && e <= rs[i].end
    ensures CountOf(CutAt(rs, i, s, e, id), b) == CountOf(rs, b)
      + if rs[i].box == Some(b) then |Remains(rs[i], s, e, id)| - 1 else 0
  {
    var l := Remains(rs[i], s, e, id);
    CountSplice(rs, i, i + 1, l, b);
    assert rs[i..i + 1] == [rs[i]];
    CountOne(rs[i], b);
    if |l| == 1 {
      assert l == [l[0]];
      CountOne(l[0], b);
    } else if |l| == 2 {
      assert l == [l[0]] + [l[1]];
      CountConcat([l[0]], [l[1]], b);
      CountOne(l[0], b);
      CountOne(l[1], b);
    }
  }

  // ---------------------------------------------------------------- changing mappings

  /** The mappings outside the n pages from q. */
  function Outside(m: map<nat, nat>, q: nat, n: nat): (r: map<nat, nat>) {
    map p | p in m && !(q <= p < q + n) :: m[p]
  }

  /** The frames mapped at the n pages from q, in ascending order of pages. */
  function Frames(pt: map<nat, nat>, q: nat, n: nat): (l: seq<nat>) {
    if n == 0 then [] else Frames(pt, q, n - 1) + if q + n - 1 in pt then [pt[q + n - 1]] else []
  }

  lemma OutsideIs(m: map<nat, nat>, q: nat, n: nat)
    ensures forall p :: p in Outside(m, q, n) <==> p in m && !(q <= p < q + n)
    ensures forall p :: p in Outside(m, q, n) ==> Outside(m, q, n)[p] == m[p]
  {
  }

  /** How many pages from q up to p are mapped. */
  ghost function Rank(pt: map<nat, nat>, q: nat, p: nat): (r: nat) { |set x | q <= x < p && x in pt| }

  /** The frames are those of the mapped pages, each once, in ascending order of pages. */
  lemma {:induction false} FramesAscend(pt: map<nat, nat>, q: nat, n: nat)
    ensures |Frames(pt, q, n)| == Rank(pt, q, q + n)
    ensures forall p :: q <= p < q + n && p in pt ==>
      Rank(pt, q, p) < |Frames(pt, q, n)| && Frames(pt, q, n)[Rank(pt, q, p)] == pt[p]
  {
    hide Rank;
    if n > 0 {
      FramesAscend(pt, q, n - 1);
      RankNext(pt, q, q + n - 1);
    }
    RankNext(pt, q, q);
  }

  lemma RankNext(pt: map<nat, nat>, q: nat, p: nat)
    requires q <= p
    ensures Rank(pt, q, p + 1) == Rank(pt, q, p) + (if p in pt then 1 else 0) && Rank(pt, q, q) == 0
  {
    var lower := set x | q <= x < p && x in pt;
    assert (set x | q <= x < p + 1 && x in pt) == if p in pt then lower + {p} else lower;
    assert (set x | q <= x < q && x in pt) == {};
  }

  /** One more page. */
  lemma OutsideStep(m: map<nat, nat>, q: nat, n: nat)
    ensures Outside(m, q, n) - {q + n} == Outside(m, q, n + 1) && Outside(m, q, 0) == m
    ensures q + n in Outside(m, q, n) <==> q + n in m
    ensures q + n in m ==> Outside(m, q, n)[q + n] == m[q + n]
  {
  }

  lemma {:induction false} FramesOutside(pt: map<nat, nat>, q: nat, n: nat)
    requires forall p :: q <= p < q + n ==> p !in pt
    ensures Frames(pt, q, n) == []
  {
    if n > 0 {
      FramesOutside(pt, q, n - 1);
    }
  }

  /** The frame goes to the front of the box's list. */
  function PutIn(boxes: map<nat, Box>, b: nat, f: nat): (r: map<nat, Box>)
    requires b in boxes
  {
    boxes[b := boxes[b].(pages := [f] + boxes[b].pages, count := boxes[b].count + 1)]
  }

  /** Only that box changes: its list has f at the front and is otherwise as it was. */
  lemma PutInIs(boxes: map<nat, Box>, b: nat, f: nat)
    requires b in boxes
    ensures var r := PutIn(boxes, b, f);
      && r.Keys == boxes.Keys && (forall c :: c in boxes && c != b ==> r[c] == boxes[c])
      && r[b].refs == boxes[b].refs && r[b].count == boxes[b].count + 1
      && |r[b].pages| == |boxes[b].pages| + 1 && r[b].pages[0] == f && r[b].pages[1..] == boxes[b].pages
  {
  }

  /** Mapping a page that is mapped already loses its frame: it stays listed, is mapped nowhere, and no assignment of
      pages to boxes and frames puts the ledger right. */
  lemma Overmapped(pt: map<nat, nat>, boxes: map<nat, Box>, home: map<nat, nat>, place: map<nat, nat>, q: nat, f: nat,
                   b: nat)
    requires Ledger(pt, boxes, home, place) && q in pt && f !in pt.Values && b in boxes
    ensures var pt', boxes' := pt[q := f], PutIn(boxes, b, f);
      && pt[q] !in pt'.Values && (exists c :: c in boxes' && pt[q] in boxes'[c].pages)
      && forall home': map<nat, nat>, place': map<nat, nat> :: !Ledger(pt', boxes', home', place')
  {
    var f0, pt' := pt[q], pt[q := f];
    var boxes' := PutIn(boxes, b, f);
    assert f0 in pt.Values;
    PageOf(pt, boxes, home, place, q);
    assert home[q] in boxes' && f0 in boxes'[home[q]].pages;
    forall p | p in pt' ensures pt'[p] != f0 {
      if p != q && pt[p] == f0 {
        PageOf(pt, boxes, home, place, p);
      }
    }
    forall home': map<nat, nat>, place': map<nat, nat> ensures !Ledger(pt', boxes', home', place') {
      NotEntered(pt', boxes', home', place', home[q], f0);
    }
  }

  lemma NotEntered(pt: map<nat, nat>, boxes: map<nat, Box>, home: map<nat, nat>, place: map<nat, nat>, b: nat, f: nat)
    requires b in boxes && f in boxes[b].pages && forall p :: p in pt ==> pt[p] != f
    ensures !Ledger(pt, boxes, home, place)
  {
    assert !FrameEntry(pt, home, place, b, f);
  }

  /** A fresh frame mapped at an unmapped page goes to the front of the box's list. */
  lemma LedgerAdd(pt: map<nat, nat>, boxes: map<nat, Box>, home: map<nat, nat>, place: map<nat, nat>, q: nat, f: nat,
                  b: nat)
    requires Ledger(pt, boxes, home, place) && q !in pt && b in boxes && f != 0 && f !in pt.Values
    ensures Ledger(pt[q := f], PutIn(boxes, b, f), home[q := b], place[f := q])
  {
    hide Ledger;
    var boxes' := PutIn(boxes, b, f);
    var pt', home', place' := pt[q := f], home[q := b], place[f := q];
    ListOf(pt, boxes, home, place, b);
    forall p | p in pt' ensures PageEntry(pt', boxes', home', place', p) {
      if p != q {
        PageOf(pt, boxes, home, place, p);
        assert pt[p] in pt.Values;
      }
    }
    forall c, g | c in boxes' && g in boxes'[c].pages ensures FrameEntry(pt', home', place', c, g) {
      if c != b || g != f {
        FrameOf(pt, boxes, home, place, c, g);
        assert pt[place[g]] in pt.Values;
      }
    }
    forall c | c in boxes' ensures ListEntry(boxes'[c]) {
      ListOf(pt, boxes, home, place, c);
      if c == b {
        NotListed(pt, boxes, home, place, b, f);
      }
    }
    Entered(pt', boxes', home', place');
  }

  lemma NotListed(pt: map<nat, nat>, boxes: map<nat, Box>, home: map<nat, nat>, place: map<nat, nat>, b: nat, f: nat)
    requires Ledger(pt, boxes, home, place) && b in boxes && f !in pt.Values
    ensures f !in boxes[b].pages
  {
    if f in boxes[b].pages {
      FrameOf(pt, boxes, home, place, b, f);
    }
  }

  /** Box b loses frame f. */
  function TakeOut(boxes: map<nat, Box>, b: nat, f: nat): (r: map<nat, Box>)
    requires b in boxes && f in boxes[b].pages
    ensures r.Keys == boxes.Keys && forall c :: c in r ==> r[c].refs == boxes[c].refs && (c != b ==> r[c] == boxes[c])
  {
    boxes[b := boxes[b].(pages := Without(boxes[b].pages, IndexOf(boxes[b].pages, f)), count := boxes[b].count - 1)]
  }

  /** Unmapping page q takes its frame out of its box. */
  lemma LedgerDrop(pt: map<nat, nat>, boxes: map<nat, Box>, home: map<nat, nat>, place: map<nat, nat>, q: nat)
    requires Ledger(pt, boxes, home, place) && q in pt
    ensures q in home && home[q] in boxes && pt[q] != 0 && pt[q] in boxes[home[q]].pages
    ensures Ledger(pt - {q}, TakeOut(boxes, home[q], pt[q]), home - {q}, place)
    ensures (pt - {q}).Values == pt.Values - {pt[q]}
  {
    hide Ledger;
    PageOf(pt, boxes, home, place, q);
    var b, f := home[q], pt[q];
    var boxes' := TakeOut(boxes, b, f);
    var pt', home' := pt - {q}, home - {q};
    ListOf(pt, boxes, home, place, b);
    WithoutMembers(boxes[b].pages, IndexOf(boxes[b].pages, f));
    forall p | p in pt' ensures PageEntry(pt', boxes', home', place, p) && pt[p] != f {
      PageOf(pt, boxes, home, place, p);
    }
    forall c, g | c in boxes' && g in boxes'[c].pages ensures FrameEntry(pt', home', place, c, g) {
      FrameOf(pt, boxes, home, place, c, g);
    }
    forall c | c in boxes' ensures ListEntry(boxes'[c]) {
      ListOf(pt, boxes, home, place, c);
    }
    Entered(pt', boxes', home', place);
    ValuesDrop(pt, q);
  }

  lemma ValuesDrop(pt: map<nat, nat>, q: nat)
    requires q in pt && forall p :: p in pt && p != q ==> pt[p] != pt[q]
    ensures (pt - {q}).Values == pt.Values - {pt[q]}
  {
    forall f | f in pt.Values - {pt[q]} ensures f in (pt - {q}).Values {
      var p :| p in pt && pt[p] == f;
      assert p in pt - {q};
    }
  }

  /** The ledger does not look at reference counts nor at boxes without pages. */
  lemma LedgerRefs(pt: map<nat, nat>, boxes: map<nat, Box>, boxes': map<nat, Box>, home: map<nat, nat>,
                   place: map<nat, nat>)
    requires Ledger(pt, boxes, home, place)
    requires forall b :: b in boxes && boxes[b].pages != [] ==> b in boxes'
    requires forall b :: b in boxes' ==>
      if b in boxes then boxes'[b].pages == boxes[b].pages && boxes'[b].count == boxes[b].count
      else boxes'[b].pages == [] && boxes'[b].count == 0
    ensures Ledger(pt, boxes', home, place)
  {
    hide Ledger;
    forall q | q in pt ensures PageEntry(pt, boxes', home, place, q) {
      PageOf(pt, boxes, home, place, q);
    }
    forall b, f | b in boxes' && f in boxes'[b].pages ensures FrameEntry(pt, home, place, b, f) {
      FrameOf(pt, boxes, home, place, b, f);
    }
    forall b | b in boxes' ensures ListEntry(boxes'[b]) {
      if b in boxes {
        ListOf(pt, boxes, home, place, b);
      }
    }
    SameKeys(pt, boxes, home, place);
    Entered(pt, boxes', home, place);
  }

  lemma SameKeys(pt: map<nat, nat>, boxes: map<nat, Box>, home: map<nat, nat>, place: map<nat, nat>)
    requires Ledger(pt, boxes, home, place)
    ensures home.Keys == pt.Keys
  {
  }

  lemma LocatedOutside(rs: seq<Region>, pt: map<nat, nat>, home: map<nat, nat>, q: nat, n: nat)
    requires Located(rs, pt, home)
    ensures Located(rs, Outside(pt, q, n), Outside(home, q, n))
  {
    forall p | p in Outside(pt, q, n) ensures HasBox(rs, p, Outside(home, q, n)[p]) {
      assert HasBox(rs, p, home[p]);
    }
  }
}
