/** Slabs of hal/x86/kmsob.c as values: a slab is a block of pages with a header, cut into slots of one
    size, with extension blocks added when it is full. */
module Slab {
  import opened Bits

  const PAGE: nat := 0x1000
  const KMSOB: nat := 368 // bytes of kmsob_t, the header of a slab
  const KMBEXT: nat := 48 // bytes of kmbext_t, the header of an extension
  const FREOBJH: nat := 32 // bytes of freobjh_t, the link in a free slot
  const CLASSES: nat := 64
  const MSCLST_MAX: nat := 5

  /** A run of pages from the page allocator, `msa` being the descriptor of the first one. */
  datatype Block = Block(page: nat, pages: nat, msa: nat)

  function Base(b: Block): (x: nat) { b.page * PAGE }

  /** The last byte, as so_vend and mt_vend hold it. */
  function End(b: Block): (x: int) { (b.page + b.pages) * PAGE - 1 }

  predicate Apart(b: Block, c: Block) { b.page + b.pages <= c.page || c.page + c.pages <= b.page }

  /** kmsob_t: `exts` is so_mextlst and `lists` are the block lists of mc_lst, all front first; `own` is the
      block on mc_kmobinlst with mc_kmobinpnr pages. */
  datatype Slab = Slab(size: nat, own: Block, exts: seq<Block>, free: seq<nat>, mobjnr: int, fobjnr: int, extnr: int,
                       lists: seq<seq<Block>>, counts: seq<int>)

  // ---------------------------------------------------------------- slots

  /** The slots carved from ap on, in ascending order. */
  function Carve(ap: nat, size: nat, end: int): (l: seq<nat>)
    requires size > 0
    decreases end - ap
  {
    if ap + size > end then [] else [ap] + Carve(ap + size, size, end)
  }

  /** scan_fadrskmsob_isok. */
  predicate SlotTest(start: nat, end: int, size: nat, a: nat)
    requires size > 0
  {
    start <= a && a + size <= end && (a - start) % size == 0
  }

  /** The address test accepts exactly the carved slots. */
  lemma {:induction false} SlotIff(start: nat, end: int, size: nat, a: nat)
    requires size > 0
    ensures a in Carve(start, size, end) <==> SlotTest(start, end, size, a)
    decreases end - start
  {
    if start + size <= end {
      SlotIff(start + size, end, size, a);
      if start < a {
        NextMultiple(a - start, size);
      } else if a == start {
        assert 0 % size == 0;
      }
    }
  }

  lemma NextMultiple(d: int, m: int)
    requires d > 0 && m > 0
    ensures d % m == 0 <==> d >= m && (d - m) % m == 0
  {
    if d < m {
      ModUnique(d, m, 0, d);
    } else {
      var q, r := (d - m) / m, (d - m) % m;
      assert d == (q + 1) * m + r;
      ModUnique(d, m, q + 1, r);
    }
  }

  /** Slots of one block do not overlap and do not repeat. */
  lemma {:induction false} SlotsApart(start: nat, end: int, size: nat)
    requires size > 0
    ensures forall i, j :: 0 <= i < j < |Carve(start, size, end)| ==>
      Carve(start, size, end)[i] + size <= Carve(start, size, end)[j]
    ensures forall i :: 0 <= i < |Carve(start, size, end)| ==> start <= Carve(start, size, end)[i] <= end - size
    decreases end - start
  {
    if start + size <= end {
      SlotsApart(start + size, end, size);
    }
  }

  function Slots(b: Block, head: nat, size: nat): (l: seq<nat>)
    requires size > 0
  {
    Carve(Base(b) + head, size, End(b))
  }

  function ExtSlots(exts: seq<Block>, size: nat): (l: seq<nat>)
    requires size > 0
  {
    if exts == [] then [] else Slots(exts[0], KMBEXT, size) + ExtSlots(exts[1..], size)
  }

  /** Every slot of a slab and its extensions. */
  function AllSlots(s: Slab): (l: seq<nat>)
    requires s.size > 0
  {
    Slots(s.own, KMSOB, s.size) + ExtSlots(s.exts, s.size)
  }

  function Blocks(s: Slab): (l: seq<Block>) { [s.own] + s.exts }

  /** _create_kmsob and kmsob_extn_pages: pages for a slab of this object size. */
  function PagesFor(size: nat): (n: nat) { if 512 < size then 4 else if 128 < size then 2 else 1 }

  /** retn_mscidx of 1, 2 or 4 pages. */
  function ListFor(size: nat): (j: nat) { if 512 < size then 2 else if 128 < size then 1 else 0 }

  ghost predicate AllApart(l: seq<Block>) {
    forall i, j :: 0 <= i < j < |l| ==> Apart(l[i], l[j])
  }

  /** The counters count, and the extension blocks are on the list for their size. */
  ghost predicate Filed(s: Slab) {
    && 32 <= s.size <= 2048
    && s.own.pages == PagesFor(s.size) && (forall b :: b in s.exts ==> b.pages == PagesFor(s.size))
    && AllApart(Blocks(s))
    && s.mobjnr == |AllSlots(s)| && s.fobjnr == |s.free| && s.extnr == |s.exts|
    && |s.lists| == MSCLST_MAX && |s.counts| == MSCLST_MAX
    && (forall j :: 0 <= j < MSCLST_MAX ==>
          s.counts[j] == |s.lists[j]| && s.lists[j] == if j == ListFor(s.size) then s.exts else [])
  }

  /** Live objects and free slots partition the slots. */
  ghost predicate SlabOk(s: Slab, live: set<nat>) {
    Filed(s) && multiset(s.free) + multiset(live) == multiset(AllSlots(s))
  }

  // ---------------------------------------------------------------- the free path finds exactly the slots

  predicate Within(b: Block, head: nat, a: nat, n: nat) { Base(b) + head <= a && a + n <= End(b) }

  /** scan_delkmsob_isok: some block holds [a, a + n) behind its header. */
  predicate Claims(s: Slab, a: nat, n: nat) {
    Within(s.own, KMSOB, a, n) || exists i :: 0 <= i < |s.exts| && Within(s.exts[i], KMBEXT, a, n)
  }

  predicate Spans(b: Block, a: nat, n: nat) { Base(b) <= a && a + n - 1 <= End(b) }

  /** The first extension from i on that spans [a, a + n). */
  function Spanning(exts: seq<Block>, a: nat, n: nat, i: nat): (k: nat)
    requires i <= |exts|
    ensures i <= k <= |exts| && (k < |exts| ==> Spans(exts[k], a, n))
    ensures forall j :: i <= j < k ==> !Spans(exts[j], a, n)
    decreases |exts| - i
  {
    if i == |exts| || Spans(exts[i], a, n) then i else Spanning(exts, a, n, i + 1)
  }

  /** scan_dfszkmsob_isok: a is a slot of the block that spans it. */
  predicate Accepts(s: Slab, a: nat, n: nat)
    requires s.size > 0
  {
    if Spans(s.own, a, n) then SlotTest(Base(s.own) + KMSOB, End(s.own), s.size, a)
    else
      var k := Spanning(s.exts, a, n, 0);
      k < |s.exts| && SlotTest(Base(s.exts[k]) + KMBEXT, End(s.exts[k]), s.size, a)
  }

  lemma {:induction false} InExtSlots(exts: seq<Block>, size: nat, a: nat)
    requires size > 0
    ensures a in ExtSlots(exts, size) <==> exists i :: 0 <= i < |exts| && a in Slots(exts[i], KMBEXT, size)
  {
    if exts != [] {
      InExtSlots(exts[1..], size, a);
      var rest := exts[1..];
      if i :| 0 <= i < |rest| && a in Slots(rest[i], KMBEXT, size) {
        assert a in Slots(exts[i + 1], KMBEXT, size);
      }
      if i :| 0 <= i < |exts| && a in Slots(exts[i], KMBEXT, size) {
        assert i > 0 ==> a in Slots(rest[i - 1], KMBEXT, size);
      }
    }
  }

  lemma SpansOne(b: Block, c: Block, a: nat, n: nat)
    requires Spans(b, a, n) && Spans(c, a, n) && n > 0
    ensures !Apart(b, c)
  {
  }

  /** Both scans together accept an address exactly when it is a slot of the slab. */
  lemma AcceptIff(s: Slab, a: nat, n: nat)
    requires s.size > 0 && 0 < n <= s.size && AllApart(Blocks(s))
    ensures Claims(s, a, n) && Accepts(s, a, n) <==> a in AllSlots(s)
  {
    SlotIff(Base(s.own) + KMSOB, End(s.own), s.size, a);
    InExtSlots(s.exts, s.size, a);
    if Claims(s, a, n) && Accepts(s, a, n) && !Spans(s.own, a, n) {
      var k := Spanning(s.exts, a, n, 0);
      SlotIff(Base(s.exts[k]) + KMBEXT, End(s.exts[k]), s.size, a);
    }
    if i :| 0 <= i < |s.exts| && a in Slots(s.exts[i], KMBEXT, s.size) {
      ExtAccepted(s, a, n, i);
    }
  }

  lemma ExtAccepted(s: Slab, a: nat, n: nat, i: nat)
    requires s.size > 0 && 0 < n <= s.size && AllApart(Blocks(s)) && i < |s.exts|
      && a in Slots(s.exts[i], KMBEXT, s.size)
    ensures Claims(s, a, n) && Accepts(s, a, n)
  {
    SlotIff(Base(s.exts[i]) + KMBEXT, End(s.exts[i]), s.size, a);
    assert Within(s.exts[i], KMBEXT, a, n) && Spans(s.exts[i], a, n);
    assert Blocks(s)[0] == s.own && Blocks(s)[i + 1] == s.exts[i];
    if Spans(s.own, a, n) {
      SpansOne(s.own, s.exts[i], a, n);
    }
    var k := Spanning(s.exts, a, n, 0);
    assert k <= i && Blocks(s)[k + 1] == s.exts[k];
    SpansOne(s.exts[k], s.exts[i], a, n);
  }

  // ---------------------------------------------------------------- slots are distinct

  /** Each slot of b lies inside b. */
  lemma SlotInside(b: Block, head: nat, size: nat, a: nat)
    requires size > 0 && a in Slots(b, head, size)
    ensures Base(b) + head <= a && a + size <= End(b)
  {
    SlotIff(Base(b) + head, End(b), size, a);
  }

  lemma {:induction false} IncreasingOnce(l: seq<nat>, a: nat)
    requires forall i, j :: 0 <= i < j < |l| ==> l[i] < l[j]
    ensures multiset(l)[a] <= 1
  {
    if l != [] {
      IncreasingOnce(l[1..], a);
      assert l == [l[0]] + l[1..];
      assert a == l[0] ==> a !in l[1..];
    }
  }

  lemma SlotsOnce(b: Block, head: nat, size: nat, a: nat)
    requires size > 0
    ensures multiset(Slots(b, head, size))[a] <= 1
  {
    SlotsApart(Base(b) + head, End(b), size);
    IncreasingOnce(Slots(b, head, size), a);
  }

  lemma {:induction false} ExtSlotsOnce(exts: seq<Block>, size: nat, a: nat)
    requires size > 0 && AllApart(exts)
    ensures multiset(ExtSlots(exts, size))[a] <= 1
  {
    if exts != [] {
      ExtSlotsOnce(exts[1..], size, a);
      SlotsOnce(exts[0], KMBEXT, size, a);
      NotInOthers(exts[0], KMBEXT, exts[1..], size, a);
    }
  }

  lemma NotInOthers(b: Block, head: nat, exts: seq<Block>, size: nat, a: nat)
    requires size > 0 && a in Slots(b, head, size) ==> forall i :: 0 <= i < |exts| ==> Apart(b, exts[i])
    requires size > 0
    ensures a in Slots(b, head, size) ==> a !in ExtSlots(exts, size)
  {
    if a in Slots(b, head, size) {
      SlotInside(b, head, size, a);
      InExtSlots(exts, size, a);
      if i :| 0 <= i < |exts| && a in Slots(exts[i], KMBEXT, size) {
        SlotInside(exts[i], KMBEXT, size, a);
      }
    }
  }

  lemma AllSlotsOnce(s: Slab, a: nat)
    requires s.size > 0 && AllApart(Blocks(s))
    ensures multiset(AllSlots(s))[a] <= 1
  {
    assert forall i :: 0 <= i < |s.exts| ==> Blocks(s)[i + 1] == s.exts[i];
    assert AllApart(s.exts);
    assert Blocks(s)[0] == s.own;
    SlotsOnce(s.own, KMSOB, s.size, a);
    ExtSlotsOnce(s.exts, s.size, a);
    NotInOthers(s.own, KMSOB, s.exts, s.size, a);
  }

  /** Every slot lies in one of the blocks. */
  lemma SlotsBlock(s: Slab, a: nat) returns (b: Block)
    requires s.size > 0 && a in AllSlots(s)
    ensures b in Blocks(s) && Base(b) <= a && a + s.size <= End(b)
  {
    if a in Slots(s.own, KMSOB, s.size) {
      SlotInside(s.own, KMSOB, s.size, a);
      b := s.own;
    } else {
      InExtSlots(s.exts, s.size, a);
      var i :| 0 <= i < |s.exts| && a in Slots(s.exts[i], KMBEXT, s.size);
      SlotInside(s.exts[i], KMBEXT, s.size, a);
      b := s.exts[i];
    }
  }

  // ---------------------------------------------------------------- operations

  function Rev(l: seq<nat>): (r: seq<nat>)
    ensures |r| == |l| && multiset(r) == multiset(l)
  {
    if l == [] then [] else assert l == [l[0]] + l[1..]; Rev(l[1..]) + [l[0]]
  }

  /** _create_init_kmsob: a slab with every slot free, the last one first. */
  function Created(size: nat, b: Block): (s: Slab)
    requires size > 0
  {
    var l := Slots(b, KMSOB, size);
    Slab(size, b, [], Rev(l), |l|, |l|, 0, [[], [], [], [], []], [0, 0, 0, 0, 0])
  }

  /** kmsob_extn_pages. */
  function Extended(s: Slab, b: Block): (r: Slab)
    requires s.size > 0 && |s.lists| == MSCLST_MAX && |s.counts| == MSCLST_MAX
  {
    var l, j := Slots(b, KMBEXT, s.size), ListFor(s.size);
    s.(exts := [b] + s.exts, free := Rev(l) + s.free, mobjnr := s.mobjnr + |l|, fobjnr := s.fobjnr + |l|,
       extnr := s.extnr + 1,
       lists := s.lists[j := [b] + s.lists[j]], counts := s.counts[j := s.counts[j] + 1])
  }

  function TookOne(s: Slab): (r: Slab)
    requires s.free != []
  {
    s.(free := s.free[1..], fobjnr := s.fobjnr - 1)
  }

  /** scan_nmszkmsob_isok. */
  predicate CanServe(s: Slab, n: nat) {
    && s.fobjnr >= 1 && s.mobjnr >= 1 && n <= s.size && s.free != []
    && End(s.own) - Base(s.own) + 1 >= PAGE && End(s.own) - Base(s.own) + 1 >= KMSOB + FREOBJH
  }

  function GaveOne(s: Slab, a: nat): (r: Slab) { s.(free := [a] + s.free, fobjnr := s.fobjnr + 1) }

  // ---------------------------------------------------------------- the operations in numbers

  lemma {:induction false} CarveCount(ap: nat, size: nat, end: int)
    requires size > 0 && ap <= end
    ensures |Carve(ap, size, end)| == (end - ap) / size
    decreases end - ap
  {
    if ap + size <= end {
      CarveCount(ap + size, size, end);
      QuotientNext(end - ap, size);
    } else {
      ModUnique(end - ap, size, 0, end - ap);
    }
  }

  lemma {:induction false} CarveAt(ap: nat, size: nat, end: int, k: nat)
    requires size > 0 && k < |Carve(ap, size, end)|
    ensures Carve(ap, size, end)[k] == ap + k * size
    decreases k
  {
    if k > 0 {
      CarveAt(ap + size, size, end, k - 1);
      ProductNext(k - 1, size);
    }
  }

  lemma ProductNext(k: nat, m: nat)
    ensures (k + 1) * m == k * m + m
  {
  }

  lemma QuotientNext(d: int, m: int)
    requires 0 < m <= d
    ensures d / m == 1 + (d - m) / m
  {
    var q, r := (d - m) / m, (d - m) % m;
    assert d == (q + 1) * m + r;
    ModUnique(d, m, q + 1, r);
  }

  lemma {:induction false} RevAt(l: seq<nat>, k: nat)
    requires k < |l|
    ensures Rev(l)[k] == l[|l| - 1 - k]
  {
    if k < |l| - 1 {
      RevAt(l[1..], k);
    }
  }

  /** The slots behind a header: how many there are, and the last one comes first on a free list. */
  lemma SlotsFilled(b: Block, head: nat, size: nat, k: nat)
    requires size > 0 && b.pages > 0 && head < 0x1000
    ensures var n := (b.pages * 0x1000 - 1 - head) / size;
      && |Rev(Slots(b, head, size))| == n
      && (k < n ==> Rev(Slots(b, head, size))[k] == b.page * 0x1000 + head + (n - 1 - k) * size)
  {
    hide Carve, Rev;
    var l := Slots(b, head, size);
    var n := (b.pages * 0x1000 - 1 - head) / size;
    assert End(b) - (Base(b) + head) == b.pages * 0x1000 - 1 - head;
    CarveCount(Base(b) + head, size, End(b));
    if k < n {
      CarveAt(Base(b) + head, size, End(b), n - 1 - k);
      RevAt(l, k);
    }
  }

  /** A new slab in numbers: header 368 bytes, as many slots as fit below the last byte, all free, the last one
      first. */
  lemma CreatedDoes(size: nat, b: Block, k: nat)
    requires size > 0 && b.pages > 0
    ensures var s, n := Created(size, b), (b.pages * 0x1000 - 1 - 368) / size;
      && s.size == size && s.own == b && s.exts == [] && s.extnr == 0
      && s.mobjnr == n && s.fobjnr == n && |s.free| == n
      && (k < n ==> s.free[k] == b.page * 0x1000 + 368 + (n - 1 - k) * size)
      && |s.lists| == 5 && |s.counts| == 5 && (forall j :: 0 <= j < 5 ==> s.lists[j] == [] && s.counts[j] == 0)
  {
    hide Rev, Slots;
    SlotsFilled(b, KMSOB, size, k);
  }

  /** An extension in numbers: header 48 bytes, its slots before the old free ones, the block at the front of the
      extensions and of the list for blocks of 1, 2 or 4 pages. */
  lemma ExtendedDoes(s: Slab, b: Block, k: nat)
    requires s.size > 0 && |s.lists| == 5 && |s.counts| == 5 && b.pages > 0
    ensures var r, n := Extended(s, b), (b.pages * 0x1000 - 1 - 48) / s.size;
      && r.size == s.size && r.own == s.own && r.exts == [b] + s.exts && r.extnr == s.extnr + 1
      && r.mobjnr == s.mobjnr + n && r.fobjnr == s.fobjnr + n && |r.free| == n + |s.free| && r.free[n..] == s.free
      && (k < n ==> r.free[k] == b.page * 0x1000 + 48 + (n - 1 - k) * s.size)
      && |r.lists| == 5 && |r.counts| == 5
      && forall j :: 0 <= j < 5 ==>
           if j == (if s.size <= 128 then 0 else if s.size <= 512 then 1 else 2)
           then r.lists[j] == [b] + s.lists[j] && r.counts[j] == s.counts[j] + 1
           else r.lists[j] == s.lists[j] && r.counts[j] == s.counts[j]
  {
    hide Rev, Slots;
    SlotsFilled(b, KMBEXT, s.size, k);
    var l := Rev(Slots(b, KMBEXT, s.size));
    assert (l + s.free)[|l|..] == s.free;
  }

  /** Pages for an object of n bytes: 1 up to 128 bytes, 2 up to 512, else 4; and the slot it gets, the least multiple
      of 32 that holds it. */
  lemma SizesAre(n: nat)
    requires 1 <= n <= 2048
    ensures SizeOf(ClassOf(n)) % 32 == 0 && n <= SizeOf(ClassOf(n)) < n + 32
    ensures PagesFor(SizeOf(ClassOf(n))) == if n <= 128 then 1 else if n <= 512 then 2 else 4
  {
  }

  lemma CreatedOk(size: nat, b: Block)
    requires 32 <= size <= 2048 && b.pages == PagesFor(size)
    ensures SlabOk(Created(size, b), {}) && Created(size, b).free != []
  {
    var s := Created(size, b);
    assert AllSlots(s) == Slots(b, KMSOB, size);
    HasSlot(b, KMSOB, size);
  }

  lemma ExtendedOk(s: Slab, live: set<nat>, b: Block)
    requires SlabOk(s, live) && b.pages == PagesFor(s.size) && forall c :: c in Blocks(s) ==> Apart(b, c)
    ensures SlabOk(Extended(s, b), live) && Extended(s, b).free != []
    ensures multiset(Blocks(Extended(s, b))) == multiset(Blocks(s)) + multiset{b}
  {
    hide AllSlots, Slots;
    var r := Extended(s, b);
    ExtendedSlots(s, b);
    HasSlot(b, KMBEXT, s.size);
    ApartInsert(s.own, s.exts, b);
    assert multiset(r.free) == multiset(Slots(b, KMBEXT, s.size)) + multiset(s.free);
    assert Blocks(r) == [s.own] + ([b] + s.exts);
  }

  lemma ExtendedSlots(s: Slab, b: Block)
    requires s.size > 0 && |s.lists| == MSCLST_MAX && |s.counts| == MSCLST_MAX
    ensures var r := Extended(s, b);
      && multiset(AllSlots(r)) == multiset(AllSlots(s)) + multiset(Slots(b, KMBEXT, s.size))
      && |AllSlots(r)| == |AllSlots(s)| + |Slots(b, KMBEXT, s.size)|
  {
    hide Slots;
    var r := Extended(s, b);
    assert r.exts[1..] == s.exts;
    assert ExtSlots(r.exts, s.size) == Slots(b, KMBEXT, s.size) + ExtSlots(s.exts, s.size);
  }

  /** Every block has room for at least one object behind its header. */
  lemma HasSlot(b: Block, head: nat, size: nat)
    requires 0 < size <= 2048 && b.pages == PagesFor(size) && head <= KMSOB
    ensures Slots(b, head, size) != []
  {
  }

  lemma ApartInsert(own: Block, exts: seq<Block>, b: Block)
    requires AllApart([own] + exts) && forall c :: c in [own] + exts ==> Apart(b, c)
    ensures AllApart([own] + ([b] + exts))
  {
    var l, r := [own] + exts, [own] + ([b] + exts);
    forall i, j | 0 <= i < j < |r| ensures Apart(r[i], r[j]) {
      assert r[i] == if i == 0 then l[0] else if i == 1 then b else l[i - 1];
      assert r[j] == if j == 1 then b else l[j - 1];
      assert l[0] in l && l[j - 1] in l;
    }
  }

  lemma TookOk(s: Slab, live: set<nat>)
    requires SlabOk(s, live) && s.free != []
    ensures s.free[0] !in live && SlabOk(TookOne(s), live + {s.free[0]})
    ensures s.free[0] in AllSlots(s) && Blocks(TookOne(s)) == Blocks(s)
  {
    hide AllSlots, AllApart;
    AllSlotsOnce(s, s.free[0]);
    SameSlots(s, TookOne(s));
    FrontTaken(s.free, live, AllSlots(s));
  }

  lemma SameSlots(s: Slab, r: Slab)
    requires s.size > 0 && r.size == s.size && r.own == s.own && r.exts == s.exts
    ensures AllSlots(r) == AllSlots(s) && Blocks(r) == Blocks(s)
  {
  }

  /** The front of the free list becomes live, in a list of slots without repetition. */
  lemma FrontTaken(free: seq<nat>, live: set<nat>, slots: seq<nat>)
    requires free != [] && multiset(free) + multiset(live) == multiset(slots) && multiset(slots)[free[0]] <= 1
    ensures free[0] !in live && free[0] in slots
    ensures multiset(free[1..]) + multiset(live + {free[0]}) == multiset(slots)
  {
    var a := free[0];
    assert free == [a] + free[1..];
    assert multiset(free)[a] >= 1;
    assert multiset(live + {a}) == multiset(live) + multiset{a};
    assert a in multiset(slots);
  }

  lemma GaveOk(s: Slab, live: set<nat>, a: nat)
    requires SlabOk(s, live) && a in live
    ensures SlabOk(GaveOne(s, a), live - {a})
  {
    hide AllSlots, AllApart;
    SameSlots(s, GaveOne(s, a));
    LiveFreed(s.free, live, a);
  }

  lemma LiveFreed(free: seq<nat>, live: set<nat>, a: nat)
    requires a in live
    ensures multiset([a] + free) + multiset(live - {a}) == multiset(free) + multiset(live)
  {
    assert multiset(live) == multiset(live - {a}) + multiset{a};
  }

  /** A slot given back while it is free leaves the slab wrong for every set of live objects. */
  lemma GaveTwice(s: Slab, live: set<nat>, a: nat, other: set<nat>)
    requires SlabOk(s, live) && a in s.free
    ensures !SlabOk(GaveOne(s, a), other)
  {
    var r := GaveOne(s, a);
    AllSlotsOnce(s, a);
    assert multiset(r.free)[a] == 1 + multiset(s.free)[a];
  }

  /** so_mobjnr exceeds so_fobjnr exactly when an object is live. */
  lemma CountsLive(s: Slab, live: set<nat>)
    requires SlabOk(s, live)
    ensures s.mobjnr == s.fobjnr + |live|
  {
    assert |multiset(s.free) + multiset(live)| == |s.free| + |live|;
    assert |multiset(AllSlots(s))| == |AllSlots(s)|;
  }

  // ---------------------------------------------------------------- all classes together

  /** The object size of class i, ol_sz. */
  function SizeOf(i: nat): (n: nat) { 32 * (i + 1) }

  /** onmsz_retn_koblst: the first class whose objects are large enough. */
  function ClassOf(n: nat): (i: nat)
    requires 1 <= n <= 2048
    ensures i < CLASSES && n <= SizeOf(i) && forall j :: 0 <= j < i ==> SizeOf(j) < n
  {
    (n - 1) / 32
  }

  function LiveOf(live: map<nat, nat>, i: nat): (l: set<nat>) { set a | a in live && live[a] == i }

  function Held(l: seq<Slab>): (b: seq<Block>) { if l == [] then [] else Blocks(l[0]) }

  /** A class has no slab and no object, or one slab with a live object. */
  ghost predicate ClassOk(l: seq<Slab>, i: nat, live: map<nat, nat>) {
    if l == [] then LiveOf(live, i) == {}
    else |l| == 1 && l[0].size == SizeOf(i) && SlabOk(l[0], LiveOf(live, i)) && LiveOf(live, i) != {}
  }

  ghost predicate Between(l: seq<Slab>, m: seq<Slab>) {
    forall b, c :: b in Held(l) && c in Held(m) ==> Apart(b, c)
  }

  /** `live` names the class of every object handed out. */
  ghost predicate Good(ls: seq<seq<Slab>>, live: map<nat, nat>) {
    && |ls| == CLASSES
    && (forall a :: a in live ==> live[a] < CLASSES)
    && (forall i :: 0 <= i < CLASSES ==> ClassOk(ls[i], i, live))
    && (forall i, j :: 0 <= i < j < CLASSES ==> Between(ls[i], ls[j]))
  }

  /** Two live objects never share a byte, whatever their classes. */
  lemma LiveApart(ls: seq<seq<Slab>>, live: map<nat, nat>, x: nat, y: nat)
    requires Good(ls, live) && x in live && y in live && x < y
    ensures x + SizeOf(live[x]) <= y
  {
    var i, j := live[x], live[y];
    var s := LiveSlot(ls, live, x);
    var t := LiveSlot(ls, live, y);
    var b := SlotsBlock(s, x);
    var c := SlotsBlock(t, y);
    if i == j {
      SameSlab(s, x, y);
    } else {
      assert Between(ls[if i < j then i else j], ls[if i < j then j else i]);
      assert Apart(b, c) || Apart(c, b);
    }
  }

  lemma LiveSlot(ls: seq<seq<Slab>>, live: map<nat, nat>, x: nat) returns (s: Slab)
    requires Good(ls, live) && x in live
    ensures live[x] < CLASSES && ls[live[x]] == [s] && s.size == SizeOf(live[x]) && AllApart(Blocks(s))
      && x in AllSlots(s)
  {
    var i := live[x];
    assert ClassOk(ls[i], i, live);
    assert x in LiveOf(live, i);
    s := ls[i][0];
    assert x in multiset(LiveOf(live, i));
    assert x in multiset(AllSlots(s));
  }

  lemma SameSlab(s: Slab, x: nat, y: nat)
    requires s.size > 0 && AllApart(Blocks(s)) && x in AllSlots(s) && y in AllSlots(s) && x < y
    ensures x + s.size <= y
  {
    var b := SlotsBlock(s, x);
    var c := SlotsBlock(s, y);
    var i :| 0 <= i < |Blocks(s)| && Blocks(s)[i] == b;
    var j :| 0 <= j < |Blocks(s)| && Blocks(s)[j] == c;
    if i == j {
      SameBlock(s, i, x, y);
    }
  }

  lemma SameBlock(s: Slab, i: nat, x: nat, y: nat)
    requires s.size > 0 && AllApart(Blocks(s)) && x in AllSlots(s) && y in AllSlots(s) && x < y && i < |Blocks(s)|
    requires var b := Blocks(s)[i]; Base(b) <= x && x + s.size <= End(b) && Base(b) <= y && y + s.size <= End(b)
    ensures x + s.size <= y
  {
    var head := if i == 0 then KMSOB else KMBEXT;
    var b := Blocks(s)[i];
    InBlock(s, i, x);
    InBlock(s, i, y);
    SlotsApart(Base(b) + head, End(b), s.size);
  }

  lemma InBlock(s: Slab, i: nat, x: nat)
    requires s.size > 0 && AllApart(Blocks(s)) && x in AllSlots(s) && i < |Blocks(s)|
    requires var b := Blocks(s)[i]; Base(b) <= x && x + s.size <= End(b)
    ensures x in Slots(Blocks(s)[i], if i == 0 then KMSOB else KMBEXT, s.size)
  {
    hide AllApart;
    var l := Blocks(s);
    if x in Slots(s.own, KMSOB, s.size) {
      SlotInside(s.own, KMSOB, s.size, x);
      assert l[0] == s.own;
      if i != 0 {
        ApartPair(l, 0, i);
      }
    } else {
      InExtSlots(s.exts, s.size, x);
      var k :| 0 <= k < |s.exts| && x in Slots(s.exts[k], KMBEXT, s.size);
      SlotInside(s.exts[k], KMBEXT, s.size, x);
      assert l[k + 1] == s.exts[k];
      if i != k + 1 {
        ApartPair(l, i, k + 1);
      }
    }
  }

  lemma ApartPair(l: seq<Block>, i: nat, j: nat)
    requires AllApart(l) && i < |l| && j < |l| && i != j
    ensures Apart(l[i], l[j])
  {
    assert i < j ==> Apart(l[i], l[j]);
    assert j < i ==> Apart(l[j], l[i]);
  }

  /** Replacing the slab of one class by another that holds no block of a different class. */
  lemma ClassChange(ls: seq<seq<Slab>>, live: map<nat, nat>, i: nat, l: seq<Slab>, live': map<nat, nat>)
    requires Good(ls, live) && i < CLASSES && ClassOk(l, i, live') && (forall a :: a in live' ==> live'[a] < CLASSES)
    requires forall j :: 0 <= j < CLASSES && j != i ==> LiveOf(live', j) == LiveOf(live, j) && Between(l, ls[j])
    ensures Good(ls[i := l], live')
  {
    hide Between, SlabOk;
    var ls' := ls[i := l];
    forall j | 0 <= j < CLASSES ensures ClassOk(ls'[j], j, live') {
      assert ClassOk(ls[j], j, live);
    }
    hide ClassOk;
    forall j, k | 0 <= j < k < CLASSES ensures Between(ls'[j], ls'[k]) {
      if k == i {
        BetweenSym(l, ls[j]);
      }
    }
  }

  lemma BetweenSym(l: seq<Slab>, m: seq<Slab>)
    requires Between(l, m)
    ensures Between(m, l)
  {
    forall b, c | b in Held(m) && c in Held(l) ensures Apart(b, c) {
      assert Apart(c, b);
    }
  }
}
