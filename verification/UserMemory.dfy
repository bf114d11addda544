/** The address space of a process with its page tables: kernel/krlvadrsmem.c on top of hal/x86/halmmu.c. Faults map
    through the tables and deletes unmap through them, and the regions' view of what is mapped is proved to be
    what the tables translate. */
module UserMemory {
  import opened Bits
  import opened Options
  import R = Regions
  import B = Boxes
  import V = Vma
  import U = UserSpace
  import T = PageTable
  import P = PageMap
  import M = Mmu

  const PRESENT: nat := 1  // PML4E_P
  const WRITABLE: nat := 2 // PML4E_RW
  const USER: nat := 4     // PML4E_US
  const USER_FLAGS: nat := USER + WRITABLE + PRESENT

  // ---------------------------------------------------------------- what the processor sees

  /** An entry the processor follows for a write in user mode. */
  predicate Follows(e: nat) { e % 2 == 1 && e / WRITABLE % 2 == 1 && e / USER % 2 == 1 }

  /** The bits of an address that index its table of level l. */
  function Digit(v: nat, l: nat): (i: nat)
    requires l < 4
    ensures i < 512
  {
    if l == 0 then v / 0x80_0000_0000 % 512 else if l == 1 then v / 0x4000_0000 % 512
    else if l == 2 then v / 0x20_0000 % 512 else v / 0x1000 % 512
  }

  /** The processor's walk for a write in user mode, as the manual describes it: l tables down from the one at
      `root`, 4 being the page. */
  function Walk(mem: map<nat, seq<nat>>, root: nat, v: nat, l: nat): (r: Option<nat>)
    requires l <= 4
    decreases l
  {
    if l == 0 then Some(root)
    else
      var y := Walk(mem, root, v, l - 1);
      if y.None? || y.value !in mem || |mem[y.value]| != 512 then None
      else
        var e := mem[y.value][Digit(v, l - 1)];
        if Follows(e) then Some(e / 0x1000 % 0x100_0000_0000 * 0x1000) else None
  }

  lemma DigitIsIndex(v: nat, l: nat)
    requires v < T.USER_LIMIT && l < 4
    ensures T.Index(v, l) == Digit(v, l)
  {
    hide T.Index;
    T.IndexDigits(v);
    assert v / 0x80_0000_0000 == (v / T.PAGE) / 0x800_0000 < 256;
    assert v / 0x4000_0000 == (v / T.PAGE) / 0x4_0000;
    assert v / 0x20_0000 == (v / T.PAGE) / 512;
  }

  /** An entry in use with the user flags is followed, and an unused one is not. */
  lemma FollowsIff(e: nat)
    requires T.Have(e) ==> e % T.PAGE == USER_FLAGS
    requires !T.Have(e) ==> e == 0
    ensures Follows(e) <==> T.Have(e)
  {
    if T.Have(e) {
      LowBits(e);
    }
  }

  lemma LowBits(e: nat)
    requires e % T.PAGE == USER_FLAGS
    ensures Follows(e)
  {
    ThreeOnes(e, e / T.PAGE);
  }

  lemma ThreeOnes(e: nat, q: nat)
    requires e == q * 4096 + 7
    ensures e % 2 == 1 && e / 2 % 2 == 1 && e / 4 % 2 == 1
  {
    ModUnique(e, 2, q * 2048 + 3, 1);
    ModUnique(e / 2, 2, q * 1024 + 1, 1);
    ModUnique(e, 4, q * 1024 + 1, 3);
    ModUnique(e / 4, 2, q * 512, 1);
  }

  /** Where every entry in use has the user flags, the processor finds what the kernel finds. */
  lemma {:induction false} WalkIsFind(sp: T.Space, v: nat, l: nat)
    requires T.Tree(sp) && P.Flagged(sp, USER_FLAGS) && v < T.USER_LIMIT && l <= 4
    ensures Walk(sp.mem, sp.root, v, l) == T.Find(sp, v, l)
    decreases l
  {
    hide T.Tree, T.Find, T.Have, T.Target, Follows;
    if l == 0 {
      P.RootIsFound(sp, v);
    } else {
      WalkIsFind(sp, v, l - 1);
      if T.Find(sp, v, l - 1).Some? {
        P.FindStep(sp, v, l);
        DigitIsIndex(v, l - 1);
        var e := sp.mem[T.Find(sp, v, l - 1).value][T.Index(v, l - 1)];
        T.NoEntry();
        FollowsIff(e);
        TargetIs(e);
      } else {
        NothingFound(sp, v, l);
      }
    }
  }

  lemma TargetIs(e: nat)
    ensures T.Target(e) == e / 0x1000 % 0x100_0000_0000 * 0x1000
  {
  }

  lemma NothingFound(sp: T.Space, v: nat, l: nat)
    requires 1 <= l <= 4 && T.Find(sp, v, l - 1).None?
    ensures T.Find(sp, v, l).None?
  {
  }

  // ---------------------------------------------------------------- the tables and the map of the regions

  /** Mapping one page in both. */
  lemma MapBoth(sp: T.Space, sp': T.Space, m: map<nat, nat>, v: nat, p: nat)
    requires P.Refines(sp, m) && P.Remapped(sp, sp', v, Some(p))
    ensures P.Refines(sp', m[v / R.PAGE := p])
  {
    hide T.Translate;
  }

  /** Unmapping one page in both. */
  lemma UnmapBoth(sp: T.Space, sp': T.Space, m: map<nat, nat>, v: nat)
    requires P.Refines(sp, m) && P.Remapped(sp, sp', v, None)
    ensures P.Refines(sp', m - {v / R.PAGE})
  {
    hide T.Translate;
  }

  lemma Looked(sp: T.Space, m: map<nat, nat>, v: nat)
    requires P.Refines(sp, m) && v < T.USER_LIMIT
    ensures T.Translate(sp, v) == if v / R.PAGE in m then Some(m[v / R.PAGE]) else None
  {
    hide T.Translate;
  }

  // ---------------------------------------------------------------- table pages and frames

  /** No frame of the process is a page of its tables. */
  ghost predicate Apart(m: map<nat, nat>, tables: map<nat, seq<nat>>) {
    forall q :: q in m ==> m[q] !in tables
  }

  ghost function Offered(offers: seq<Option<nat>>): (r: set<nat>) {
    set i | 0 <= i < |offers| && offers[i].Some? :: offers[i].value
  }

  /** A transform takes no page but those it is offered. */
  lemma {:induction false} TransformTakes(sp: T.Space, v: nat, p: nat, flags: nat, offers: seq<Option<nat>>, l: nat)
    requires 1 <= l <= 4 && |sp.lists| == 4 && |offers| == 3
    ensures var (s, ok) := P.TransformFrom(sp, v, p, flags, offers, l);
      ok ==> s.mem.Keys <= sp.mem.Keys + Offered(offers)
    decreases 4 - l
  {
    hide T.Find, T.Index, T.Entry, P.ReclaimUp;
    if l < 4 {
      var s := P.Ensure(sp, v, flags, l, offers[l - 1]);
      if s.Some? {
        TransformTakes(s.value, v, p, flags, offers, l + 1);
      }
    }
  }

  lemma {:induction false} ReclaimShrinks(sp: T.Space, v: nat, l: nat)
    requires l <= 3
    ensures P.ReclaimUp(sp, v, l).mem.Keys <= sp.mem.Keys
    decreases l
  {
    hide T.Find;
    if l > 0 {
      ReclaimShrinks(P.Reclaim(sp, v, l), v, l - 1);
    }
  }

  lemma UntransformShrinks(sp: T.Space, v: nat)
    ensures P.Untransform(sp, v).0.mem.Keys <= sp.mem.Keys
  {
    hide T.Find, T.Index, P.ReclaimUp;
    ReclaimShrinks(sp, v, 1);
    ReclaimShrinks(sp, v, 2);
    ReclaimShrinks(sp, v, 3);
    var y := T.Find(sp, v, 3);
    if y.Some? && y.value in sp.mem && |sp.mem[y.value]| == T.ENTRIES {
      ReclaimShrinks(T.Leaf(sp, y.value, T.Index(v, 3), 0), v, 3);
    }
  }

  class Memory {
    const space: U.Space
    const tables: M.AddressSpace

    /** The tables are in order with user flags throughout, translate exactly what the regions have mapped, and no
        frame is a table. */
    ghost predicate Mirrored()
      reads space, tables
    {
      && tables.Valid() && tables.root.Some? && space.limit <= T.USER_LIMIT
      && P.Refines(tables.View(), space.pt) && Apart(space.pt, tables.mem) && P.Flagged(tables.View(), USER_FLAGS)
    }

    /** The processor reaches exactly the pages the regions have mapped, and at their frames. */
    lemma ProcessorSees(v: nat)
      requires Mirrored() && v < T.USER_LIMIT
      ensures Walk(tables.mem, tables.root.value, v, 4)
        == if v / R.PAGE in space.pt then Some(space.pt[v / R.PAGE]) else None
    {
      hide T.Tree, P.Refines, P.Flagged, T.Find, Walk, T.NoEmpty;
      WalkIsFind(tables.View(), v, 4);
      Looked(tables.View(), space.pt, v);
    }

    ghost predicate Valid()
      reads space, tables
    {
      space.Valid() && Mirrored()
    }

    /** kvma_inituserspace_virmemadrs and hal_mmu_init: nothing is mapped. */
    constructor (a: Option<nat>, h: Option<nat>, s: Option<nat>, root: nat, kernel: seq<nat>)
      requires a.Some? && h.Some? && s.Some? ==> a != h && h != s && a != s
      requires T.IsPage(root) && |kernel| == T.ENTRIES && forall i :: 1 <= i < T.USER_SLOTS ==> kernel[i] == 0
      ensures Valid() && space.pt == map[] && fresh(space) && fresh(tables)
    {
      hide U.Space.Valid, P.Refines, P.Good, T.IsPage;
      space := new U.Space(a, h, s);
      tables := new M.AddressSpace();
      new;
      var ok := tables.Init(Some(root), kernel);
      FreshFlags(tables.View());
    }

    /** hal_mmu_transform for a fault on address x. */
    method MapIn(x: nat, f: nat, offers: seq<Option<nat>>) returns (ok: bool)
      requires tables.Valid() && tables.root.Some? && P.Refines(tables.View(), space.pt) && Apart(space.pt, tables.mem)
      requires x < T.USER_LIMIT && T.IsPage(f) && f !in tables.mem
      requires P.FreshPages(tables.View(), offers, 1) && Offered(offers) !! space.pt.Values + {f}
      requires P.Flagged(tables.View(), USER_FLAGS)
      modifies tables`mem, tables`heads, tables`counts, tables`own, tables`taken, tables`released
      ensures tables.Valid()
      ensures ok <==> forall l :: 1 <= l <= 3 ==> P.Supplied(old(tables.View()), x, offers, l)
      ensures var m := if ok then space.pt[x / R.PAGE := f] else space.pt;
        P.Refines(tables.View(), m) && Apart(m, tables.mem) && P.Flagged(tables.View(), USER_FLAGS)
      ensures ok ==> P.Entered(old(tables.View()), tables.View(), x, f, USER_FLAGS, offers, 1)
      ensures !ok ==> tables.mem == old(tables.mem)
    {
      hide P.Entered, P.Flagged, P.Refines, P.Remapped, P.Transform, P.Supplied, P.FreshPages, P.Good, T.IsPage;
      hide M.AddressSpace.Counted;
      ghost var sp := tables.View();
      FourLists(sp, offers);
      TransformTakes(sp, x, f, USER_FLAGS, offers, 1);
      Taken(sp, x, f, offers);
      ok := tables.MapPage(x, f, USER_FLAGS, offers);
      if ok {
        MapBoth(sp, tables.View(), space.pt, x, f);
        MapFlags(sp, tables.View(), x, f, offers);
        assert forall q :: q in space.pt ==> space.pt[q] in space.pt.Values;
      } else {
        assert tables.View() == sp;
      }
    }

    /** vma_map_fairvadrs with the tables: a fault maps the frame exactly when the tables can be made, and then the
        hardware translates its page to the frame and every other page as before. */
    method Fault(x: nat, offer: Option<nat>, frame: Option<nat>, offers: seq<Option<nat>>, file: Option<nat -> bv8>)
      returns (c: V.Code)
      requires Valid() && (offer.Some? ==> offer.value !in space.boxes)
      requires frame.Some? ==> T.IsPage(frame.value) && frame.value !in space.pt.Values && frame.value !in tables.mem
      requires P.FreshPages(tables.View(), offers, 1) && Offered(offers) !! space.pt.Values
      requires frame.Some? ==> frame.value !in Offered(offers)
      modifies space, tables
      ensures Mirrored()
      ensures x / R.PAGE !in old(space.pt) || (c != V.Done && c != V.Stopped) ==> Valid()
      ensures c == var i := R.At(old(space.regions), x);
        if x < R.PAGE || V.USER_END < x then V.BadParameter
        else if i == |old(space.regions)| then V.BadAddress
        else if old(space.regions)[i].box.None? && old(space.cache) == [] && offer.None? then V.Stopped
        else if frame.None? || exists l :: 1 <= l <= 3 && !P.Supplied(old(tables.View()), x, offers, l) then V.NoMemory
        else if old(space.regions)[i].kind == V.BIN_TYPE && file.None? then V.Stopped else V.Done
      ensures c == V.Done ==> space.pt == old(space.pt)[x / R.PAGE := frame.value]
      ensures c == V.Done ==> T.Translate(tables.View(), x) == Some(frame.value)
      ensures c == V.Done ==> Walk(tables.mem, tables.root.value, x, 4) == Some(frame.value)
      ensures c == V.Done ==> P.Entered(old(tables.View()), tables.View(), x, frame.value, USER_FLAGS, offers, 1)
      ensures c != V.Done && c != V.Stopped ==> space.pt == old(space.pt) && tables.mem == old(tables.mem)
    {
      hide U.Space.Valid, M.AddressSpace.Valid, P.Refines, T.IsPage, P.Supplied, P.FreshPages, R.At, Apart, Walk;
      hide P.Entered, P.Flagged;
      if x < R.PAGE || V.USER_END < x {
        return V.BadParameter;
      }
      SpaceSorted();
      var i := space.FindAt(x);
      if i == |space.regions| {
        return V.BadAddress;
      }
      var b := space.BoxOf(i, offer);
      if b.None? {
        return V.Stopped;
      }
      var maps := false;
      if frame.Some? {
        PageBelow(x, frame.value);
        maps := MapIn(x, frame.value, offers);
      }
      c := space.FillPage(i, x, frame, maps, file);
      if c == V.Done {
        Looked(tables.View(), space.pt, x);
        ProcessorSees(x);
      }
    }

    /** The loop of vma_del_unmapping_phyadrs on the tables, with what hal_mmu_untransform returned. */
    method UnmapRange(s: nat, e: nat, ghost m: map<nat, nat>) returns (frames: seq<nat>)
      requires tables.Valid() && tables.root.Some? && (s < e ==> e <= T.USER_LIMIT)
      requires P.Refines(tables.View(), m) && Apart(m, tables.mem) && P.Flagged(tables.View(), USER_FLAGS)
      modifies tables`mem, tables`heads, tables`counts, tables`own, tables`released
      ensures tables.Valid() && frames == B.Frames(m, s / R.PAGE, U.Turns(s, e))
      ensures var r := B.Outside(m, s / R.PAGE, U.Turns(s, e)); P.Refines(tables.View(), r) && Apart(r, tables.mem)
      ensures P.Flagged(tables.View(), USER_FLAGS)
    {
      hide P.Flagged, P.Refines, P.Remapped, P.Untransform, P.Good, M.AddressSpace.Counted, B.Outside, Apart;
      hide T.Translate;
      frames := [];
      hide U.Turns;
      var v := s;
      ghost var q, k := s / R.PAGE, 0;
      U.NoTurns(s, e);
      B.OutsideStep(m, q, 0);
      while v < e
        invariant v == s + k * R.PAGE && k <= U.Turns(s, e) && (v >= e ==> k == U.Turns(s, e))
        invariant tables.Valid() && frames == B.Frames(m, q, k)
        invariant P.Refines(tables.View(), B.Outside(m, q, k)) && Apart(B.Outside(m, q, k), tables.mem)
        invariant P.Flagged(tables.View(), USER_FLAGS)
      {
        U.TurnStep(s, e, k);
        B.OutsideStep(m, q, k);
        ghost var sp := tables.View();
        Looked(sp, B.Outside(m, q, k), v);
        UntransformShrinks(sp, v);
        P.UntransformFlags(sp, v, USER_FLAGS);
        var r := tables.UnmapPage(v);
        UnmapBoth(sp, tables.View(), B.Outside(m, q, k), v);
        StillApart(B.Outside(m, q, k), sp.mem, q + k, tables.mem);
        if r.Some? {
          frames := frames + [r.value];
        }
        v, k := v + R.PAGE, k + 1;
      }
    }

    /** vma_del_vadrs with the tables: the frames given back are exactly those the tables had at the pages of the
        range, and afterwards the tables translate exactly what is still mapped, whatever the range was. */
    method GiveBack(start: nat, size: nat, offer: Option<nat>) returns (ok: bool, frames: seq<nat>)
      requires Valid() && (offer.Some? ==> !R.Listed(space.regions, offer.value)) && start < TWO64 && size < TWO64
      modifies space, tables
      ensures Mirrored() && space.released == old(space.released) + frames
      ensures !ok ==> space.pt == old(space.pt) && frames == []
      ensures ok <==>
        size > 0 && start != 0 && V.Round64(size) >= R.PAGE && old(space.CanCut(start, V.Round64(size), offer))
      ensures ok ==> space.Given(start, V.Round64(size), offer)
    {
      hide P.Flagged, U.Space.Valid, M.AddressSpace.Valid, P.Refines, Apart, U.Space.CanCut, U.Turns, B.Outside;
      hide B.Frames;
      SpaceSorted();
      ghost var rs, at := space.regions, U.Spot(space.regions, space.curr);
      ok := space.GiveBack(start, size, offer);
      if !ok {
        return false, [];
      }
      var e := Add64(start, V.Round64(size));
      EndBelow(rs, space.limit, U.AroundCached(rs, at, start, e), e);
      frames := UnmapRange(start, e, old(space.pt));
    }

    lemma SpaceSorted()
      requires space.Valid()
      ensures R.Sorted(space.regions) && R.Aligned(space.regions, space.limit)
    {
    }

    lemma PageBelow(x: nat, f: nat)
      requires x <= V.USER_END && T.IsPage(f)
      ensures x < T.USER_LIMIT && f != 0
    {
    }
  }

  /** The end of a range inside a region lies below the limit. */
  lemma EndBelow(rs: seq<R.Region>, limit: nat, i: nat, e: nat)
    requires R.Aligned(rs, limit) && i < |rs| && e <= rs[i].end && limit <= T.USER_LIMIT
    ensures e <= T.USER_LIMIT
  {
  }

  lemma StillApart(m: map<nat, nat>, mem: map<nat, seq<nat>>, q: nat, mem': map<nat, seq<nat>>)
    requires Apart(m, mem) && mem'.Keys <= mem.Keys
    ensures Apart(m - {q}, mem')
  {
  }

  /** A root with an empty user half has no entry in use. */
  lemma FreshFlags(sp: T.Space)
    requires P.Good(sp) && sp.own == map[]
    ensures P.Flagged(sp, USER_FLAGS)
  {
    hide T.Have, T.Target;
    forall y: nat, i: nat | T.Slot(sp, y, i) ensures !T.Have(sp.mem[y][i]) {
      assert T.LevelOf(sp, y) == 0;
    }
  }

  lemma MapFlags(sp: T.Space, s: T.Space, x: nat, f: nat, offers: seq<Option<nat>>)
    requires P.Good(sp) && P.Good(s) && s.root == sp.root && |offers| == 3 && P.Flagged(sp, USER_FLAGS)
    requires P.Entered(sp, s, x, f, USER_FLAGS, offers, 1)
    ensures P.Flagged(s, USER_FLAGS)
  {
    hide P.Entered, P.Flagged, T.Parents, T.Children, T.Tidy, T.Listed;
    P.EnteredFlags(sp, s, x, f, USER_FLAGS, offers);
  }

  lemma FourLists(sp: T.Space, offers: seq<Option<nat>>)
    requires P.Good(sp) && P.FreshPages(sp, offers, 1)
    ensures |sp.lists| == 4 && |offers| == 3
  {
  }

  lemma Taken(sp: T.Space, v: nat, p: nat, offers: seq<Option<nat>>)
    requires |sp.lists| == 4 && |offers| == 3
    ensures P.Transform(sp, v, p, USER_FLAGS, offers) == P.TransformFrom(sp, v, p, USER_FLAGS, offers, 1)
  {
  }
}
