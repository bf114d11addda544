/** Thread lists of kernel/krlsched.c, kernel/krlsem.c and kernel/krlwaitlist.c as values: one lane per
    priority, semaphores with wait lists, and what each locked section does to them. */
module Threads {
  import opened Options

  const PRITY_MAX: nat := 64

  datatype Status = Run | New | Wait | Exit

  datatype Info = Info(prio: nat, status: Status)

  /** thrdlst_t: ready list front first, tdl_curruntd, tdl_nr. */
  datatype Lane = Lane(ready: seq<nat>, slot: Option<nat>, nr: int)

  /** sem_t with its wait list front first and wl_tdnr; `start`, `ups` and `downs` are history. */
  datatype Sem = Sem(count: int, wait: seq<nat>, nr: int, start: int, ups: nat, downs: nat)

  /** schdata_t of the one processor with the semaphores in use; `info` holds every created thread but idle. */
  datatype State = State(info: map<nat, Info>, lanes: seq<Lane>, sems: seq<Sem>, gone: seq<nat>, curr: nat, idle: nat)

  // ---------------------------------------------------------------- bags

  /** How often t occurs in the bags together. */
  function Times(bags: seq<multiset<nat>>, t: nat): (k: nat) {
    if bags == [] then 0 else bags[0][t] + Times(bags[1..], t)
  }

  lemma {:induction false} TimesUpdate(bags: seq<multiset<nat>>, i: nat, x: multiset<nat>, t: nat)
    requires i < |bags|
    ensures Times(bags[i := x], t) + bags[i][t] == Times(bags, t) + x[t]
  {
    if i == 0 {
      assert bags[i := x][1..] == bags[1..];
    } else {
      TimesUpdate(bags[1..], i - 1, x, t);
      assert bags[i := x][1..] == bags[1..][i - 1 := x];
    }
  }

  /** No bag exceeds the total, nor do two of them together. */
  lemma TimesAt(bags: seq<multiset<nat>>, i: nat, j: nat, t: nat)
    requires i < |bags| && j < |bags|
    ensures bags[i][t] <= Times(bags, t) && (i != j ==> bags[i][t] + bags[j][t] <= Times(bags, t))
  {
    var rest := bags[i := multiset{}];
    TimesUpdate(bags, i, multiset{}, t);
    TimesUpdate(rest, j, multiset{}, t);
  }

  /** The state a thread in bag i must have: lanes, then wait lists, then the exit list. */
  predicate Fits(n: nat, x: Info, i: nat) {
    && x.prio < PRITY_MAX
    && if i < PRITY_MAX then x.prio == i && (x.status == Run || x.status == New)
       else if i < PRITY_MAX + n then x.status == Wait
       else x.status == Exit
  }

  /** Every thread is in exactly one bag, once, and its state agrees with the bag. */
  ghost predicate Placed(bags: seq<multiset<nat>>, info: map<nat, Info>, n: nat) {
    && (forall t :: Times(bags, t) == if t in info then 1 else 0)
    && forall i, t :: 0 <= i < |bags| && t in bags[i] ==> t in info && Fits(n, info[t], i)
  }

  lemma PlacedOnce(bags: seq<multiset<nat>>, info: map<nat, Info>, n: nat, i: nat, j: nat, t: nat)
    requires Placed(bags, info, n) && i < |bags| && j < |bags| && t in bags[i]
    ensures bags[i][t] == 1 && (t in bags[j] ==> i == j)
  {
    TimesAt(bags, i, j, t);
  }

  function Moved(bags: seq<multiset<nat>>, i: nat, j: nat, t: nat): (r: seq<multiset<nat>>)
    requires i < |bags| && j < |bags| && i != j
  {
    bags[i := bags[i] - multiset{t}][j := bags[j] + multiset{t}]
  }

  /** Moving a thread to another bag with a state that fits there. */
  lemma MoveKeeps(bags: seq<multiset<nat>>, info: map<nat, Info>, n: nat, i: nat, j: nat, t: nat, x: Info)
    requires Placed(bags, info, n) && i < |bags| && j < |bags| && i != j && t in bags[i] && Fits(n, x, j)
    ensures Placed(Moved(bags, i, j, t), info[t := x], n)
  {
    var r, info' := Moved(bags, i, j, t), info[t := x];
    PlacedOnce(bags, info, n, i, i, t);
    forall u: nat ensures Times(r, u) == if u in info' then 1 else 0 {
      TimesUpdate(bags, i, bags[i] - multiset{t}, u);
      TimesUpdate(bags[i := bags[i] - multiset{t}], j, bags[j] + multiset{t}, u);
    }
    forall k, u | 0 <= k < |r| && u in r[k] ensures u in info' && Fits(n, info'[u], k) {
      if u == t && k != j {
        PlacedOnce(bags, info, n, i, k, t);
      }
    }
  }

  /** A new thread enters a bag. */
  lemma EnterKeeps(bags: seq<multiset<nat>>, info: map<nat, Info>, n: nat, j: nat, t: nat, x: Info)
    requires Placed(bags, info, n) && j < |bags| && t !in info && Fits(n, x, j)
    ensures Placed(bags[j := bags[j] + multiset{t}], info[t := x], n)
  {
    var r, info' := bags[j := bags[j] + multiset{t}], info[t := x];
    forall u: nat ensures Times(r, u) == if u in info' then 1 else 0 {
      TimesUpdate(bags, j, bags[j] + multiset{t}, u);
    }
    forall k, u | 0 <= k < |r| && u in r[k] ensures u in info' && Fits(n, info'[u], k) {
      if u == t && k != j {
        TimesAt(bags, k, k, t);
      }
    }
  }

  /** A thread in lane p changes between new and running. */
  lemma RestateKeeps(bags: seq<multiset<nat>>, info: map<nat, Info>, n: nat, i: nat, t: nat, x: Info)
    requires Placed(bags, info, n) && i < |bags| && t in bags[i] && Fits(n, x, i)
    ensures Placed(bags, info[t := x], n)
  {
    var info' := info[t := x];
    forall k, u | 0 <= k < |bags| && u in bags[k] ensures u in info' && Fits(n, info'[u], k) {
      if u == t {
        PlacedOnce(bags, info, n, i, k, t);
      }
    }
  }

  // ---------------------------------------------------------------- invariant

  function SlotBag(o: Option<nat>): (m: multiset<nat>) {
    if o.Some? then multiset{o.value} else multiset{}
  }

  function LaneBag(l: Lane): (m: multiset<nat>) { multiset(l.ready) + SlotBag(l.slot) }

  /** Lanes by priority, then wait lists, then the exit list. */
  function Bags(st: State): (b: seq<multiset<nat>>)
    ensures |b| == |st.lanes| + |st.sems| + 1
  {
    seq(|st.lanes| + |st.sems| + 1, i requires 0 <= i <= |st.lanes| + |st.sems| =>
      if i < |st.lanes| then LaneBag(st.lanes[i])
      else if i < |st.lanes| + |st.sems| then multiset(st.sems[i - |st.lanes|].wait)
      else multiset(st.gone))
  }

  /** tdl_nr counts the ready list and the slot, and whoever holds the slot has run. */
  ghost predicate LaneOk(l: Lane, info: map<nat, Info>) {
    && l.nr == |l.ready| + (if l.slot.Some? then 1 else 0)
    && (l.slot.Some? ==> l.slot.value in info && info[l.slot.value].status == Run)
  }

  /** The count is the balance of ups and downs and never negative. */
  ghost predicate Balanced(m: Sem) {
    m.count >= 0 && m.count == m.start + m.ups - m.downs && m.nr == |m.wait|
  }

  /** What holds even inside krlsem_up. */
  ghost predicate Sound(st: State) {
    && |st.lanes| == PRITY_MAX && st.idle !in st.info && (st.curr == st.idle || st.curr in st.info)
    && Placed(Bags(st), st.info, |st.sems|)
    && (forall p :: 0 <= p < |st.lanes| ==> LaneOk(st.lanes[p], st.info))
    && (forall s :: 0 <= s < |st.sems| ==> Balanced(st.sems[s]))
  }

  /** No wake-up is lost: nobody waits on an available semaphore. */
  ghost predicate Awake(m: Sem) { m.count > 0 ==> m.wait == [] }

  ghost predicate Good(st: State) {
    Sound(st) && forall s :: 0 <= s < |st.sems| ==> Awake(st.sems[s])
  }

  // ---------------------------------------------------------------- waiting

  /** krlsched_wait and krlwlst_add_thread: the running thread joins the front of the wait list. */
  function Park(st: State, s: nat): (r: State)
    requires |st.lanes| == PRITY_MAX && s < |st.sems| && st.curr in st.info && st.info[st.curr].prio < PRITY_MAX
  {
    var t := st.curr;
    var p := st.info[t].prio;
    var l, m := st.lanes[p], st.sems[s];
    st.(info := st.info[t := Info(p, Wait)],
        lanes := st.lanes[p := l.(slot := if l.slot == Some(t) then None else l.slot, nr := l.nr - 1)],
        sems := st.sems[s := m.(wait := [t] + m.wait, nr := m.nr + 1)])
  }

  /** krlsched_up and krlwlst_del_thread: the front of the wait list joins the tail of its ready list. */
  function Rise(st: State, s: nat): (r: State)
    requires |st.lanes| == PRITY_MAX && s < |st.sems| && st.sems[s].wait != []
    requires st.sems[s].wait[0] in st.info && st.info[st.sems[s].wait[0]].prio < PRITY_MAX
  {
    var m := st.sems[s];
    var t := m.wait[0];
    var p := st.info[t].prio;
    var l := st.lanes[p];
    st.(info := st.info[t := Info(p, Run)],
        lanes := st.lanes[p := l.(ready := l.ready + [t], nr := l.nr + 1)],
        sems := st.sems[s := m.(wait := m.wait[1..], nr := m.nr - 1)])
  }

  lemma FrontBag(l: seq<nat>)
    requires l != []
    ensures multiset(l[1..]) == multiset(l) - multiset{l[0]} && l[0] in multiset(l)
  {
    assert l == [l[0]] + l[1..];
  }

  // How an update of one list shows in the bags.

  lemma BagsAt(st: State)
    ensures forall p :: 0 <= p < |st.lanes| ==> Bags(st)[p] == LaneBag(st.lanes[p])
    ensures forall s :: 0 <= s < |st.sems| ==> Bags(st)[|st.lanes| + s] == multiset(st.sems[s].wait)
    ensures Bags(st)[|st.lanes| + |st.sems|] == multiset(st.gone)
  {
  }

  lemma LaneSet(st: State, st': State, p: nat, l: Lane)
    requires p < |st.lanes| && st'.lanes == st.lanes[p := l] && st'.sems == st.sems && st'.gone == st.gone
    ensures Bags(st') == Bags(st)[p := LaneBag(l)]
  {
  }

  lemma SemSet(st: State, st': State, s: nat, m: Sem)
    requires s < |st.sems| && st'.sems == st.sems[s := m] && st'.lanes == st.lanes && st'.gone == st.gone
    ensures Bags(st') == Bags(st)[|st.lanes| + s := multiset(m.wait)]
  {
  }

  lemma GoneSet(st: State, st': State)
    requires st'.lanes == st.lanes && st'.sems == st.sems
    ensures Bags(st') == Bags(st)[|st.lanes| + |st.sems| := multiset(st'.gone)]
  {
  }

  lemma ParkBags(st: State, s: nat)
    requires |st.lanes| == PRITY_MAX && s < |st.sems| && st.curr in st.info && st.info[st.curr].prio < PRITY_MAX
    requires st.lanes[st.info[st.curr].prio].slot == Some(st.curr)
    ensures var p := st.info[st.curr].prio;
      Bags(Park(st, s)) == Moved(Bags(st), p, PRITY_MAX + s, st.curr) && st.curr in Bags(st)[p]
  {
    hide Bags;
    var p, t := st.info[st.curr].prio, st.curr;
    var r := Park(st, s);
    var mid := st.(lanes := r.lanes);
    BagsAt(st);
    LaneSet(st, mid, p, r.lanes[p]);
    SemSet(mid, r, s, r.sems[s]);
    assert LaneBag(r.lanes[p]) == LaneBag(st.lanes[p]) - multiset{t};
    assert multiset(r.sems[s].wait) == multiset(st.sems[s].wait) + multiset{t};
  }

  lemma RiseBags(st: State, s: nat)
    requires |st.lanes| == PRITY_MAX && s < |st.sems| && st.sems[s].wait != []
    requires st.sems[s].wait[0] in st.info && st.info[st.sems[s].wait[0]].prio < PRITY_MAX
    ensures var t := st.sems[s].wait[0];
      Bags(Rise(st, s)) == Moved(Bags(st), PRITY_MAX + s, st.info[t].prio, t) && t in Bags(st)[PRITY_MAX + s]
  {
    hide Bags;
    var t := st.sems[s].wait[0];
    var p, r := st.info[t].prio, Rise(st, s);
    var mid := st.(sems := r.sems);
    BagsAt(st);
    SemSet(st, mid, s, r.sems[s]);
    LaneSet(mid, r, p, r.lanes[p]);
    FrontBag(st.sems[s].wait);
    assert LaneBag(r.lanes[p]) == LaneBag(st.lanes[p]) + multiset{t};
  }

  lemma SlotElsewhere(st: State, i: nat, q: nat, t: nat)
    requires Placed(Bags(st), st.info, |st.sems|) && i < |Bags(st)| && q < |st.lanes| && t in Bags(st)[i] && i != q
    ensures st.lanes[q].slot != Some(t)
  {
    hide Placed;
    BagsAt(st);
    PlacedOnce(Bags(st), st.info, |st.sems|, i, q, t);
  }

  lemma ParkKeeps(st: State, s: nat)
    requires Sound(st) && s < |st.sems| && st.curr in st.info && st.info[st.curr].prio < PRITY_MAX
    requires st.lanes[st.info[st.curr].prio].slot == Some(st.curr)
    ensures Sound(Park(st, s))
  {
    hide Bags, Placed;
    var t, r := st.curr, Park(st, s);
    var p := st.info[t].prio;
    ParkBags(st, s);
    MoveKeeps(Bags(st), st.info, |st.sems|, p, PRITY_MAX + s, t, Info(p, Wait));
    forall q | 0 <= q < |r.lanes| ensures LaneOk(r.lanes[q], r.info) {
      assert LaneOk(st.lanes[q], st.info);
      if q != p {
        SlotElsewhere(st, p, q, t);
      }
    }
  }

  lemma RiseKeeps(st: State, s: nat)
    requires Sound(st) && s < |st.sems| && st.sems[s].wait != []
    ensures var t := st.sems[s].wait[0]; t in st.info && st.info[t].prio < PRITY_MAX
    ensures Sound(Rise(st, s))
  {
    hide Bags, Placed;
    var t := st.sems[s].wait[0];
    WaiterOk(st, s, t);
    var p, r := st.info[t].prio, Rise(st, s);
    RiseBags(st, s);
    MoveKeeps(Bags(st), st.info, |st.sems|, PRITY_MAX + s, p, t, Info(p, Run));
    forall q | 0 <= q < |r.lanes| ensures LaneOk(r.lanes[q], r.info) {
      assert LaneOk(st.lanes[q], st.info);
    }
  }

  lemma WaiterOk(st: State, s: nat, t: nat)
    requires Sound(st) && s < |st.sems| && t in st.sems[s].wait
    ensures t in st.info && st.info[t].prio < PRITY_MAX && st.info[t].status == Wait
  {
    assert t in Bags(st)[PRITY_MAX + s];
  }

  /** krlwlst_allup. */
  function RiseAll(st: State, s: nat): (r: State)
    requires Sound(st) && s < |st.sems|
    decreases if s < |st.sems| then |st.sems[s].wait| else 0
  {
    if st.sems[s].wait == [] then st else (RiseKeeps(st, s); RiseAll(Rise(st, s), s))
  }

  lemma {:induction false} RiseAllKeeps(st: State, s: nat)
    requires Sound(st) && s < |st.sems|
    ensures var r := RiseAll(st, s);
      && Sound(r) && |r.sems| == |st.sems| && r.curr == st.curr && r.idle == st.idle && r.gone == st.gone
      && r.sems == st.sems[s := st.sems[s].(wait := [], nr := 0)] && r.info.Keys == st.info.Keys
    decreases |st.sems[s].wait|
  {
    hide Bags, Placed, Sound;
    SoundSem(st, s);
    if st.sems[s].wait != [] {
      RiseKeeps(st, s);
      RiseAllKeeps(Rise(st, s), s);
    }
  }

  /** The threads of priority p in the list, in its order. */
  function OfPrio(l: seq<nat>, info: map<nat, Info>, p: nat): (r: seq<nat>) {
    if l == [] then [] else (if l[0] in info && info[l[0]].prio == p then [l[0]] else []) + OfPrio(l[1..], info, p)
  }

  lemma {:induction false} OfPrioSame(l: seq<nat>, info: map<nat, Info>, info': map<nat, Info>, p: nat)
    requires info'.Keys == info.Keys && forall t :: t in info ==> info'[t].prio == info[t].prio
    ensures OfPrio(l, info', p) == OfPrio(l, info, p)
  {
    if l != [] {
      OfPrioSame(l[1..], info, info', p);
    }
  }

  /** One wake-up changes one thread's state and one ready list. */
  lemma RiseStep(st: State, s: nat)
    requires Sound(st) && s < |st.sems| && st.sems[s].wait != []
    requires st.sems[s].wait[0] in st.info && st.info[st.sems[s].wait[0]].prio < PRITY_MAX
    ensures var r, t := Rise(st, s), st.sems[s].wait[0];
      && |r.lanes| == |st.lanes| && |r.sems| == |st.sems| && r.sems[s].wait == st.sems[s].wait[1..]
      && r.info == st.info[t := Info(st.info[t].prio, Run)]
      && (forall p :: 0 <= p < |st.lanes| ==> r.lanes[p].slot == st.lanes[p].slot)
      && forall p :: 0 <= p < |st.lanes| ==>
           r.lanes[p].ready == st.lanes[p].ready + if p == st.info[t].prio then [t] else []
  {
    hide Sound;
    SoundSem(st, s);
  }

  /** krlwlst_allup makes the waiters run and changes nobody else, and no priority. */
  lemma {:induction false} RiseAllInfo(st: State, s: nat)
    requires Sound(st) && s < |st.sems|
    ensures var r := RiseAll(st, s);
      && r.info.Keys == st.info.Keys && (forall t :: t in st.info ==> r.info[t].prio == st.info[t].prio)
      && (forall t :: t in st.info && t !in st.sems[s].wait ==> r.info[t] == st.info[t])
      && (forall t :: t in st.info && t in st.sems[s].wait ==> r.info[t].status == Run)
    decreases |st.sems[s].wait|
  {
    hide Sound, Rise;
    SoundSem(st, s);
    if st.sems[s].wait != [] {
      RiseKeeps(st, s);
      RiseStep(st, s);
      RiseAllInfo(Rise(st, s), s);
    }
  }

  /** krlwlst_allup runs nobody. */
  lemma {:induction false} RiseAllSlots(st: State, s: nat)
    requires Sound(st) && s < |st.sems|
    ensures var r := RiseAll(st, s);
      |r.lanes| == |st.lanes| && forall p :: 0 <= p < |st.lanes| ==> r.lanes[p].slot == st.lanes[p].slot
    decreases |st.sems[s].wait|
  {
    hide Sound, Rise;
    SoundSem(st, s);
    if st.sems[s].wait != [] {
      RiseKeeps(st, s);
      RiseStep(st, s);
      RiseAllSlots(Rise(st, s), s);
    }
  }

  /** krlwlst_allup appends the waiters of each priority to its ready list, in wait-list order. */
  lemma {:induction false} RiseAllAppends(st: State, s: nat, p: nat)
    requires Sound(st) && s < |st.sems| && p < |st.lanes|
    ensures var r := RiseAll(st, s);
      |r.lanes| == |st.lanes| && r.lanes[p].ready == st.lanes[p].ready + OfPrio(st.sems[s].wait, st.info, p)
    decreases |st.sems[s].wait|
  {
    hide Sound, Rise;
    SoundSem(st, s);
    if st.sems[s].wait != [] {
      RiseKeeps(st, s);
      RiseStep(st, s);
      var r := Rise(st, s);
      RiseAllAppends(r, s, p);
      OfPrioSame(st.sems[s].wait[1..], st.info, r.info, p);
    }
  }

  lemma SoundLanes(st: State)
    requires Sound(st)
    ensures |st.lanes| == PRITY_MAX && st.idle !in st.info && (st.curr == st.idle || st.curr in st.info)
  {
  }

  lemma SoundSem(st: State, s: nat)
    requires Sound(st) && s < |st.sems|
    ensures Balanced(st.sems[s]) && |st.lanes| == PRITY_MAX
  {
  }

  // ---------------------------------------------------------------- semaphores

  /** One pass of krlsem_down: take the semaphore or park; `true` when it was taken. */
  function Down(st: State, s: nat): (r: State)
    requires |st.lanes| == PRITY_MAX && s < |st.sems| && st.curr in st.info && st.info[st.curr].prio < PRITY_MAX
  {
    var m := st.sems[s];
    if m.count < 1 then Park(st, s)
    else st.(sems := st.sems[s := m.(count := m.count - 1, downs := m.downs + 1)])
  }

  function Bumped(st: State, s: nat): (r: State)
    requires s < |st.sems|
  {
    st.(sems := st.sems[s := st.sems[s].(count := st.sems[s].count + 1, ups := st.sems[s].ups + 1)])
  }

  /** Counting changes no list. */
  lemma CountKeeps(st: State, s: nat, m: Sem)
    requires Sound(st) && s < |st.sems| && Balanced(m) && m.wait == st.sems[s].wait
    ensures Sound(st.(sems := st.sems[s := m]))
  {
    var st' := st.(sems := st.sems[s := m]);
    SemSet(st, st', s, m);
    BagsAt(st);
    assert Bags(st') == Bags(st);
  }

  /** krlsem_up. */
  function Up(st: State, s: nat): (r: State)
    requires Sound(st) && s < |st.sems|
  {
    CountKeeps(st, s, Bumped(st, s).sems[s]);
    RiseAll(Bumped(st, s), s)
  }

  lemma DownKeeps(st: State, s: nat)
    requires Good(st) && s < |st.sems| && st.curr in st.info && st.info[st.curr].prio < PRITY_MAX
    requires st.lanes[st.info[st.curr].prio].slot == Some(st.curr)
    ensures Good(Down(st, s))
  {
    hide Sound;
    SoundSem(st, s);
    if st.sems[s].count < 1 {
      ParkKeeps(st, s);
    } else {
      CountKeeps(st, s, Down(st, s).sems[s]);
    }
  }

  /** From st to r nobody but t changed state, and nobody's priority changed. */
  ghost predicate OnlyState(st: State, r: State, t: nat) {
    && r.info.Keys == st.info.Keys && (forall u :: u in st.info && u != t ==> r.info[u] == st.info[u])
    && (t in st.info ==> r.info[t].prio == st.info[t].prio)
  }

  /** From st to r no ready list changed, and no running thread but t left its slot. */
  ghost predicate OnlySlot(st: State, r: State, t: nat) {
    && |r.lanes| == |st.lanes|
    && (forall p :: 0 <= p < |st.lanes| ==> r.lanes[p].ready == st.lanes[p].ready)
    && (forall p :: 0 <= p < |st.lanes| ==>
          r.lanes[p].slot == if st.lanes[p].slot == Some(t) then None else st.lanes[p].slot)
  }

  /** What one pass of krlsem_down does. With the semaphore available it is taken and nothing else changes. Otherwise
      the caller waits at the front of its list, with its priority, and leaves its slot; the other waiters keep their
      order, and no other thread, ready list or semaphore changes. */
  lemma DownDoes(st: State, s: nat)
    requires Good(st) && s < |st.sems| && st.curr in st.info && st.info[st.curr].prio < PRITY_MAX
    requires st.lanes[st.info[st.curr].prio].slot == Some(st.curr)
    ensures var r, m := Down(st, s), st.sems[s];
      && r.gone == st.gone && r.curr == st.curr && r.idle == st.idle && |r.sems| == |st.sems|
      && (forall u :: 0 <= u < |st.sems| && u != s ==> r.sems[u] == st.sems[u])
      && if m.count >= 1 then
           && r.info == st.info && r.lanes == st.lanes
           && r.sems[s].count == m.count - 1 && r.sems[s].wait == m.wait && r.sems[s].nr == m.nr
         else
           && OnlyState(st, r, st.curr) && r.info[st.curr].status == Wait && OnlySlot(st, r, st.curr)
           && r.sems[s].count == m.count && r.sems[s].ups == m.ups && r.sems[s].downs == m.downs
           && |r.sems[s].wait| == |m.wait| + 1 && r.sems[s].wait[0] == st.curr && r.sems[s].wait[1..] == m.wait
  {
    hide Sound;
    SoundLanes(st);
    SlotsElsewhere(st);
  }

  /** The running thread holds no slot but that of its priority. */
  lemma SlotsElsewhere(st: State)
    requires Sound(st) && st.curr in st.info && st.info[st.curr].prio < PRITY_MAX
    requires st.lanes[st.info[st.curr].prio].slot == Some(st.curr)
    ensures forall q :: 0 <= q < |st.lanes| && q != st.info[st.curr].prio ==> st.lanes[q].slot != Some(st.curr)
  {
    hide Placed;
    var p := st.info[st.curr].prio;
    BagsAt(st);
    assert st.curr in Bags(st)[p];
    forall q | 0 <= q < |st.lanes| && q != p ensures st.lanes[q].slot != Some(st.curr) {
      SlotElsewhere(st, p, q, st.curr);
    }
  }

  /** After krlsem_up nobody waits on s, the count is one more, and other semaphores are untouched. */
  lemma UpKeeps(st: State, s: nat)
    requires Good(st) && s < |st.sems|
    ensures Good(Up(st, s)) && Up(st, s).curr == st.curr && Up(st, s).idle == st.idle
      && Up(st, s).info.Keys == st.info.Keys
    ensures Sound(Bumped(st, s)) && Up(st, s) == RiseAll(Bumped(st, s), s)
    ensures Up(st, s).sems
      == st.sems[s := st.sems[s].(count := st.sems[s].count + 1, ups := st.sems[s].ups + 1, wait := [], nr := 0)]
  {
    hide Sound;
    SoundSem(st, s);
    CountKeeps(st, s, Bumped(st, s).sems[s]);
    RiseAllKeeps(Bumped(st, s), s);
  }

  // ---------------------------------------------------------------- choosing a thread

  predicate Runnable(info: map<nat, Info>, t: nat) {
    t in info && (info[t].status == Run || info[t].status == New)
  }

  /** The first thread in the list that can run, |l| when there is none. */
  function FirstReady(l: seq<nat>, info: map<nat, Info>): (k: nat)
    ensures k <= |l| && (k < |l| ==> Runnable(info, l[k]))
    ensures forall j :: 0 <= j < k ==> !Runnable(info, l[j])
  {
    if l == [] || Runnable(info, l[0]) then 0 else 1 + FirstReady(l[1..], info)
  }

  predicate Offers(l: Lane, info: map<nat, Info>) { FirstReady(l.ready, info) < |l.ready| || l.slot.Some? }

  /** The best priority from p on that has a thread to offer. */
  function Best(st: State, p: nat): (q: nat)
    requires p <= |st.lanes|
    ensures p <= q <= |st.lanes| && (q < |st.lanes| ==> Offers(st.lanes[q], st.info))
    ensures forall j :: p <= j < q ==> !Offers(st.lanes[j], st.info)
    decreases |st.lanes| - p
  {
    if p == |st.lanes| || Offers(st.lanes[p], st.info) then p else Best(st, p + 1)
  }

  function Tail(o: Option<nat>): (l: seq<nat>) { if o.Some? then [o.value] else [] }

  /** The k-th ready thread takes the slot and its holder goes to the tail. */
  function Serve(l: Lane, k: nat): (r: Lane)
    requires k < |l.ready|
  {
    l.(ready := l.ready[..k] + l.ready[k + 1..] + Tail(l.slot), slot := Some(l.ready[k]))
  }

  function ServeBest(l: Lane, info: map<nat, Info>): (r: Lane)
    requires Offers(l, info)
    ensures r.slot.Some?
  {
    var k := FirstReady(l.ready, info);
    if k < |l.ready| then Serve(l, k) else l
  }

  /** krlsched_select_thread followed by the switch of __to_new_context. */
  function Switch(st: State): (r: State)
  {
    var q := Best(st, 0);
    if q == |st.lanes| then st.(curr := st.idle)
    else
      var l := ServeBest(st.lanes[q], st.info);
      var t := l.slot.value;
      st.(lanes := st.lanes[q := l], curr := t, info := Started(st.info, t))
  }

  /** A new thread becomes a running one on its first switch. */
  function Started(info: map<nat, Info>, t: nat): (r: map<nat, Info>)
    ensures r.Keys == info.Keys
  {
    if t in info && info[t].status == New then info[t := Info(info[t].prio, Run)] else info
  }

  lemma ServeBag(l: Lane, k: nat)
    requires k < |l.ready|
    ensures LaneBag(Serve(l, k)) == LaneBag(l)
  {
    assert l.ready == l.ready[..k] + [l.ready[k]] + l.ready[k + 1..];
  }

  lemma ReadyOk(st: State, p: nat, t: nat)
    requires Sound(st) && p < PRITY_MAX && t in LaneBag(st.lanes[p])
    ensures Runnable(st.info, t) && st.info[t].prio == p
  {
    assert t in Bags(st)[p];
  }

  /** Every listed thread can run, so the scan takes the front of the list. */
  lemma FrontIsFirst(st: State, p: nat)
    requires Sound(st) && p < PRITY_MAX
    ensures FirstReady(st.lanes[p].ready, st.info) == 0
    ensures Offers(st.lanes[p], st.info) <==> st.lanes[p].ready != [] || st.lanes[p].slot.Some?
  {
    if st.lanes[p].ready != [] {
      ReadyOk(st, p, st.lanes[p].ready[0]);
    }
  }

  lemma SwitchKeeps(st: State)
    requires Good(st)
    ensures Good(Switch(st))
    ensures var r := Switch(st);
      |r.lanes| == PRITY_MAX && r.sems == st.sems && r.gone == st.gone && r.idle == st.idle
        && r.info.Keys == st.info.Keys
    ensures forall t :: t in st.info && st.info[t].status == Exit ==> Switch(st).info[t].status == Exit
    ensures var r := Switch(st);
      || (r.curr == r.idle && r.curr !in r.info)
      || (r.curr in r.info && r.info[r.curr].prio < PRITY_MAX && r.lanes[r.info[r.curr].prio].slot == Some(r.curr))
  {
    hide Sound, ServeBest;
    SoundLanes(st);
    var q := Best(st, 0);
    if q < |st.lanes| {
      ServeKeeps(st, q);
    } else {
      IdleKeeps(st);
    }
  }

  lemma IdleKeeps(st: State)
    requires Sound(st)
    ensures Sound(st.(curr := st.idle)) && |st.lanes| == PRITY_MAX && st.idle !in st.info
  {
    hide Placed, Bags;
    BagsSame(st, st.(curr := st.idle));
  }

  lemma ServeKeeps(st: State, q: nat)
    requires Sound(st) && q < |st.lanes| && Offers(st.lanes[q], st.info)
    ensures var l := ServeBest(st.lanes[q], st.info);
      var t := l.slot.value;
      && t in st.info && st.info[t].prio == q < PRITY_MAX
      && Sound(st.(lanes := st.lanes[q := l], curr := t, info := Started(st.info, t)))
  {
    hide Placed, Bags, ServeBest, LaneBag;
    var l := ServeBest(st.lanes[q], st.info);
    var t := l.slot.value;
    var st' := st.(lanes := st.lanes[q := l], curr := t, info := Started(st.info, t));
    ServePlaced(st, q);
    assert LaneOk(st.lanes[q], st.info);
    ServeLane(st.lanes[q], st.info);
    LaneSet(st, st', q, l);
    BagsAt(st);
    assert Bags(st') == Bags(st);
    forall p | 0 <= p < |st'.lanes| ensures LaneOk(st'.lanes[p], st'.info) {
      assert LaneOk(st.lanes[p], st.info);
    }
  }

  lemma ServeLane(l: Lane, info: map<nat, Info>)
    requires LaneOk(l, info) && Offers(l, info)
    ensures var r := ServeBest(l, info);
      LaneBag(r) == LaneBag(l) && r.nr == |r.ready| + 1 && r.slot.value in info
        && info[r.slot.value].status in {Run, New}
  {
    var k := FirstReady(l.ready, info);
    if k < |l.ready| {
      ServeBag(l, k);
    }
  }

  lemma ServePlaced(st: State, q: nat)
    requires Sound(st) && q < |st.lanes| && Offers(st.lanes[q], st.info)
    ensures var t := ServeBest(st.lanes[q], st.info).slot.value;
      && t in st.info && st.info[t].prio == q < PRITY_MAX && Runnable(st.info, t)
      && Placed(Bags(st), Started(st.info, t), |st.sems|)
  {
    hide Placed, Bags;
    var t := ServeBest(st.lanes[q], st.info).slot.value;
    BagsAt(st);
    assert t in Bags(st)[q];
    ReadyOk(st, q, t);
    RestateKeeps(Bags(st), st.info, |st.sems|, q, t, Info(st.info[t].prio, Run));
  }

  lemma BagsSame(st: State, st': State)
    requires st'.lanes == st.lanes && st'.sems == st.sems && st'.gone == st.gone
    ensures Bags(st') == Bags(st)
  {
  }

  // ---------------------------------------------------------------- birth and death

  /** krlschdclass_add_thread: a new thread goes to the front of its ready list. */
  function Create(st: State, t: nat, p: nat): (r: State)
    requires |st.lanes| == PRITY_MAX && p < PRITY_MAX
  {
    var l := st.lanes[p];
    st.(info := st.info[t := Info(p, New)], lanes := st.lanes[p := l.(ready := [t] + l.ready, nr := l.nr + 1)])
  }

  /** krlschdclass_del_thread_addexit for the running thread. */
  function Leave(st: State): (r: State)
    requires |st.lanes| == PRITY_MAX && st.curr in st.info && st.info[st.curr].prio < PRITY_MAX
  {
    var t := st.curr;
    var p := st.info[t].prio;
    var l := st.lanes[p];
    st.(info := st.info[t := Info(p, Exit)],
        lanes := st.lanes[p := l.(slot := if l.slot == Some(t) then None else l.slot, nr := l.nr - 1)],
        gone := [t] + st.gone)
  }

  lemma CreateKeeps(st: State, t: nat, p: nat)
    requires Good(st) && p < PRITY_MAX && t !in st.info && t != st.idle
    ensures Good(Create(st, t, p))
  {
    hide Bags, Placed, LaneBag;
    var r := Create(st, t, p);
    CreateBags(st, t, p);
    EnterKeeps(Bags(st), st.info, |st.sems|, p, t, Info(p, New));
    forall q | 0 <= q < |r.lanes| ensures LaneOk(r.lanes[q], r.info) {
      assert LaneOk(st.lanes[q], st.info);
    }
  }

  lemma CreateBags(st: State, t: nat, p: nat)
    requires |st.lanes| == PRITY_MAX && p < PRITY_MAX
    ensures Bags(Create(st, t, p)) == Bags(st)[p := Bags(st)[p] + multiset{t}]
  {
    hide Bags;
    var r := Create(st, t, p);
    BagsAt(st);
    LaneSet(st, r, p, r.lanes[p]);
    assert LaneBag(r.lanes[p]) == LaneBag(st.lanes[p]) + multiset{t};
  }

  lemma LeaveKeeps(st: State)
    requires Good(st) && st.curr in st.info && st.info[st.curr].prio < PRITY_MAX
    requires st.lanes[st.info[st.curr].prio].slot == Some(st.curr)
    ensures Good(Leave(st))
  {
    hide Bags, Placed;
    var t, r := st.curr, Leave(st);
    var p := st.info[t].prio;
    LeaveBags(st);
    MoveKeeps(Bags(st), st.info, |st.sems|, p, PRITY_MAX + |st.sems|, t, Info(p, Exit));
    forall q | 0 <= q < |r.lanes| ensures LaneOk(r.lanes[q], r.info) {
      assert LaneOk(st.lanes[q], st.info);
      if q != p {
        SlotElsewhere(st, p, q, t);
      }
    }
  }

  lemma LeaveBags(st: State)
    requires |st.lanes| == PRITY_MAX && st.curr in st.info && st.info[st.curr].prio < PRITY_MAX
    requires st.lanes[st.info[st.curr].prio].slot == Some(st.curr)
    ensures var p := st.info[st.curr].prio;
      Bags(Leave(st)) == Moved(Bags(st), p, PRITY_MAX + |st.sems|, st.curr) && st.curr in Bags(st)[p]
  {
    hide Bags;
    var p, t, r := st.info[st.curr].prio, st.curr, Leave(st);
    var mid := st.(lanes := r.lanes);
    BagsAt(st);
    LaneSet(st, mid, p, r.lanes[p]);
    GoneSet(mid, r);
    assert LaneBag(r.lanes[p]) == LaneBag(st.lanes[p]) - multiset{t};
    assert multiset(r.gone) == multiset(st.gone) + multiset{t};
  }

  /** What a new thread changes: its own state, and the front of the ready list of its priority. */
  lemma CreateDoes(st: State, t: nat, p: nat)
    requires |st.lanes| == PRITY_MAX && p < PRITY_MAX && t !in st.info
    ensures var r := Create(st, t, p);
      && r.info.Keys == st.info.Keys + {t} && (forall u :: u in st.info ==> r.info[u] == st.info[u])
      && r.info[t].prio == p && r.info[t].status == New
      && r.sems == st.sems && r.gone == st.gone && r.curr == st.curr && r.idle == st.idle && |r.lanes| == |st.lanes|
      && (forall q :: 0 <= q < |st.lanes| ==> r.lanes[q].slot == st.lanes[q].slot)
      && (forall q :: 0 <= q < |st.lanes| && q != p ==> r.lanes[q] == st.lanes[q])
      && |r.lanes[p].ready| == |st.lanes[p].ready| + 1 && r.lanes[p].ready[0] == t
      && r.lanes[p].ready[1..] == st.lanes[p].ready && r.lanes[p].nr == st.lanes[p].nr + 1
  {
  }

  /** What an exit changes: the running thread leaves its slot for the front of the exit list, with its priority. */
  lemma LeaveDoes(st: State)
    requires Sound(st) && st.curr in st.info && st.info[st.curr].prio < PRITY_MAX
    requires st.lanes[st.info[st.curr].prio].slot == Some(st.curr)
    ensures var r := Leave(st);
      && OnlyState(st, r, st.curr) && r.info[st.curr].status == Exit && OnlySlot(st, r, st.curr)
      && r.sems == st.sems && r.curr == st.curr && r.idle == st.idle
      && |r.gone| == |st.gone| + 1 && r.gone[0] == st.curr && r.gone[1..] == st.gone
  {
    hide Sound;
    SoundLanes(st);
    SlotsElsewhere(st);
  }

  /** Nobody waits to run in lane p. */
  ghost predicate Silent(st: State, p: nat)
    requires p < |st.lanes|
  {
    st.lanes[p].ready == [] && st.lanes[p].slot == None
  }

  /** What a switch changes. The best lane with anybody in it has its front thread run and its running thread go to its
      tail, or goes on with its running thread; every other lane is as it was. Only the thread switched to changes
      state, from new to running. Without anybody idle runs and nothing else changes. */
  lemma SwitchDoes(st: State)
    requires Sound(st)
    ensures var r := Switch(st);
      && OnlyState(st, r, r.curr) && r.sems == st.sems && r.gone == st.gone && r.idle == st.idle
      && |r.lanes| == |st.lanes| == PRITY_MAX
    ensures var r := Switch(st);
      if forall p :: 0 <= p < PRITY_MAX ==> Silent(st, p)
      then r.curr == st.idle && r.lanes == st.lanes && r.info == st.info
      else
        && r.curr in r.info && r.info[r.curr].prio < PRITY_MAX && r.info[r.curr].status == Run
        && var q := r.info[r.curr].prio;
        && !Silent(st, q) && (forall p :: 0 <= p < q ==> Silent(st, p))
        && (forall p :: 0 <= p < PRITY_MAX && p != q ==> r.lanes[p] == st.lanes[p])
        && r.lanes[q].slot == Some(r.curr) && r.lanes[q].nr == st.lanes[q].nr
        && if st.lanes[q].ready == [] then r.lanes[q] == st.lanes[q]
           else
             && r.curr == st.lanes[q].ready[0]
             && r.lanes[q].ready ==
               st.lanes[q].ready[1..] + (if st.lanes[q].slot.Some? then [st.lanes[q].slot.value] else [])
  {
    hide Sound;
    SoundLanes(st);
    forall p | 0 <= p < PRITY_MAX ensures Offers(st.lanes[p], st.info) <==> !Silent(st, p) {
      FrontIsFirst(st, p);
    }
    var q := Best(st, 0);
    if q < |st.lanes| {
      FrontIsFirst(st, q);
      ServeHolder(st, q);
      assert !Silent(st, q);
      if st.lanes[q].ready != [] {
        var l := st.lanes[q];
        assert l.ready[..0] + l.ready[1..] == l.ready[1..];
      }
    }
  }

  lemma ServeHolder(st: State, q: nat)
    requires Sound(st) && q < |st.lanes| && Offers(st.lanes[q], st.info)
    ensures var t := ServeBest(st.lanes[q], st.info).slot.value;
      && t in st.info && st.info[t].prio == q < PRITY_MAX && Runnable(st.info, t)
  {
    hide Placed, Bags;
    ServePlaced(st, q);
  }

  // ---------------------------------------------------------------- what the invariant means

  /** A thread can run exactly when it is in the lane of its priority. */
  lemma RunnableInLane(st: State, t: nat)
    requires Sound(st) && t in st.info
    ensures st.info[t].prio < PRITY_MAX
    ensures Runnable(st.info, t) <==> t in LaneBag(st.lanes[st.info[t].prio])
  {
    hide Bags, Placed, Sound;
    var i := Whereabouts(st, t);
    BagsAt(st);
  }

  lemma {:induction false} SomeBag(bags: seq<multiset<nat>>, t: nat) returns (i: nat)
    requires Times(bags, t) > 0
    ensures i < |bags| && t in bags[i]
  {
    if t in bags[0] {
      i := 0;
    } else {
      i := SomeBag(bags[1..], t);
      i := i + 1;
    }
  }

  /** Every thread is in exactly one place, which its status names: the ready list or the slot of its
      priority, one wait list, or the exit list. */
  lemma OnePlace(st: State, t: nat, p: nat, s: nat, u: nat)
    requires Sound(st) && t in st.info && p < PRITY_MAX && s < |st.sems| && u < |st.sems|
    ensures Runnable(st.info, t) && p == st.info[t].prio <==> t in st.lanes[p].ready || st.lanes[p].slot == Some(t)
    ensures !(t in st.lanes[p].ready && st.lanes[p].slot == Some(t))
    ensures st.info[t].status == Wait <==> exists k :: 0 <= k < |st.sems| && t in st.sems[k].wait
    ensures t in st.sems[s].wait && t in st.sems[u].wait ==> s == u
    ensures st.info[t].status == Exit <==> t in st.gone
  {
    hide Bags, Placed, Sound, LaneBag;
    var i := Whereabouts(st, t);
    BagsAt(st);
    LaneHolds(st.lanes[p], t);
    assert t in Bags(st)[p] <==> i == p;
    assert forall k :: 0 <= k < |st.sems| ==> (t in st.sems[k].wait <==> t in Bags(st)[PRITY_MAX + k]);
    assert t in st.gone <==> t in Bags(st)[PRITY_MAX + |st.sems|];
    if PRITY_MAX <= i < PRITY_MAX + |st.sems| {
      assert t in st.sems[i - PRITY_MAX].wait;
    }
  }

  lemma LaneHolds(l: Lane, t: nat)
    ensures t in LaneBag(l) <==> t in l.ready || l.slot == Some(t)
    ensures t in l.ready && l.slot == Some(t) ==> LaneBag(l)[t] >= 2
  {
    assert t in l.ready ==> multiset(l.ready)[t] >= 1;
  }

  /** The one bag a thread is in. */
  lemma Whereabouts(st: State, t: nat) returns (i: nat)
    requires Sound(st) && t in st.info
    ensures |st.lanes| == PRITY_MAX && i < |Bags(st)| && Fits(|st.sems|, st.info[t], i) && Bags(st)[i][t] == 1
    ensures forall j :: 0 <= j < |Bags(st)| ==> (t in Bags(st)[j] <==> i == j)
  {
    hide Bags;
    var b := Bags(st);
    assert Times(b, t) == 1;
    i := SomeBag(b, t);
    forall j | 0 <= j < |b| && t in b[j] ensures i == j {
      PlacedOnce(b, st.info, |st.sems|, i, j, t);
    }
    PlacedOnce(b, st.info, |st.sems|, i, i, t);
  }

  /** Idle is chosen only when no thread at all can run. */
  lemma IdleIff(st: State)
    requires Sound(st)
    ensures Switch(st).curr == st.idle <==> forall t :: t in st.info ==> !Runnable(st.info, t)
  {
    var q := Best(st, 0);
    if q < |st.lanes| {
      ServePlaced(st, q);
    } else {
      forall t | t in st.info ensures !Runnable(st.info, t) {
        RunnableInLane(st, t);
        FrontIsFirst(st, st.info[t].prio);
      }
    }
  }
}
