/** Threads and interrupts interleaved: every locked section of the scheduler and the semaphores is one
    step, and interrupt code may raise a semaphore or switch threads between any two of them. In
    particular it may do so between the parking of a thread and its call of krlschedul. */
module Interleave {
  import opened Lists
  import opened Options
  import opened Threads

  /** Where a thread is in its own code: outside krlsem_down, parked but not yet switched away, about to
      try the semaphore again, or past krlsched_exit. */
  datatype Pc = Free | Parked(sem: nat) | Again(sem: nat) | Dead

  datatype Sys = Sys(st: State, at: map<nat, Pc>)

  /** One locked section. `DoSwitch` is krlschedul called by the running thread, `DoPreempt` the same from
      an interrupt; the others are steps of krlsem_down, krlsem_up, thread creation and exit. */
  datatype Step = DoDown(sem: nat) | DoUp(sem: nat) | DoSwitch | DoPreempt | DoCreate(thread: nat, prio: nat) | DoLeave

  predicate Enabled(y: Sys, e: Step) {
    var t := y.st.curr;
    match e
    case DoDown(s) => s < |y.st.sems| && t in y.at && (y.at[t] == Free || y.at[t] == Again(s))
    case DoUp(s) => s < |y.st.sems|
    case DoSwitch => t in y.at ==> !y.at[t].Again?
    case DoPreempt => true
    case DoCreate(u, p) => u !in y.st.info && u != y.st.idle && p < PRITY_MAX
    case DoLeave => t in y.at && y.at[t] == Free
  }

  /** A running thread that is not between parking and switching holds the slot of its priority. */
  ghost predicate InSlot(st: State) {
    st.curr in st.info && |st.lanes| == PRITY_MAX && st.info[st.curr].prio < PRITY_MAX
    && st.lanes[st.info[st.curr].prio].slot == Some(st.curr)
  }

  ghost predicate Inv(y: Sys) {
    && Good(y.st) && y.at.Keys == y.st.info.Keys
    && (y.st.curr in y.at && (y.at[y.st.curr].Free? || y.at[y.st.curr].Again?) ==> InSlot(y.st))
    && (forall s, t :: 0 <= s < |y.st.sems| && t in y.st.sems[s].wait ==>
        t in y.at && (y.at[t] == Parked(s) || y.at[t] == Again(s)))
    && (forall t :: t in y.at && y.at[t] == Dead ==> y.st.info[t].status == Exit)
  }

  function Next(y: Sys, e: Step): (r: Sys)
    requires Inv(y) && Enabled(y, e)
  {
    var t := y.st.curr;
    match e
    case DoDown(s) => Sys(Down(y.st, s), y.at[t := if y.st.sems[s].count < 1 then Parked(s) else Free])
    case DoUp(s) => Sys(Up(y.st, s), y.at)
    case DoSwitch => Sys(Switch(y.st), if t in y.at && y.at[t].Parked? then y.at[t := Again(y.at[t].sem)] else y.at)
    case DoPreempt => Sys(Switch(y.st), y.at)
    case DoCreate(u, p) => Sys(Create(y.st, u, p), y.at[u := Free])
    case DoLeave => Sys(Leave(y.st), y.at[t := Dead])
  }

  // ---------------------------------------------------------------- every step keeps the invariant

  lemma StepKeeps(y: Sys, e: Step)
    requires Inv(y) && Enabled(y, e)
    ensures Inv(Next(y, e))
  {
    match e {
      case DoDown(s) => DownStep(y, s);
      case DoUp(s) => UpStep(y, s);
      case DoSwitch => SwitchStep(y, Next(y, e).at);
      case DoPreempt => SwitchStep(y, y.at);
      case DoCreate(u, p) => CreateStep(y, u, p);
      case DoLeave => LeaveStep(y);
    }
  }

  lemma DownStep(y: Sys, s: nat)
    requires Inv(y) && Enabled(y, DoDown(s))
    ensures Inv(Next(y, DoDown(s)))
  {
    hide Good;
    DownKeeps(y.st, s);
    RunningWaitsNowhere(y.st);
  }

  lemma RunningWaitsNowhere(st: State)
    requires Good(st) && InSlot(st)
    ensures st.info[st.curr].status == Run && forall s :: 0 <= s < |st.sems| ==> st.curr !in st.sems[s].wait
  {
    hide Placed, Bags;
    assert LaneOk(st.lanes[st.info[st.curr].prio], st.info);
    forall s | 0 <= s < |st.sems| ensures st.curr !in st.sems[s].wait {
      if st.curr in st.sems[s].wait {
        WaiterOk(st, s, st.curr);
      }
    }
  }

  lemma UpStep(y: Sys, s: nat)
    requires Inv(y) && Enabled(y, DoUp(s))
    ensures Inv(Next(y, DoUp(s)))
  {
    hide Inv, Up;
    InvGood(y);
    UpKeeps(y.st, s);
    UpMoves(y.st, s);
    WaitersLeave(y, Up(y.st, s), s);
  }

  lemma InvGood(y: Sys)
    requires Inv(y)
    ensures Good(y.st)
  {
    hide Good;
  }

  /** Emptying one wait list keeps the invariant when only its waiters change state. */
  lemma WaitersLeave(y: Sys, st: State, s: nat)
    requires Inv(y) && Good(st) && s < |y.st.sems| == |st.sems| && st.curr == y.st.curr
    requires st.info.Keys == y.st.info.Keys && forall t :: t in st.info ==> st.info[t].prio == y.st.info[t].prio
    requires forall t :: t in st.info && t !in y.st.sems[s].wait ==> st.info[t] == y.st.info[t]
    requires forall i :: 0 <= i < |st.sems| ==> st.sems[i].wait == if i == s then [] else y.st.sems[i].wait
    requires |st.lanes| == |y.st.lanes| && forall p :: 0 <= p < |st.lanes| ==> st.lanes[p].slot == y.st.lanes[p].slot
    ensures Inv(Sys(st, y.at))
  {
    hide Good, InSlot;
    forall i, t | 0 <= i < |st.sems| && t in st.sems[i].wait
      ensures t in y.at && (y.at[t] == Parked(i) || y.at[t] == Again(i))
    {
      assert t in y.st.sems[i].wait;
    }
    forall t | t in y.at && y.at[t] == Dead ensures st.info[t].status == Exit {
      assert t !in y.st.sems[s].wait;
    }
    if y.st.curr in y.at && (y.at[y.st.curr].Free? || y.at[y.st.curr].Again?) {
      SameSlot(y.st, st);
    }
  }

  lemma SameSlot(st: State, r: State)
    requires InSlot(st) && r.curr == st.curr && r.curr in r.info && r.info[r.curr].prio == st.info[r.curr].prio
    requires |r.lanes| == |st.lanes| && forall p :: 0 <= p < |st.lanes| ==> r.lanes[p].slot == st.lanes[p].slot
    ensures InSlot(r)
  {
  }

  /** An up changes nobody but the waiters, no priority and no running thread. */
  lemma UpMoves(st: State, s: nat)
    requires Good(st) && s < |st.sems|
    ensures var r := Up(st, s);
      && r.info.Keys == st.info.Keys && (forall t :: t in st.info ==> r.info[t].prio == st.info[t].prio)
      && (forall t :: t in st.info && t !in st.sems[s].wait ==> r.info[t] == st.info[t])
      && |r.lanes| == |st.lanes| && forall p :: 0 <= p < |st.lanes| ==> r.lanes[p].slot == st.lanes[p].slot
  {
    hide Good, Sound, RiseAll, Up;
    UpKeeps(st, s);
    RiseAllInfo(Bumped(st, s), s);
    RiseAllSlots(Bumped(st, s), s);
  }

  lemma SwitchStep(y: Sys, at: map<nat, Pc>)
    requires Inv(y) && at.Keys == y.at.Keys
    requires forall t :: t in at ==> at[t] == y.at[t] || (y.at[t].Parked? && at[t] == Again(y.at[t].sem))
    ensures Inv(Sys(Switch(y.st), at))
  {
    hide Good, Switch;
    SwitchKeeps(y.st);
    WaitersKept(y, at);
  }

  lemma WaitersKept(y: Sys, at: map<nat, Pc>)
    requires Inv(y) && at.Keys == y.at.Keys
    requires forall t :: t in at ==> at[t] == y.at[t] || (y.at[t].Parked? && at[t] == Again(y.at[t].sem))
    ensures forall s, t :: 0 <= s < |y.st.sems| && t in y.st.sems[s].wait ==>
      t in at && (at[t] == Parked(s) || at[t] == Again(s))
    ensures forall t :: t in at && at[t] == Dead ==> y.st.info[t].status == Exit
  {
    hide Good;
  }

  lemma CreateStep(y: Sys, u: nat, p: nat)
    requires Inv(y) && Enabled(y, DoCreate(u, p))
    ensures Inv(Next(y, DoCreate(u, p)))
  {
    hide Sound, Awake;
    SoundLanes(y.st);
    CreateKeeps(y.st, u, p);
    forall s | 0 <= s < |y.st.sems| ensures u !in y.st.sems[s].wait {
      if u in y.st.sems[s].wait {
        WaiterOk(y.st, s, u);
      }
    }
  }

  lemma LeaveStep(y: Sys)
    requires Inv(y) && Enabled(y, DoLeave)
    ensures Inv(Next(y, DoLeave))
  {
    hide Sound, Awake;
    LeaveKeeps(y.st);
    RunningWaitsNowhere(y.st);
  }

  // ---------------------------------------------------------------- runs

  /** Every step of the run is enabled when its turn comes. */
  ghost predicate Legal(y: Sys, run: seq<Step>)
    requires Inv(y)
    decreases |run|
  {
    run != [] ==> Enabled(y, run[0]) && (StepKeeps(y, run[0]); Legal(Next(y, run[0]), run[1..]))
  }

  ghost function After(y: Sys, run: seq<Step>): (r: Sys)
    requires Inv(y) && Legal(y, run)
    decreases |run|
  {
    if run == [] then y else (StepKeeps(y, run[0]); After(Next(y, run[0]), run[1..]))
  }

  /** One processor with its idle thread, no other thread, and semaphores with their first counts. */
  function Boot(idle: nat, counts: seq<nat>): (y: Sys) {
    var lanes := seq(PRITY_MAX, i => Lane([], None, 0));
    var sems := seq(|counts|, i requires 0 <= i < |counts| => Sem(counts[i], [], 0, counts[i], 0, 0));
    Sys(State(map[], lanes, sems, [], idle, idle), map[])
  }

  lemma BootInv(idle: nat, counts: seq<nat>)
    ensures Inv(Boot(idle, counts))
    ensures var st := Boot(idle, counts).st;
      && st.curr == st.idle == idle && st.info == map[] && |st.lanes| == 64 && |st.sems| == |counts|
      && (forall p :: 0 <= p < 64 ==> st.lanes[p].ready == [] && st.lanes[p].slot == None)
      && forall s :: 0 <= s < |counts| ==> st.sems[s].count == counts[s] && st.sems[s].wait == []
  {
    hide Placed;
    BootPlaced(idle, counts);
  }

  lemma BootPlaced(idle: nat, counts: seq<nat>)
    ensures var st := Boot(idle, counts).st; Placed(Bags(st), st.info, |st.sems|)
  {
    var st := Boot(idle, counts).st;
    forall t: nat ensures Times(Bags(st), t) == 0 {
      EmptyBags(Bags(st), t);
    }
  }

  lemma {:induction false} EmptyBags(bags: seq<multiset<nat>>, t: nat)
    requires forall i :: 0 <= i < |bags| ==> bags[i] == multiset{}
    ensures Times(bags, t) == 0
  {
    if bags != [] {
      EmptyBags(bags[1..], t);
    }
  }

  /** Safety of every interleaving: in every reachable state each thread is in the one place its status
      names, tdl_nr counts each lane, sem_count is the balance of ups and completed downs and never
      negative, and no thread waits on a semaphore that is available. */
  lemma {:induction false} RunKeeps(y: Sys, run: seq<Step>)
    requires Inv(y) && Legal(y, run)
    ensures Inv(After(y, run))
    decreases |run|
  {
    if run != [] {
      StepKeeps(y, run[0]);
      RunKeeps(Next(y, run[0]), run[1..]);
    }
  }

  /** No step changes the priority of a thread. */
  lemma StepPriority(y: Sys, e: Step, t: nat)
    requires Inv(y) && Enabled(y, e) && t in y.st.info
    ensures t in Next(y, e).st.info && Next(y, e).st.info[t].prio == y.st.info[t].prio
  {
    hide Sound, Awake, Up, Switch, Down, Leave;
    SoundLanes(y.st);
    match e {
      case DoDown(s) => DownDoes(y.st, s);
      case DoUp(s) => UpMoves(y.st, s);
      case DoSwitch => SwitchDoes(y.st);
      case DoPreempt => SwitchDoes(y.st);
      case DoCreate(u, p) =>
      case DoLeave => LeaveDoes(y.st);
    }
  }

  /** A thread has the priority it was created with in every state of every run. */
  lemma {:induction false} RunPriority(y: Sys, run: seq<Step>, t: nat)
    requires Inv(y) && Legal(y, run) && t in y.st.info
    ensures t in After(y, run).st.info && After(y, run).st.info[t].prio == y.st.info[t].prio
    decreases |run|
  {
    hide Inv, Next, Enabled;
    if run != [] {
      StepKeeps(y, run[0]);
      StepPriority(y, run[0], t);
      RunPriority(Next(y, run[0]), run[1..], t);
    }
  }

  function Ups(run: seq<Step>, s: nat): (n: nat) {
    if run == [] then 0 else (if run[0] == DoUp(s) then 1 else 0) + Ups(run[1..], s)
  }

  /** How many passes of krlsem_down on s take the semaphore. */
  ghost function Downs(y: Sys, run: seq<Step>, s: nat): (n: nat)
    requires Inv(y) && Legal(y, run) && s < |y.st.sems|
    decreases |run|
  {
    if run == [] then 0
    else
      StepKeeps(y, run[0]);
      StepCounts(y, run[0], s);
      (if run[0] == DoDown(s) && y.st.sems[s].count >= 1 then 1 else 0) + Downs(Next(y, run[0]), run[1..], s)
  }

  lemma StepCounts(y: Sys, e: Step, s: nat)
    requires Inv(y) && Enabled(y, e) && s < |y.st.sems|
    ensures var m, n := y.st.sems[s], Next(y, e).st.sems;
      && |n| == |y.st.sems| && n[s].start == m.start
      && n[s].ups == m.ups + (if e == DoUp(s) then 1 else 0)
      && n[s].downs == m.downs + if e == DoDown(s) && m.count >= 1 then 1 else 0
  {
    hide Sound, Awake, Up;
    SoundLanes(y.st);
    match e {
      case DoDown(u) =>
      case DoUp(u) => UpKeeps(y.st, u);
      case DoSwitch => SwitchKeeps(y.st);
      case DoPreempt => SwitchKeeps(y.st);
      case DoCreate(t, p) =>
      case DoLeave =>
    }
  }

  lemma {:induction false} RunCounts(y: Sys, run: seq<Step>, s: nat)
    requires Inv(y) && Legal(y, run) && s < |y.st.sems|
    ensures var m, n := y.st.sems[s], After(y, run).st.sems;
      |n| == |y.st.sems| && n[s].start == m.start && n[s].ups == m.ups + Ups(run, s)
        && n[s].downs == m.downs + Downs(y, run, s)
    decreases |run|
  {
    hide Good, Enabled, Next;
    if run != [] {
      StepKeeps(y, run[0]);
      StepCounts(y, run[0], s);
      RunCounts(Next(y, run[0]), run[1..], s);
    }
  }

  /** No lost wake-up, from boot on and over every interleaving: the count is the initial count plus the ups
      minus the completed downs, it is never negative, and nobody waits while it is positive. */
  lemma NoLostWakeUp(idle: nat, counts: seq<nat>, run: seq<Step>, s: nat)
    requires s < |counts| && (BootInv(idle, counts); Legal(Boot(idle, counts), run))
    ensures (
      BootInv(idle, counts);
      var y := Boot(idle, counts);
      && s < |After(y, run).st.sems|
      && var m := After(y, run).st.sems[s];
      && m.count == counts[s] + Ups(run, s) - Downs(y, run, s) >= 0
      && (m.count > 0 ==> m.wait == []))
  {
    hide Legal, After, Ups, Downs;
    BootInv(idle, counts);
    var y := Boot(idle, counts);
    RunKeeps(y, run);
    RunCounts(y, run, s);
    SoundSem(After(y, run).st, s);
  }

  // ---------------------------------------------------------------- bounded waiting

  predicate Selects(e: Step) { e.DoSwitch? || e.DoPreempt? }

  function Selections(run: seq<Step>): (n: nat) {
    if run == [] then 0 else (if Selects(run[0]) then 1 else 0) + Selections(run[1..])
  }

  function Creations(run: seq<Step>, p: nat): (n: nat) {
    if run == [] then 0 else (if run[0].DoCreate? && run[0].prio == p then 1 else 0) + Creations(run[1..], p)
  }

  /** Whenever a thread is selected nothing of a better priority than p can run. */
  ghost predicate Unrivalled(y: Sys, run: seq<Step>, p: nat)
    requires Inv(y) && Legal(y, run) && p < PRITY_MAX
    decreases |run|
  {
    run != [] ==>
      && (Selects(run[0]) ==> NoneBetter(y.st, p))
      && (StepKeeps(y, run[0]); Unrivalled(Next(y, run[0]), run[1..], p))
  }

  ghost predicate NoneBetter(st: State, p: nat) {
    forall t :: t in st.info && st.info[t].prio < p ==> !Runnable(st.info, t)
  }

  /** Some selection of the run switches to t. */
  ghost predicate Chosen(y: Sys, run: seq<Step>, t: nat)
    requires Inv(y) && Legal(y, run)
    decreases |run|
  {
    run != [] && (StepKeeps(y, run[0]);
      || (Selects(run[0]) && Next(y, run[0]).st.curr == t)
      || Chosen(Next(y, run[0]), run[1..], t))
  }

  lemma {:induction false} IndexOfAppend(l: seq<nat>, m: seq<nat>, t: nat)
    requires t in l
    ensures t in l + m && IndexOf(l + m, t) == IndexOf(l, t)
  {
    if l[0] != t {
      IndexOfAppend(l[1..], m, t);
      assert (l + m)[1..] == l[1..] + m;
    }
  }

  /** With nothing better to run a selection serves the front of lane p. */
  lemma ServesFront(st: State, p: nat)
    requires Good(st) && p < PRITY_MAX && NoneBetter(st, p) && st.lanes[p].ready != []
    ensures Switch(st).curr == st.lanes[p].ready[0]
      && Switch(st).lanes[p].ready == st.lanes[p].ready[1..] + Tail(st.lanes[p].slot)
  {
    hide Placed, Bags;
    forall q | 0 <= q < p ensures !Offers(st.lanes[q], st.info) {
      FrontIsFirst(st, q);
      if st.lanes[q].ready != [] {
        ReadyOk(st, q, st.lanes[q].ready[0]);
      }
      if st.lanes[q].slot.Some? {
        ReadyOk(st, q, st.lanes[q].slot.value);
      }
    }
    FrontIsFirst(st, p);
    assert Best(st, 0) == p;
    assert st.lanes[p].ready[..0] + st.lanes[p].ready[1..] == st.lanes[p].ready[1..];
  }

  /** A step that does not select t moves it one place up when it selects, one down when it creates a
      thread of the same priority, and not at all otherwise. */
  lemma StepWaits(y: Sys, e: Step, p: nat, t: nat)
    requires Inv(y) && Enabled(y, e) && p < PRITY_MAX && t in y.st.lanes[p].ready
    requires Selects(e) ==> NoneBetter(y.st, p) && Next(y, e).st.curr != t
    ensures var l := Next(y, e).st.lanes;
      && |l| == PRITY_MAX && t in l[p].ready
      && IndexOf(l[p].ready, t) + (if Selects(e) then 1 else 0)
         == IndexOf(y.st.lanes[p].ready, t) + if e.DoCreate? && e.prio == p then 1 else 0
  {
    hide Sound, Awake, Up, RiseAll, Switch, IndexOf;
    SoundLanes(y.st);
    match e {
      case DoDown(s) =>
      case DoUp(s) => TailGrows(y.st, s, p, t);
      case DoSwitch => FrontGoes(y.st, p, t);
      case DoPreempt => FrontGoes(y.st, p, t);
      case DoCreate(u, q) => FrontComes(y.st, p, t, u);
      case DoLeave =>
    }
  }

  lemma TailGrows(st: State, s: nat, p: nat, t: nat)
    requires Good(st) && s < |st.sems| && p < PRITY_MAX && t in st.lanes[p].ready
    ensures var l := Up(st, s).lanes;
      |l| == PRITY_MAX && t in l[p].ready && IndexOf(l[p].ready, t) == IndexOf(st.lanes[p].ready, t)
  {
    hide Sound, Awake, Up, RiseAll;
    SoundLanes(st);
    UpKeeps(st, s);
    RiseAllAppends(Bumped(st, s), s, p);
    assert Up(st, s).lanes[p].ready == st.lanes[p].ready + OfPrio(st.sems[s].wait, st.info, p);
    IndexOfAppend(st.lanes[p].ready, OfPrio(st.sems[s].wait, st.info, p), t);
  }

  lemma FrontComes(st: State, p: nat, t: nat, u: nat)
    requires Sound(st) && p < PRITY_MAX && t in st.lanes[p].ready && u !in st.info
    ensures t in [u] + st.lanes[p].ready && IndexOf([u] + st.lanes[p].ready, t) == IndexOf(st.lanes[p].ready, t) + 1
  {
    ReadyOk(st, p, t);
    var l := [u] + st.lanes[p].ready;
    assert l[1..] == st.lanes[p].ready && l[0] != t;
  }

  lemma FrontGoes(st: State, p: nat, t: nat)
    requires Good(st) && p < PRITY_MAX && NoneBetter(st, p) && t in st.lanes[p].ready && Switch(st).curr != t
    ensures var l := Switch(st).lanes;
      && |l| == PRITY_MAX && t in l[p].ready
      && IndexOf(l[p].ready, t) + 1 == IndexOf(st.lanes[p].ready, t)
  {
    hide Good;
    ServesFront(st, p);
    SwitchKeeps(st);
    var l := st.lanes[p].ready;
    IndexOfAppend(l[1..], Tail(st.lanes[p].slot), t);
  }

  /** Bounded waiting: a thread at position k of the ready list of the best priority that can run is
      selected within k + 1 selections, plus one per thread created at that priority meanwhile. */
  lemma {:induction false} BoundedWaiting(y: Sys, run: seq<Step>, p: nat, t: nat)
    requires Inv(y) && Legal(y, run) && p < PRITY_MAX && t in y.st.lanes[p].ready && Unrivalled(y, run, p)
    requires Selections(run) > IndexOf(y.st.lanes[p].ready, t) + Creations(run, p)
    ensures Chosen(y, run, t)
    decreases |run|
  {
    hide Good, Enabled, Next;
    StepKeeps(y, run[0]);
    var y' := Next(y, run[0]);
    if !(Selects(run[0]) && y'.st.curr == t) {
      StepWaits(y, run[0], p, t);
      BoundedWaiting(y', run[1..], p, t);
    }
  }
}
