/** The scheduler object of kernel/krlsched.c with the semaphores of kernel/krlsem.c and the wait lists of
    kernel/krlwaitlist.c, one method per function, each proved to do what its counterpart on values does.
    A branch that stops the kernel is `assert false`. */
module Sched {
  import opened Options
  import opened Threads
  import opened Interleave

  /** Values of sda_schdflgs: nothing to do, a switch is due, the first switch to idle is due. */
  datatype Due = Nothing | Change | StartIdle

  class Scheduler {
    const lanes: array<Lane>
    const sems: array<Sem>
    var info: map<nat, Info>
    var gone: seq<nat>
    var curr: nat
    const idle: nat
    var due: Due

    ghost function St(): (st: State)
      reads this, lanes, sems
    {
      State(info, lanes[..], sems[..], gone, curr, idle)
    }

    /** init_krlsched with the idle thread running; sem_t objects start with the given counts. */
    constructor (i: nat, counts: seq<nat>)
      ensures St() == Boot(i, counts).st && due == Nothing && fresh(lanes) && fresh(sems)
    {
      lanes := new Lane[PRITY_MAX](_ => Lane([], None, 0));
      sems := new Sem[|counts|](k requires 0 <= k < |counts| => Sem(counts[k], [], 0, counts[k], 0, 0));
      info, gone, curr, idle, due := map[], [], i, i, Nothing;
      new;
      assert lanes[..] == Boot(i, counts).st.lanes;
      assert sems[..] == Boot(i, counts).st.sems;
    }

    /** krlsched_wait and krlwlst_add_thread. */
    method WaitOn(s: nat)
      requires Sound(St()) && InSlot(St()) && s < sems.Length
      modifies this`info, lanes, sems
      ensures St() == Park(old(St()), s)
    {
      hide Placed, Bags;
      var t := curr;
      var p := info[t].prio;
      assert LaneOk(St().lanes[p], info);
      if p >= PRITY_MAX || lanes[p].nr < 1 {
        assert false;
      }
      info := info[t := Info(p, Wait)];
      if lanes[p].slot == Some(t) {
        lanes[p] := lanes[p].(slot := None);
      }
      lanes[p] := lanes[p].(nr := lanes[p].nr - 1);
      sems[s] := sems[s].(wait := [t] + sems[s].wait, nr := sems[s].nr + 1);
    }

    /** krlwlst_del_thread: the front of the wait list, with the list one shorter. */
    method TakeWaiter(s: nat) returns (t: Option<nat>)
      requires s < sems.Length && Balanced(sems[s])
      modifies sems
      ensures t.Some? <==> old(sems[s].wait) != []
      ensures t.Some? ==> t.value == old(sems[s].wait)[0]
      ensures t.Some? ==>
        sems[..] == old(sems[..])[s := old(sems[s]).(wait := old(sems[s].wait)[1..], nr := old(sems[s].nr) - 1)]
    {
      if sems[s].wait == [] {
        return None;
      }
      if sems[s].nr < 1 {
        assert false;
      }
      t := Some(sems[s].wait[0]);
      sems[s] := sems[s].(wait := sems[s].wait[1..], nr := sems[s].nr - 1);
    }

    /** krlsched_up. */
    method WakeOne(s: nat)
      requires Sound(St()) && s < sems.Length && sems[s].wait != []
      modifies this`info, lanes, sems
      ensures sems[s].wait == old(sems[s].wait)[1..]
      ensures var w := old(sems[s].wait[0]);
        w in old(info) && old(info)[w].prio < PRITY_MAX && St() == Rise(old(St()), s) && Sound(St())
    {
      hide Placed, Bags;
      RiseKeeps(St(), s);
      SoundSem(St(), s);
      var w := TakeWaiter(s);
      if w.None? {
        assert false;
      }
      var t := w.value;
      var p := info[t].prio;
      if p >= PRITY_MAX {
        assert false;
      }
      info := info[t := Info(p, Run)];
      lanes[p] := lanes[p].(ready := lanes[p].ready + [t], nr := lanes[p].nr + 1);
    }

    /** krlwlst_allup. */
    method WakeAll(s: nat)
      requires Sound(St()) && s < sems.Length
      modifies this`info, lanes, sems
      ensures St() == RiseAll(old(St()), s)
    {
      hide Sound, Rise;
      while sems[s].wait != []
        invariant Sound(St()) && RiseAll(St(), s) == RiseAll(old(St()), s) && curr == old(curr) && gone == old(gone)
        decreases |sems[s].wait|
      {
        WakeOne(s);
      }
    }

    /** One pass of krlsem_down. */
    method TryDown(s: nat) returns (taken: bool)
      requires Good(St()) && InSlot(St()) && s < sems.Length
      modifies this`info, lanes, sems
      ensures St() == Down(old(St()), s) && taken == (old(sems[s].count) >= 1)
    {
      if sems[s].count < 1 {
        WaitOn(s);
        return false;
      }
      sems[s] := sems[s].(count := sems[s].count - 1, downs := sems[s].downs + 1);
      return true;
    }

    /** krlsem_up. */
    method Raise(s: nat)
      requires Good(St()) && s < sems.Length
      modifies this`info, this`due, lanes, sems
      ensures St() == Up(old(St()), s) && due == Change
    {
      hide Sound, Awake;
      SoundSem(St(), s);
      CountKeeps(St(), s, Bumped(St(), s).sems[s]);
      sems[s] := sems[s].(count := sems[s].count + 1, ups := sems[s].ups + 1);
      if sems[s].count < 1 {
        assert false;
      }
      assert St() == Bumped(old(St()), s);
      WakeAll(s);
      due := Change;
    }

    /** The first thread of lane p that can run. */
    method ScanLane(p: nat) returns (k: nat)
      requires p < lanes.Length
      ensures k == FirstReady(lanes[p].ready, info)
    {
      k := 0;
      while k < |lanes[p].ready| && !Runnable(info, lanes[p].ready[k])
        invariant k <= |lanes[p].ready|
        invariant forall j :: 0 <= j < k ==> !Runnable(info, lanes[p].ready[j])
      {
        k := k + 1;
      }
    }

    /** krlsched_select_thread. */
    method Select() returns (t: nat)
      modifies lanes
      ensures var q := Best(old(St()), 0);
        if q == lanes.Length then t == idle && St() == old(St())
        else var l := ServeBest(old(lanes[q]), info);
          t == l.slot.value && St() == old(St()).(lanes := old(lanes[..])[q := l])
    {
      var p := 0;
      while p < lanes.Length
        invariant p <= lanes.Length && lanes[..] == old(lanes[..])
        invariant forall j :: 0 <= j < p ==> !Offers(lanes[j], info)
      {
        var k := ScanLane(p);
        if k < |lanes[p].ready| || lanes[p].slot.Some? {
          BestIs(St(), p);
          if k < |lanes[p].ready| {
            t := lanes[p].ready[k];
            lanes[p] := lanes[p].(ready := lanes[p].ready[..k] + lanes[p].ready[k + 1..] + Tail(lanes[p].slot),
              slot := Some(t));
          } else {
            t := lanes[p].slot.value;
          }
          assert lanes[..] == old(lanes[..])[p := ServeBest(old(lanes[p]), info)];
          return;
        }
        p := p + 1;
      }
      BestIs(St(), p);
      t := idle;
    }

    /** krlschedul with __to_new_context. The first switch to idle selects nobody. */
    method Schedule()
      requires Sound(St())
      modifies this`info, this`curr, this`due, lanes
      ensures St() == if old(due) == StartIdle then old(St()) else Switch(old(St()))
      ensures due == if old(due) == StartIdle then Nothing else old(due)
    {
      hide Sound;
      if due == StartIdle {
        due := Nothing;
        return;
      }
      SoundLanes(St());
      var next := Select();
      curr := next;
      info := Started(info, next);
    }

    /** krlsched_chkneed_pmptsched at the end of an interrupt; sda_premptidx is always PMPT_FLGS. */
    method CheckPreempt()
      requires Sound(St())
      modifies this`info, this`curr, this`due, lanes
      ensures St() == (if old(due) == Change then Switch(old(St())) else old(St())) && due == Nothing
    {
      hide Sound, Switch;
      var go := false;
      if due == Change {
        due := Nothing;
        go := true;
      }
      if due == StartIdle {
        go := true;
      }
      if go {
        Schedule();
      }
    }

    /** Whoever is raised competes at the next interrupt: after krlsem_up the best lane runs, and the switch
        happens once only. */
    method RaiseThenInterrupts(s: nat)
      requires Good(St()) && s < sems.Length
      modifies this`info, this`curr, this`due, lanes, sems
      ensures Sound(Up(old(St()), s)) && St() == Switch(Up(old(St()), s)) && due == Nothing
    {
      hide Sound, Awake, Up, Switch;
      UpKeeps(St(), s);
      Raise(s);
      CheckPreempt();
      SwitchKeeps(Up(old(St()), s));
      CheckPreempt();
    }

    /** krlschdclass_add_thread for a thread of status NEW. */
    method Add(t: nat, p: nat)
      requires lanes.Length == PRITY_MAX && p < PRITY_MAX
      modifies this`info, lanes
      ensures St() == Create(old(St()), t, p)
    {
      info := info[t := Info(p, New)];
      lanes[p] := lanes[p].(ready := [t] + lanes[p].ready, nr := lanes[p].nr + 1);
    }

    /** krlsched_exit and krlschdclass_del_thread_addexit. */
    method Quit()
      requires Sound(St()) && InSlot(St())
      modifies this`info, this`gone, lanes
      ensures St() == Leave(old(St()))
    {
      hide Placed, Bags;
      var t := curr;
      if t == idle {
        assert false;
      }
      var p := info[t].prio;
      assert LaneOk(St().lanes[p], info);
      if p >= PRITY_MAX || lanes[p].nr < 1 {
        assert false;
      }
      lanes[p] := lanes[p].(nr := lanes[p].nr - 1);
      if lanes[p].slot == Some(t) {
        lanes[p] := lanes[p].(slot := None);
      }
      info := info[t := Info(p, Exit)];
      gone := [t] + gone;
    }
  }

  /** The object takes every step of the interleaved system: one method call per locked section. */
  method Take(k: Scheduler, ghost y: Sys, e: Step)
    requires Inv(y) && k.St() == y.st && Enabled(y, e) && k.due != StartIdle
    modifies k, k.lanes, k.sems
    ensures Inv(Next(y, e)) && k.St() == Next(y, e).st && k.due != StartIdle
  {
    hide Sound, Awake, Park, Leave, Switch, Up, Create;
    StepKeeps(y, e);
    SoundLanes(y.st);
    match e {
      case DoDown(s) => var taken := k.TryDown(s);
      case DoUp(s) => k.Raise(s);
      case DoSwitch => k.Schedule();
      case DoPreempt => k.Schedule();
      case DoCreate(t, p) => k.Add(t, p);
      case DoLeave => k.Quit();
    }
  }

  lemma BestIs(st: State, p: nat)
    requires p <= |st.lanes| && (p < |st.lanes| ==> Offers(st.lanes[p], st.info))
    requires forall j :: 0 <= j < p ==> !Offers(st.lanes[j], st.info)
    ensures Best(st, 0) == p
  {
  }
}
