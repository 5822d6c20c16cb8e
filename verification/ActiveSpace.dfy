// Which page tables CR3 holds from step to step, and what that means for a process that has ended: whether its address
// space is given back when its slot is collected.
module ActiveSpace {
  import S = Scheduler

  // The process table, the register, and ctx.cr3 of each slot in use (0: the process has no page tables of its own).
  datatype World = World(sched: S.State, cr3: nat, saved: seq<nat>)

  ghost predicate Sized(w: World)
  {
    S.Shape(w.sched) && |w.saved| == S.SLOTS
  }

  ghost predicate Live(w: World)
  {
    Sized(w) && S.Started(w.sched) && !w.sched.halted
  }

  // Entering a process loads its page tables, if it has any.
  function Loaded(saved: nat, cr3: nat): nat { if saved != 0 then saved else cr3 }

  // One step of the scheduler; pml4 is what a created process gets in its ctx.cr3. Only a switch touches the register;
  // the process that leaves saves it, unless it ends.
  function Step(w: World, op: S.Op, pml4: nat): (w': World)
    requires Sized(w)
    ensures Sized(w') && w'.sched == S.Do(w.sched, op)
  {
    var s, s' := w.sched, S.Do(w.sched, op);
    if op.CreateOp? then
      var n := S.FindFree(s.ps, 0);
      World(s', w.cr3, if s.halted || n == -1 then w.saved else w.saved[n := pml4])
    else if s'.index == s.index then World(s', w.cr3, w.saved)
    else World(s', Loaded(w.saved[s'.index], w.cr3), if op.ExitOp? then w.saved else w.saved[s.index := w.cr3])
  }

  // The register and the contexts after a switch to slot n; 'keep' when the process that leaves is not saved.
  ghost predicate Switched(w: World, cr3: nat, saved: seq<nat>, n: nat, keep: bool)
    requires Sized(w)
  {
    n < S.SLOTS && |saved| == S.SLOTS && cr3 == Loaded(w.saved[n], w.cr3)
    && forall i | 0 <= i < S.SLOTS :: saved[i] == if i == w.sched.index && !keep then w.cr3 else w.saved[i]
  }

  lemma SwitchIsStep(w: World, w': World, op: S.Op)
    requires Sized(w) && !op.CreateOp? && w'.sched == S.Do(w.sched, op) && w'.sched.index != w.sched.index
    requires Switched(w, w'.cr3, w'.saved, w'.sched.index, op.ExitOp?)
    ensures w' == Step(w, op, 0)
  {
    hide S.Do;
    assert w'.saved == Step(w, op, 0).saved;
  }

  lemma StayIsStep(w: World, w': World, op: S.Op)
    requires Sized(w) && !op.CreateOp? && w'.sched == S.Do(w.sched, op) && w'.sched.index == w.sched.index
    requires w'.cr3 == w.cr3 && w'.saved == w.saved
    ensures w' == Step(w, op, 0)
  {
    hide S.Do;
  }

  // A running process that has page tables runs on them.
  ghost predicate OwnTables(w: World)
    requires Sized(w)
  {
    w.saved[w.sched.index] != 0 ==> w.cr3 == w.saved[w.sched.index]
  }

  lemma StepOwn(w: World, op: S.Op, pml4: nat)
    requires Live(w) && OwnTables(w)
    ensures OwnTables(Step(w, op, pml4))
  {
    hide S.FindPid, S.NextReady;
  }

  // The process in slot d is alive and keeps the page tables it was created with; when it runs, CR3 holds them.
  ghost predicate On(w: World, d: nat, root: nat)
    requires Sized(w) && S.Started(w.sched)
  {
    S.InUse(w.sched.ps, d) && w.saved[d] == root && (w.sched.index == d ==> w.cr3 == root)
  }

  lemma CreatedOn(w: World, ok: bool, child: bool, root: nat)
    requires Live(w) && OwnTables(w)
    ensures var d, w' := S.FindFree(w.sched.ps, 0), Step(w, S.CreateOp(ok, child), root);
            ok && d != -1 ==> S.Started(w'.sched) && On(w', d, root)
  {
  }

  lemma StepOn(w: World, d: nat, root: nat, op: S.Op, pml4: nat)
    requires Live(w) && On(w, d, root) && root != 0 && !(op.ExitOp? && w.sched.index == d)
    ensures var w' := Step(w, op, pml4); w'.sched.halted || (Live(w') && On(w', d, root))
  {
    S.StepSafe(w.sched, op);
    StaysInUse(w.sched, op, d);
    if op.CreateOp? {
      hide S.FindPid, S.NextReady;
    } else {
      hide S.Do, S.InUse;
      assert S.Do(w.sched, op).index < S.SLOTS;
    }
  }

  lemma StaysInUse(s: S.State, op: S.Op, d: nat)
    requires S.Started(s) && !s.halted && S.InUse(s.ps, d) && !(op.ExitOp? && s.index == d)
    ensures S.InUse(S.Do(s, op).ps, d)
  {
    hide S.FindPid, S.NextReady;
  }

  // From its creation until it exits a process runs on its own page tables, whatever the others are and do.
  lemma {:induction false} RunsOnOwn(w: World, d: nat, root: nat, events: seq<Event>)
    requires Live(w) && On(w, d, root) && root != 0
    requires !ExitsIn(w, d, events)
    ensures var w' := After(w, events); w'.sched.halted || (Live(w') && On(w', d, root))
    decreases |events|
  {
    hide Step, S.Started, S.InUse, S.Do, On;
    if events != [] {
      StepOn(w, d, root, events[0].op, events[0].pml4);
      var w' := Step(w, events[0].op, events[0].pml4);
      if !w'.sched.halted { RunsOnOwn(w', d, root, events[1..]); }
    }
  }

  // A run, up to a halt.
  function After(w: World, events: seq<Event>): (w': World)
    requires Sized(w)
    ensures Sized(w')
    decreases |events|
  {
    if events == [] || w.sched.halted then w else After(Step(w, events[0].op, events[0].pml4), events[1..])
  }

  predicate ExitsIn(w: World, d: nat, events: seq<Event>)
    requires Sized(w)
    decreases |events|
  {
    events != [] && !w.sched.halted
    && ((events[0].op.ExitOp? && w.sched.index == d)
        || ExitsIn(Step(w, events[0].op, events[0].pml4), d, events[1..]))
  }

  // ---------------------------------------------------------------- the slot of a process that has ended

  // The steps that run proc_gc_run, before they choose whom to switch to.
  predicate Collects(op: S.Op)
  {
    op.TickOp? || op.YieldOp? || op.CollectOp?
  }

  datatype Event = Event(op: S.Op, pml4: nat)

  // What becomes of the slot: find_free gives it to a new process, or it is collected while CR3 holds 'active', or
  // neither has happened yet.
  datatype Fate = Reused | Collected(active: nat) | Pending

  function FateOf(w: World, d: nat, events: seq<Event>): Fate
    requires Sized(w)
    decreases |events|
  {
    if events == [] || w.sched.halted then Pending
    else
      var op := events[0].op;
      if Collects(op) then Collected(w.cr3)
      else if op.CreateOp? && S.FindFree(w.sched.ps, 0) == d then Reused
      else FateOf(Step(w, op, events[0].pml4), d, events[1..])
  }

  ghost predicate Ended(s: S.State, d: nat)
    requires S.Shape(s)
  {
    d < S.SLOTS && s.ps[d].present && s.ps[d].state == S.Terminated
  }

  // Collection is what empties the slot, creation what fills it, and nothing else touches it.
  lemma SlotOfDead(s: S.State, op: S.Op, d: nat)
    requires S.Started(s) && !s.halted && Ended(s, d)
    ensures Collects(op) <==> !S.Do(s, op).ps[d].present && S.Do(s, op).ps[d].pid == s.ps[d].pid && !op.CreateOp?
    ensures !Collects(op) && !(op.CreateOp? && S.FindFree(s.ps, 0) == d) ==> Ended(S.Do(s, op), d)
    ensures op.CreateOp? && S.FindFree(s.ps, 0) == d ==> S.Do(s, op).ps[d].pid == s.nextPid && !Ended(S.Do(s, op), d)
  {
    hide S.FindPid, S.NextReady, S.FindFree;
  }

  // A process created right after an exit gets the slot of the process that ended exactly when every lower slot is in
  // use.
  lemma ReusedExactly(s: S.State, code: int)
    requires S.Started(s) && !s.halted && !S.Exit(s, code).halted
    ensures S.FindFree(S.Exit(s, code).ps, 0) == s.cur
            <==> forall i | 0 <= i < s.cur :: s.ps[i].present && s.ps[i].state != S.Terminated
  {
    hide S.FindPid, S.NextReady, S.FindFree;
    var t := S.Exit(s, code);
    assert t.ps[s.cur].state == S.Terminated;
    assert forall i | 0 <= i < s.cur :: t.ps[i].present == s.ps[i].present
                                       && (t.ps[i].state == S.Terminated <==> s.ps[i].state == S.Terminated);
    FirstFree(t.ps, s.cur);
  }

  lemma FirstFree(ps: seq<S.Proc>, d: nat)
    requires d < |ps| && ps[d].state == S.Terminated
    ensures S.FindFree(ps, 0) == d <==> forall i | 0 <= i < d :: ps[i].present && ps[i].state != S.Terminated
  {
    FirstFreeFrom(ps, d, 0);
  }

  lemma {:induction false} FirstFreeFrom(ps: seq<S.Proc>, d: nat, k: nat)
    requires k <= d < |ps| && ps[d].state == S.Terminated
    ensures S.FindFree(ps, k) == d <==> forall i | k <= i < d :: ps[i].present && ps[i].state != S.Terminated
    decreases d - k
  {
    if k < d { FirstFreeFrom(ps, d, k + 1); }
  }

  // After an exit CR3 still holds the tables of the process that ended exactly when the next process has none of its
  // own, or the same.
  lemma HeldAfterExit(w: World, code: int)
    requires Live(w) && !S.Exit(w.sched, code).halted
    ensures var w' := Step(w, S.ExitOp(code), 0);
            w'.sched.index != w.sched.index && (w'.cr3 == w.cr3 <==> w.saved[w'.sched.index] in {0, w.cr3})
  {
    hide S.FindPid, S.NextReady, S.FindFree;
  }

  // ---------------------------------------------------------------- when it is given back

  // Every process that can run has page tables of its own, other than pml4, and they are in CR3 when it runs.
  ghost predicate AllOwn(w: World, pml4: nat)
    requires Sized(w)
  {
    w.cr3 !in {0, pml4}
    && forall i: nat | S.InUse(w.sched.ps, i) :: w.saved[i] !in {0, pml4}
  }

  lemma StepAllOwn(w: World, op: S.Op, pml4: nat, new4: nat)
    requires Live(w) && AllOwn(w, pml4) && new4 !in {0, pml4}
    ensures AllOwn(Step(w, op, new4), pml4) && (Live(Step(w, op, new4)) || Step(w, op, new4).sched.halted)
  {
    S.StepSafe(w.sched, op);
    if op.CreateOp? {
      hide S.FindFree;
    } else {
      S.StepInUse(w.sched, op);
      hide S.Do, S.Started, S.InUse;
    }
  }

  // Then, whatever happens after an exit, the address space of the process that ended is never skipped.
  lemma {:induction false} NeverSkipped(w: World, d: nat, pml4: nat, events: seq<Event>)
    requires Live(w) && AllOwn(w, pml4) && forall i | 0 <= i < |events| :: events[i].pml4 !in {0, pml4}
    ensures FateOf(w, d, events) != Collected(pml4)
    decreases |events|
  {
    hide Step, S.FindFree, S.Started, S.Do, AllOwn;
    assert w.cr3 != pml4 by { OwnCr3(w, pml4); }
    if events != [] {
      StepAllOwn(w, events[0].op, pml4, events[0].pml4);
      var w' := Step(w, events[0].op, events[0].pml4);
      if !w'.sched.halted { NeverSkipped(w', d, pml4, events[1..]); }
    }
  }

  lemma OwnCr3(w: World, pml4: nat)
    requires Sized(w) && AllOwn(w, pml4)
    ensures w.cr3 != pml4
  {
  }

  // ---------------------------------------------------------------- one run for each fate

  // Slot 0 is READY with 'saved' in its context, slot 1 runs on pml4, the rest is empty.
  function TwoProcs(saved: nat, pml4: nat): World
  {
    World(S.State(seq(S.SLOTS, i => if i == 0 then S.Proc(true, 1, S.Ready, 0, 0, 0)
                                    else if i == 1 then S.Proc(true, 2, S.Running, 0, 0, 0)
                                    else S.Proc(false, 0, S.Created, 0, 0, 0)), 1, 1, true, 3, false),
          pml4, seq(S.SLOTS, i => if i == 0 then saved else if i == 1 then pml4 else 0))
  }

  // The process in slot 1 exits. If another is created before the next tick its slot is reused. If not, the tick
  // collects it, while CR3 holds the tables of the process in slot 0; or, if that has none, still those of slot 1.
  lemma ThreeFates(saved: nat, pml4: nat, code: int, new4: nat)
    requires pml4 != 0
    ensures var w := TwoProcs(saved, pml4); Live(w) && OwnTables(w)
    ensures var w := Step(TwoProcs(saved, pml4), S.ExitOp(code), 0);
            Live(w) && FateOf(w, 1, [Event(S.CreateOp(true, true), new4), Event(S.TickOp, 0)]) == Reused
            && FateOf(w, 1, [Event(S.TickOp, 0)]) == Collected(if saved == 0 then pml4 else saved)
  {
    var w := TwoProcs(saved, pml4);
    S.StepSafe(w.sched, S.ExitOp(code));
    NextIsFirst(w.sched, code);
    ReusedExactly(w.sched, code);
    var w' := Step(w, S.ExitOp(code), 0);
    var create := [Event(S.CreateOp(true, true), new4), Event(S.TickOp, 0)];
    assert create[0] == Event(S.CreateOp(true, true), new4);
  }

  lemma NextIsFirst(s: S.State, code: int)
    requires exists saved: nat, pml4: nat :: s == TwoProcs(saved, pml4).sched
    ensures S.Started(s) && !S.Exit(s, code).halted && S.Exit(s, code).index == 0
  {
    hide S.FindPid, S.NextReady;
    var ps := S.SetState(S.Told(s, code), s.cur, S.Terminated);
    S.PickNearest(ps, 1);
    assert S.IsReady(ps, 0);
  }
}
