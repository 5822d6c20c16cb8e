// What the steps of the scheduler do to each process, said of the states before and after and not of how a step is
// computed: who stays runnable, who runs again, and whose child a new process is.
module SchedulerLaws {
  import opened Scheduler

  // ---------------------------------------------------------------- one step

  // The state in which a step leaves the process that was running when another one runs, or none.
  function LeftIn(op: Op): ProcState
  {
    match op
    case BlockOp => Blocked
    case ExitOp(_) => Terminated
    case _ => Ready
  }

  // This step wakes the process in slot i: it is blocked, and it is called by its pid or its child exits.
  predicate Wakes(s: State, op: Op, i: nat)
    requires Shape(s) && i < SLOTS
  {
    s.ps[i].present && s.ps[i].state == Blocked && ((op.WakeupOp? && op.pid == s.ps[i].pid) || ChildExit(s, op, i))
  }

  // The process that was running stays so, unless the processor is handed on; then it is left runnable by a tick or a
  // yield, blocked by a block and ended by an exit.
  lemma LeavesBehind(s: State, op: Op)
    requires Started(s) && !s.halted && PidsOk(s)
    ensures var s' := Do(s, op);
            s'.ps[s.index].present
            && s'.ps[s.index].state == if s'.index != s.index || s'.halted then LeftIn(op) else Running
    ensures Do(s, op).index != s.index ==> Hands(op)
    ensures op.ExitOp? ==> Do(s, op).index != s.index || Do(s, op).halted
  {
    hide FindPid, NextReady, FindFree, PidsOk;
    match op {
      case ExitOp(code) => ToldStates(s, code);
      case _ =>
    }
  }

  // The process that gets the processor was READY, or is woken by this very step, and runs.
  lemma Enters(s: State, op: Op)
    requires Started(s) && !s.halted && PidsOk(s)
    ensures var s' := Do(s, op);
            s'.index != s.index ==>
              (IsReady(s.ps, s'.index) || Wakes(s, op, s'.index)) && s'.ps[s'.index].present
              && s'.ps[s'.index].state == Running && s'.cur == s'.index
  {
    hide FindPid, NextReady, FindFree, PidsOk;
    match op {
      case ExitOp(code) => ToldStates(s, code);
      case _ =>
    }
  }

  // A tick, a yield or a block hands the processor on exactly when another process is READY. An exit halts the machine
  // exactly when none is and no parent is woken.
  lemma HandsOn(s: State, op: Op)
    requires Started(s) && !s.halted && PidsOk(s) && Hands(op)
    ensures !op.ExitOp? ==> (Do(s, op).index != s.index <==> exists i :: IsReady(s.ps, i))
    ensures !op.ExitOp? ==> !Do(s, op).halted
    ensures op.ExitOp? ==>
              (Do(s, op).halted <==>
               (forall i :: !IsReady(s.ps, i)) && forall i: nat | i < SLOTS && i != s.index :: !Wakes(s, op, i))
  {
    hide FindPid, NextReady, FindFree, PidsOk;
    match op {
      case TickOp => SomeoneElse(s, SetState(Collected(s.ps), s.cur, Ready));
      case YieldOp => SomeoneElse(s, SetState(Collected(s.ps), s.cur, Ready));
      case BlockOp => SomeoneElse(s, SetState(s.ps, s.cur, Blocked));
      case ExitOp(code) =>
        ToldStates(s, code);
        var ps := SetState(Told(s, code), s.cur, Terminated);
        PickNearest(ps, s.index);
        hide Pick, Told, ChildExit;
        assert forall i: nat | i < SLOTS :: IsReady(ps, i) <==> i != s.index && (IsReady(s.ps, i) || Wakes(s, op, i));
        assert forall i :: IsReady(ps, i) ==> 0 <= i < SLOTS;
      case _ =>
    }
  }

  lemma SomeoneElse(s: State, ps: seq<Proc>)
    requires Started(s) && |ps| == SLOTS
    requires forall i | 0 <= i < SLOTS && i != s.index :: IsReady(ps, i) <==> IsReady(s.ps, i)
    ensures Pick(ps, s.index) == -1 || Pick(ps, s.index) == s.index <==> forall i :: !IsReady(s.ps, i)
  {
    PickNearest(ps, s.index);
    hide NextReady, Pick;
    if i :| IsReady(s.ps, i) {
      assert IsReady(ps, i) && Distance(s.index, i) < Distance(s.index, s.index);
    }
  }

  // Every other live process keeps its slot, its name and its state, unless it is woken or gets the processor.
  lemma OthersStay(s: State, op: Op, i: nat)
    requires Started(s) && !s.halted && PidsOk(s) && InUse(s.ps, i) && i != s.index
    ensures var q, q' := s.ps[i], Do(s, op).ps[i];
            q'.present && q'.pid == q.pid && q'.parent == q.parent
            && q'.state == if Do(s, op).index == i then Running else if Wakes(s, op, i) then Ready else q.state
  {
    PidNamesSlot(s, i);
    hide FindPid, NextReady, FindFree, PidsOk, Create;
    match op {
      case ExitOp(code) => ToldStates(s, code);
      case CreateOp(ok, child) => CreatesOne(s, ok, child);
      case _ =>
    }
  }

  // An ended process gives up its slot to the next tick, yield or collection, and a slot comes into use by creation
  // alone.
  lemma EndedGoes(s: State, op: Op, i: nat)
    requires Started(s) && !s.halted && PidsOk(s) && i < SLOTS && !InUse(s.ps, i) && !op.CreateOp?
    ensures var q, q' := s.ps[i], Do(s, op).ps[i];
            q'.state == q.state
            && q'.present == (q.present && !(op.TickOp? || op.YieldOp? || op.CollectOp?))
  {
    hide FindPid, NextReady, FindFree, PidsOk;
    match op {
      case ExitOp(code) => ToldStates(s, code);
      case _ =>
    }
  }

  // An exit changes no state but that of a blocked parent.
  lemma ToldStates(s: State, code: int)
    requires Started(s) && PidsOk(s)
    ensures |Told(s, code)| == SLOTS
    ensures forall i: nat | i < SLOTS ::
              var q, q' := s.ps[i], Told(s, code)[i];
              q'.present == q.present && q'.pid == q.pid && q'.parent == q.parent
              && q'.state == if Wakes(s, ExitOp(code), i) then Ready else q.state
  {
    var me := s.ps[s.cur];
    var n := FindPid(s.ps, me.parent, 0);
    if n == -1 {
      FindsNothing(s.ps, me.parent);
    } else {
      var ps1 := s.ps[n := s.ps[n].(waitPid := me.pid, waitCode := code)];
      SamePids(s.ps, ps1, me.parent, 0);
      forall i: nat | i < SLOTS && s.ps[i].present && s.ps[i].pid == me.parent
        ensures i == n
      {
        PidNamesSlot(s, i);
      }
    }
  }

  // ---------------------------------------------------------------- running again

  // j is in the rotation.
  predicate Runnable(s: State, j: nat)
    requires Shape(s)
  {
    j < SLOTS && s.ps[j].present && (s.ps[j].state == Ready || s.ps[j].state == Running)
  }

  // Whenever it is j's turn, it neither blocks nor exits.
  ghost predicate KeepsOn(s: State, ops: seq<Op>, j: nat)
    requires Shape(s)
  {
    forall i | 0 <= i < |ops| && After(s, ops, i).index == j :: !ops[i].BlockOp? && !ops[i].ExitOp?
  }

  lemma RunnableStep(s: State, op: Op, j: nat)
    requires Started(s) && !s.halted && PidsOk(s) && Runnable(s, j)
    requires s.index == j ==> !op.BlockOp? && !op.ExitOp?
    ensures var s' := Do(s, op); Started(s') && !s'.halted && PidsOk(s') && Runnable(s', j)
    ensures s.index == j && !Hands(op) ==> Do(s, op).index == j
  {
    PidsKept(s, op);
    if s.index == j {
      LeavesBehind(s, op);
      StepSafe(s, op);
      if Hands(op) { HandsOn(s, op); } else { NotHalted(s, op); }
    } else {
      StepCloser(s, op, j);
    }
  }

  lemma NotHalted(s: State, op: Op)
    requires Shape(s) && !s.halted && !op.ExitOp?
    ensures !Do(s, op).halted
  {
    hide NextReady, FindPid, FindFree;
  }

  // So it stays runnable, and the machine goes on.
  lemma {:induction false} StaysRunnable(s: State, ops: seq<Op>, j: nat, m: nat)
    requires Started(s) && !s.halted && PidsOk(s) && Runnable(s, j) && KeepsOn(s, ops, j) && m <= |ops|
    ensures var t := After(s, ops, m); Started(t) && !t.halted && PidsOk(t) && Runnable(t, j)
  {
    hide Do, After, PidsOk;
    if m == 0 {
      AfterNone(s, ops);
    } else {
      StaysRunnable(s, ops, j, m - 1);
      AfterStep(s, ops, m - 1);
      RunnableStep(After(s, ops, m - 1), ops[m - 1], j);
    }
  }

  // The first step of a run apart from the others.
  lemma {:induction false} FromTheFront(s: State, ops: seq<Op>, k: nat)
    requires Shape(s) && 0 < k <= |ops|
    ensures After(s, ops, k) == After(Do(s, ops[0]), ops[1..], k - 1)
    ensures Handed(ops[..k]) == (if Hands(ops[0]) then 1 else 0) + Handed(ops[1..][..k - 1])
  {
    var s1, rest := Do(s, ops[0]), ops[1..];
    AfterStep(s, ops, k - 1);
    if k == 1 {
      AfterNone(s, ops);
      AfterNone(s1, rest);
    } else {
      FromTheFront(s, ops, k - 1);
      AfterStep(s1, rest, k - 2);
    }
  }

  // A run taken up in the middle.
  lemma {:induction false} FromTheMiddle(s: State, ops: seq<Op>, m: nat, k: nat)
    requires Shape(s) && m + k <= |ops|
    ensures After(After(s, ops, m), ops[m..], k) == After(s, ops, m + k)
  {
    hide Do;
    if k == 0 {
      AfterNone(After(s, ops, m), ops[m..]);
    } else {
      FromTheMiddle(s, ops, m, k - 1);
      AfterStep(s, ops, m + k - 1);
      AfterStep(After(s, ops, m), ops[m..], k - 1);
    }
  }

  // Only handing on changes who runs.
  lemma {:induction false} NobodyElse(s: State, ops: seq<Op>, k: nat)
    requires Started(s) && !s.halted && PidsOk(s) && k <= |ops| && Handed(ops[..k]) == 0
    ensures var t := After(s, ops, k); Started(t) && !t.halted && PidsOk(t) && t.index == s.index
  {
    hide Do, After, PidsOk;
    if k == 0 {
      AfterNone(s, ops);
    } else {
      AfterStep(s, ops, k - 1);
      NobodyElse(s, ops, k - 1);
      var t := After(s, ops, k - 1);
      LeavesBehind(t, ops[k - 1]);
      NotHalted(t, ops[k - 1]);
      PidsKept(t, ops[k - 1]);
      StepSafe(t, ops[k - 1]);
    }
  }

  lemma KeepsOnAfter(s: State, ops: seq<Op>, j: nat)
    requires Shape(s) && ops != [] && KeepsOn(s, ops, j)
    ensures KeepsOn(Do(s, ops[0]), ops[1..], j)
  {
    hide Do;
    forall i | 0 <= i < |ops[1..]| && After(Do(s, ops[0]), ops[1..], i).index == j
      ensures !ops[1..][i].BlockOp? && !ops[1..][i].ExitOp?
    {
      FromTheFront(s, ops, i + 1);
    }
  }

  lemma {:induction false} AgainFrom(s: State, ops: seq<Op>, j: nat) returns (k: nat)
    requires Started(s) && !s.halted && PidsOk(s) && Runnable(s, j) && KeepsOn(s, ops, j) && Handed(ops) >= SLOTS
    ensures 0 < k <= |ops| && After(s, ops, k).index == j && 1 <= Handed(ops[..k]) <= SLOTS
    decreases |ops|
  {
    hide Do, After, PidsOk, KeepsOn;
    if s.index != j {
      k := Fair(s, ops, j);
      if Handed(ops[..k]) == 0 { NobodyElse(s, ops, k); }
      assert k > 0;
    } else {
      var op, s1, rest := ops[0], Do(s, ops[0]), ops[1..];
      KeepsOnHere(s, ops, j);
      RunnableStep(s, op, j);
      FromTheFront(s, ops, |ops|);
      assert ops[..|ops|] == ops && rest[..|ops| - 1] == rest;
      FromTheFront(s, ops, 1);
      AfterNone(s1, rest);
      var k1 := 0;
      if !Hands(op) {
        KeepsOnAfter(s, ops, j);
        k1 := AgainFrom(s1, rest, j);
      } else if s1.index != j {
        k1 := Fair(s1, rest, j);
      }
      k := k1 + 1;
      FromTheFront(s, ops, k);
    }
  }

  lemma KeepsOnHere(s: State, ops: seq<Op>, j: nat)
    requires Shape(s) && ops != [] && KeepsOn(s, ops, j) && s.index == j
    ensures !ops[0].BlockOp? && !ops[0].ExitOp?
  {
    AfterNone(s, ops);
  }

  lemma {:induction false} KeepsOnLater(s: State, ops: seq<Op>, j: nat, m: nat)
    requires Shape(s) && m <= |ops| && KeepsOn(s, ops, j)
    ensures KeepsOn(After(s, ops, m), ops[m..], j)
  {
    hide Do, After;
    forall i | 0 <= i < |ops[m..]| && After(After(s, ops, m), ops[m..], i).index == j
      ensures !ops[m..][i].BlockOp? && !ops[m..][i].ExitOp?
    {
      FromTheMiddle(s, ops, m, i);
    }
  }

  // Once in the rotation, a process that neither blocks nor exits runs again and again: counted from any moment, also
  // one at which it is running, the processor is handed on at most 64 times until it runs after a hand-over.
  lemma RunsAgain(s: State, ops: seq<Op>, j: nat, m: nat) returns (k: nat)
    requires Started(s) && !s.halted && PidsOk(s) && Runnable(s, j) && KeepsOn(s, ops, j)
    requires m <= |ops| && Handed(ops[m..]) >= SLOTS
    ensures m < k <= |ops| && 1 <= Handed(ops[m..k]) <= SLOTS
    ensures After(s, ops, k).index == j && Started(After(s, ops, k))
  {
    hide Do, After, PidsOk, KeepsOn;
    StaysRunnable(s, ops, j, m);
    KeepsOnLater(s, ops, j, m);
    var n := AgainFrom(After(s, ops, m), ops[m..], j);
    k := m + n;
    FromTheMiddle(s, ops, m, n);
    assert ops[m..][..n] == ops[m..k];
    StaysRunnable(s, ops, j, k);
  }

  // ---------------------------------------------------------------- parent and child

  // Creation succeeds exactly when some slot is free. The new process is READY, its pid was nobody's, its parent is the
  // process that created it (as a child) or none, and no other slot changes.
  lemma CreatesOne(s: State, ok: bool, child: bool)
    requires Started(s) && !s.halted && PidsOk(s)
    ensures var s' := Do(s, CreateOp(ok, child));
            if forall i: nat | i < SLOTS :: InUse(s.ps, i) then s' == s
            else exists n: nat ::
                 n < SLOTS && !InUse(s.ps, n) && NewProcess(s, s'.ps[n], ok, child) && s'.index == s.index
                 && forall i | 0 <= i < SLOTS && i != n :: s'.ps[i] == s.ps[i]
  {
    var n := FindFree(s.ps, 0);
    if n == -1 {
      AllTaken(s.ps);
    } else {
      assert !InUse(s.ps, n);
      assert NewProcess(s, Do(s, CreateOp(ok, child)).ps[n], ok, child);
    }
  }

  ghost predicate NewProcess(s: State, q: Proc, ok: bool, child: bool)
    requires Shape(s) && s.cur == s.index
  {
    q.present == ok && q.state == Ready && q.pid != 0
    && (forall i | 0 <= i < SLOTS && s.ps[i].present :: s.ps[i].pid != q.pid)
    && q.parent == if child then s.ps[s.index].pid else 0
  }

  lemma AllTaken(ps: seq<Proc>)
    requires FindFree(ps, 0) == -1
    ensures forall i: nat | i < |ps| :: InUse(ps, i)
  {
  }

  // The live process in slot j is a child of the live one in slot p, and its exit code is not there yet.
  ghost predicate Family(s: State, p: nat, j: nat, pid: nat)
    requires Shape(s)
  {
    Started(s) && PidsOk(s) && p != j && InUse(s.ps, p) && InUse(s.ps, j) && s.ps[j].pid == pid
    && s.ps[j].parent == s.ps[p].pid && s.ps[p].waitPid != pid
  }

  // A process and the child it creates.
  lemma CreatorIsParent(s: State, n: nat)
    requires Started(s) && !s.halted && PidsOk(s) && n < SLOTS && !InUse(s.ps, n)
    requires s.ps[s.index].waitPid < s.nextPid && Do(s, CreateOp(true, true)).ps[n] != s.ps[n]
    ensures var s' := Do(s, CreateOp(true, true)); Family(s', s.index, n, s'.ps[n].pid) && IsReady(s'.ps, n)
  {
    PidsKept(s, CreateOp(true, true));
    StepSafe(s, CreateOp(true, true));
    hide FindPid, PidsOk;
  }

  // A parent that asks for a child keeps waiting exactly while the child lives and its code is not there.
  lemma WaitsExactly(s: State, p: nat, pid: nat)
    requires Shape(s) && PidsOk(s) && p < SLOTS
    ensures WaitEnter(s, p, pid) == KeepWaiting
            <==> s.ps[p].waitPid != pid
                 && exists j: nat :: InUse(s.ps, j) && j < SLOTS && s.ps[j].pid == pid && s.ps[j].parent == s.ps[p].pid
  {
    hide FindPid;
    if FindPid(s.ps, pid, 0) == -1 { FindsNothing(s.ps, pid); }
    forall j: nat | InUse(s.ps, j) && s.ps[j].pid == pid
      ensures FindPid(s.ps, pid, 0) == j
    {
      PidNamesSlot(s, j);
    }
  }

  // The step is the exit of one of the two.
  predicate Ends(s: State, op: Op, p: nat, j: nat) { op.ExitOp? && (s.index == p || s.index == j) }

  // A live process that does not exit stays alive, under its pid and with its parent.
  lemma Alive(s: State, op: Op, i: nat)
    requires Started(s) && !s.halted && PidsOk(s) && InUse(s.ps, i) && !(op.ExitOp? && s.index == i)
    ensures InUse(Do(s, op).ps, i) && Do(s, op).ps[i].pid == s.ps[i].pid && Do(s, op).ps[i].parent == s.ps[i].parent
  {
    if i == s.index {
      LeavesBehind(s, op);
      hide FindPid, NextReady, FindFree, PidsOk;
    } else {
      OthersStay(s, op, i);
    }
  }

  // What is left for a process is at most the code of the one that exits.
  lemma CodeLeft(s: State, op: Op, p: nat)
    requires Started(s) && !s.halted && InUse(s.ps, p)
    ensures Do(s, op).ps[p].waitPid in {s.ps[p].waitPid, 0}
            || (op.ExitOp? && Do(s, op).ps[p].waitPid == s.ps[s.index].pid)
  {
    hide FindPid, NextReady, FindFree;
  }

  lemma FamilyStep(s: State, op: Op, p: nat, j: nat, pid: nat)
    requires Shape(s) && Family(s, p, j, pid) && !s.halted && !Ends(s, op, p, j)
    ensures Do(s, op).halted || Family(Do(s, op), p, j, pid)
  {
    PidsKept(s, op);
    StepSafe(s, op);
    Alive(s, op, p);
    Alive(s, op, j);
    CodeLeft(s, op, p);
    hide Do;
  }

  // Over every run in which neither exits, they stay parent and child, and the parent is told to keep waiting.
  lemma {:induction false} KeepsWaiting(s: State, ops: seq<Op>, p: nat, j: nat, pid: nat, k: nat)
    requires Shape(s) && Family(s, p, j, pid) && k <= |ops|
    requires forall i | 0 <= i < k :: !Ends(After(s, ops, i), ops[i], p, j)
    ensures var t := After(s, ops, k); t.halted || (Family(t, p, j, pid) && WaitEnter(t, p, pid) == KeepWaiting)
  {
    hide Do, After, WaitEnter, Family;
    if k == 0 {
      AfterNone(s, ops);
    } else {
      KeepsWaiting(s, ops, p, j, pid, k - 1);
      AfterStep(s, ops, k - 1);
      var t := After(s, ops, k - 1);
      if t.halted { HaltedStays(t, ops[k - 1]); } else { FamilyStep(t, ops[k - 1], p, j, pid); }
    }
    if !After(s, ops, k).halted { FamilyWaits(After(s, ops, k), p, j, pid); }
  }

  lemma FamilyWaits(s: State, p: nat, j: nat, pid: nat)
    requires Shape(s) && Family(s, p, j, pid)
    ensures WaitEnter(s, p, pid) == KeepWaiting
  {
    hide WaitEnter, PidsOk;
    WaitsExactly(s, p, pid);
  }

  lemma HaltedStays(s: State, op: Op)
    requires Shape(s) && s.halted
    ensures Do(s, op) == s
  {
  }
}
