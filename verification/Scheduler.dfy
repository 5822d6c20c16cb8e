// The process table and the round-robin scheduler: who runs after a tick, a yield, a block or an exit.
// Entries into the kernel are atomic steps.
module Scheduler {
  const SLOTS: nat := 64

  datatype ProcState = Created | Ready | Running | Blocked | Terminated

  datatype Proc = Proc(present: bool, pid: nat, state: ProcState, parent: nat, waitPid: nat, waitCode: int)

  // index is current_index; cur is the slot of current_proc, or -1 when it is null.
  datatype State = State(ps: seq<Proc>, index: nat, cur: int, running: bool, nextPid: nat, halted: bool)

  ghost predicate Shape(s: State)
  {
    |s.ps| == SLOTS && s.index < SLOTS && -1 <= s.cur < SLOTS
  }

  predicate IsReady(ps: seq<Proc>, i: int)
  {
    0 <= i < |ps| && ps[i].present && ps[i].state == Ready
  }

  function SetState(ps: seq<Proc>, i: int, st: ProcState): (r: seq<Proc>)
    requires 0 <= i < |ps|
  {
    ps[i := ps[i].(state := st)]
  }

  // How many slots after the one following 'from' slot j comes, going around.
  function Distance(from: nat, j: nat): nat
    requires from < SLOTS && j < SLOTS
  {
    if j > from then j - from - 1 else j + SLOTS - from - 1
  }

  // The slot c places after 'from', going around.
  function Around(from: nat, c: nat): (i: nat)
    requires from < SLOTS && c < SLOTS
    ensures i < SLOTS && Distance(from, i) == c
  {
    if from + 1 + c < SLOTS then from + 1 + c else from + 1 + c - SLOTS
  }

  // n is the nearest READY slot after 'from', or -1 when there is none at all.
  ghost predicate Nearest(ps: seq<Proc>, from: nat, n: int)
    requires |ps| == SLOTS && from < SLOTS
  {
    if n == -1 then forall i :: !IsReady(ps, i)
    else IsReady(ps, n) && forall i | IsReady(ps, i) :: Distance(from, n) <= Distance(from, i)
  }

  lemma NearestUnique(ps: seq<Proc>, from: nat, n: int, m: int)
    requires |ps| == SLOTS && from < SLOTS && Nearest(ps, from, n) && Nearest(ps, from, m)
    ensures n == m
  {
    if n != -1 && m != -1 { assert Distance(from, n) == Distance(from, m); }
  }

  function NextReady(ps: seq<Proc>, from: nat, c: nat): (n: int)
    requires |ps| == SLOTS && from < SLOTS && c <= SLOTS
    ensures n == -1 || IsReady(ps, n)
    decreases SLOTS - c
  {
    if c == SLOTS then -1
    else if IsReady(ps, Around(from, c)) then Around(from, c)
    else NextReady(ps, from, c + 1)
  }

  lemma {:induction false} NextReadyNearest(ps: seq<Proc>, from: nat, c: nat)
    requires |ps| == SLOTS && from < SLOTS && c <= SLOTS
    requires forall i | IsReady(ps, i) :: Distance(from, i) >= c
    ensures Nearest(ps, from, NextReady(ps, from, c))
    decreases SLOTS - c
  {
    if c < SLOTS && !IsReady(ps, Around(from, c)) {
      forall i | IsReady(ps, i)
        ensures Distance(from, i) >= c + 1
      {
        assert Around(from, Distance(from, i)) == i;
      }
      NextReadyNearest(ps, from, c + 1);
    }
  }

  function Pick(ps: seq<Proc>, from: nat): (n: int)
    requires |ps| == SLOTS && from < SLOTS
    ensures n == -1 || IsReady(ps, n)
  {
    NextReady(ps, from, 0)
  }

  // The nearest READY slot is what the search finds, and nothing else is.
  lemma PickNearest(ps: seq<Proc>, from: nat)
    requires |ps| == SLOTS && from < SLOTS
    ensures Nearest(ps, from, Pick(ps, from)) && forall n | Nearest(ps, from, n) :: n == Pick(ps, from)
  {
    NextReadyNearest(ps, from, 0);
    forall n | Nearest(ps, from, n)
      ensures n == Pick(ps, from)
    {
      NearestUnique(ps, from, n, Pick(ps, from));
    }
  }

  // ---------------------------------------------------------------- the operations, on values

  // Terminated processes give up their slots.
  function Collected(ps: seq<Proc>): (r: seq<Proc>)
    ensures |r| == |ps|
    ensures forall i | 0 <= i < |ps| :: r[i] == if ps[i].state == Terminated then ps[i].(present := false) else ps[i]
  {
    seq(|ps|, i requires 0 <= i < |ps| => if ps[i].state == Terminated then ps[i].(present := false) else ps[i])
  }

  function SwitchTo(s: State, ps: seq<Proc>, n: nat): State
    requires n < |ps|
  {
    s.(ps := SetState(ps, n, Running), index := n, cur := n)
  }

  // A timer interrupt.
  function Tick(s: State): State
    requires Shape(s)
  {
    if s.cur == -1 || s.ps[s.cur].state != Running || !s.running then s
    else
      var ps := SetState(Collected(s.ps), s.cur, Ready);
      var n := Pick(ps, s.index);
      if n == -1 || n == s.index then s.(ps := SetState(ps, s.cur, Running)) else SwitchTo(s, ps, n)
  }

  function Yield(s: State): State
    requires Shape(s)
  {
    var ps0 := Collected(s.ps);
    if !s.running then s.(ps := ps0)
    else
      var ps := if s.cur != -1 && ps0[s.cur].state == Running then SetState(ps0, s.cur, Ready) else ps0;
      var n := Pick(ps, s.index);
      if n == -1 || n == s.cur then s.(ps := if s.cur != -1 then SetState(ps, s.cur, Running) else ps)
      else SwitchTo(s, if s.cur != -1 then SetState(ps, s.cur, Ready) else ps, n)
  }

  function Block(s: State): State
    requires Shape(s)
  {
    if s.cur == -1 then s
    else
      var ps := SetState(s.ps, s.cur, Blocked);
      var n := Pick(ps, s.index);
      if n == -1 then s.(ps := SetState(ps, s.cur, Running)) else SwitchTo(s, ps, n)
  }

  // The first slot with this pid, or -1.
  function FindPid(ps: seq<Proc>, pid: nat, i: nat): (n: int)
    requires i <= |ps|
    ensures n == -1 || (i <= n < |ps| && ps[n].present && ps[n].pid == pid)
    ensures n == -1 ==> forall k | i <= k < |ps| :: !(ps[k].present && ps[k].pid == pid)
    decreases |ps| - i
  {
    if i == |ps| then -1 else if ps[i].present && ps[i].pid == pid then i else FindPid(ps, pid, i + 1)
  }

  function Woken(ps: seq<Proc>, pid: nat): seq<Proc>
  {
    var n := FindPid(ps, pid, 0);
    if n != -1 && ps[n].state == Blocked then SetState(ps, n, Ready) else ps
  }

  // The parent is told and woken; the process ends; the next READY one runs, or the machine halts.
  function Told(s: State, code: int): seq<Proc>
    requires Shape(s) && s.cur != -1
  {
    var me := s.ps[s.cur];
    var n := FindPid(s.ps, me.parent, 0);
    if n == -1 then s.ps else Woken(s.ps[n := s.ps[n].(waitPid := me.pid, waitCode := code)], me.parent)
  }

  function Exit(s: State, code: int): State
    requires Shape(s)
  {
    if s.cur == -1 then s.(halted := true)
    else
      var ps := SetState(Told(s, code), s.cur, Terminated);
      var n := Pick(ps, s.index);
      if n == -1 then s.(ps := ps, halted := true) else SwitchTo(s, ps, n)
  }

  // The first slot that is empty or holds a terminated process, or -1.
  function FindFree(ps: seq<Proc>, i: nat): (n: int)
    requires i <= |ps|
    ensures n == -1 || (i <= n < |ps| && (!ps[n].present || ps[n].state == Terminated))
    ensures n == -1 ==> forall k | i <= k < |ps| :: ps[k].present && ps[k].state != Terminated
    decreases |ps| - i
  {
    if i == |ps| then -1 else if !ps[i].present || ps[i].state == Terminated then i else FindFree(ps, i + 1)
  }

  // ok: the stack and the address space could be built; child: the creator becomes the parent.
  function Create(s: State, ok: bool, child: bool): State
    requires Shape(s)
  {
    var n := FindFree(s.ps, 0);
    if n == -1 then s
    else
      var parent := if child && s.cur != -1 then s.ps[s.cur].pid else 0;
      s.(ps := s.ps[n := Proc(ok, s.nextPid, Ready, parent, 0, 0)], nextPid := s.nextPid + 1)
  }

  function Start(s: State): State
    requires Shape(s)
  {
    var n := Pick(s.ps, SLOTS - 1);
    if n == -1 then s.(running := true) else SwitchTo(s.(running := true), s.ps, n)
  }

  // The running process takes the exit code left for it, if it is that of 'pid'.
  function Look(s: State, pid: nat): State
    requires Shape(s)
  {
    if s.cur != -1 && s.ps[s.cur].waitPid == pid then s.(ps := s.ps[s.cur := s.ps[s.cur].(waitPid := 0)]) else s
  }

  datatype Op =
    | TickOp
    | YieldOp
    | BlockOp
    | ExitOp(code: int)
    | CreateOp(ok: bool, child: bool)
    | WakeupOp(pid: nat)
    | CollectOp
    | LookOp(pid: nat)

  // A halted machine takes no further step.
  function Do(s: State, op: Op): (s': State)
    requires Shape(s)
    ensures Shape(s')
  {
    if s.halted then s
    else match op
      case TickOp => Tick(s)
      case YieldOp => Yield(s)
      case BlockOp => Block(s)
      case ExitOp(code) => Exit(s, code)
      case CreateOp(ok, child) => Create(s, ok, child)
      case WakeupOp(pid) => s.(ps := Woken(s.ps, pid))
      case CollectOp => s.(ps := Collected(s.ps))
      case LookOp(pid) => Look(s, pid)
  }

  function Run(s: State, ops: seq<Op>): (s': State)
    requires Shape(s)
    ensures Shape(s')
  {
    if ops == [] then s else Do(Run(s, ops[..|ops| - 1]), ops[|ops| - 1])
  }

  // ---------------------------------------------------------------- safety

  // Exactly one process is RUNNING, and it is the one at current_index and in current_proc.
  ghost predicate OneRunning(s: State)
  {
    Shape(s) && s.running && s.cur == s.index
    && forall i | 0 <= i < SLOTS && s.ps[i].present :: s.ps[i].state == Running <==> i == s.index
  }

  ghost predicate Started(s: State)
  {
    OneRunning(s) && s.ps[s.index].present && s.ps[s.index].state == Running
  }

  lemma StartStarts(s: State)
    requires Shape(s) && !s.halted
    requires forall i | 0 <= i < SLOTS && s.ps[i].present :: s.ps[i].state != Running
    requires exists i :: IsReady(s.ps, i)
    ensures Started(Start(s)) && !Start(s).halted
  {
    PickNearest(s.ps, SLOTS - 1);
  }

  lemma StepSafe(s: State, op: Op)
    requires Started(s) && !s.halted
    ensures Started(Do(s, op)) || Do(s, op).halted
  {
    hide FindPid, NextReady, FindFree;
  }

  lemma {:induction false} RunSafe(s: State, ops: seq<Op>)
    requires Started(s) && !s.halted
    ensures Started(Run(s, ops)) || Run(s, ops).halted
  {
    if ops != [] {
      RunSafe(s, ops[..|ops| - 1]);
      var t := Run(s, ops[..|ops| - 1]);
      if !t.halted { StepSafe(t, ops[|ops| - 1]); }
    }
  }

  // A slot whose process still has a stack and a context.
  predicate InUse(ps: seq<Proc>, i: nat)
  {
    i < |ps| && ps[i].present && ps[i].state != Terminated
  }

  // What the scheduler's steps leave in use, and that the slot they switch to was READY.
  lemma StepInUse(s: State, op: Op)
    requires Started(s) && !s.halted && !op.CreateOp?
    ensures var s' := Do(s, op);
            (forall i: nat | InUse(s'.ps, i) :: InUse(s.ps, i)) && (s'.index != s.index ==> InUse(s.ps, s'.index))
            && InUse(s.ps, s.index)
            && (Started(s') || s'.halted) && (!op.ExitOp? ==> !s'.halted)
  {
    StepSafe(s, op);
    hide FindPid, NextReady;
    if op.ExitOp? { ExitInUse(s, op.code); }
  }

  lemma ExitInUse(s: State, code: int)
    requires Started(s)
    ensures var s' := Exit(s, code);
            (forall i: nat | InUse(s'.ps, i) :: InUse(s.ps, i)) && (s'.index != s.index ==> InUse(s.ps, s'.index))
  {
    hide NextReady;
    assert forall i | 0 <= i < SLOTS :: Told(s, code)[i].present == s.ps[i].present
                                         && (Told(s, code)[i].state == Terminated <==> s.ps[i].state == Terminated);
  }

  // ---------------------------------------------------------------- fairness

  // The steps that hand the processor on.
  predicate Hands(op: Op)
  {
    op.TickOp? || op.YieldOp? || op.BlockOp? || op.ExitOp?
  }

  function Handed(ops: seq<Op>): nat
  {
    if ops == [] then 0 else Handed(ops[..|ops| - 1]) + if Hands(ops[|ops| - 1]) then 1 else 0
  }

  // While j is READY nothing halts, j stays READY or runs, and each step that hands the processor on comes closer to j.
  lemma StepCloser(s: State, op: Op, j: nat)
    requires Started(s) && !s.halted && IsReady(s.ps, j)
    ensures var s' := Do(s, op);
            Started(s') && !s'.halted
            && (s'.index == j || IsReady(s'.ps, j))
            && (s'.index != j ==> if Hands(op) then Distance(s'.index, j) < Distance(s.index, j)
                else s'.index == s.index)
  {
    hide FindPid, NextReady, FindFree;
    StepSafe(s, op);
    match op {
      case TickOp => PickCloser(SetState(Collected(s.ps), s.cur, Ready), s.index, j);
      case YieldOp => PickCloser(SetState(Collected(s.ps), s.cur, Ready), s.index, j);
      case BlockOp => PickCloser(SetState(s.ps, s.cur, Blocked), s.index, j);
      case ExitOp(code) =>
        ToldKeeps(s, code, j);
        PickCloser(SetState(Told(s, code), s.cur, Terminated), s.index, j);
      case _ =>
    }
  }

  lemma PickCloser(ps: seq<Proc>, from: nat, j: nat)
    requires |ps| == SLOTS && from < SLOTS && IsReady(ps, j) && j != from
    ensures var n := Pick(ps, from);
            n != -1 && n != from && IsReady(ps, n)
            && (n != j ==> Distance(n, j) < Distance(from, j))
  {
    PickNearest(ps, from);
  }

  lemma ToldKeeps(s: State, code: int, j: nat)
    requires Shape(s) && s.cur != -1 && IsReady(s.ps, j)
    ensures |Told(s, code)| == SLOTS && IsReady(Told(s, code), j)
  {
  }

  // The state after the first i steps.
  function After(s: State, ops: seq<Op>, i: nat): (s': State)
    requires Shape(s) && i <= |ops|
    ensures Shape(s')
  {
    Run(s, ops[..i])
  }

  // A READY process runs before the processor has been handed on more than 63 times, whatever happens.
  lemma {:induction false} Fair(s: State, ops: seq<Op>, j: nat) returns (k: nat)
    requires Started(s) && !s.halted && IsReady(s.ps, j) && Handed(ops) >= SLOTS - 1
    ensures k <= |ops| && After(s, ops, k).index == j && Started(After(s, ops, k)) && Handed(ops[..k]) <= SLOTS - 1
  {
    k := FairFrom(s, ops, j, |ops|);
    assert ops[..|ops|] == ops;
  }

  // After n steps j has come closer by as much as the processor was handed on, or runs.
  ghost predicate Closer(s: State, ops: seq<Op>, j: nat, n: nat)
    requires Shape(s) && s.index < SLOTS && j < SLOTS && n <= |ops|
  {
    var t := After(s, ops, n);
    Started(t) && !t.halted && Handed(ops[..n]) <= SLOTS - 1
    && (t.index == j || (IsReady(t.ps, j) && Handed(ops[..n]) + Distance(t.index, j) <= Distance(s.index, j)))
  }

  lemma CloserStep(s: State, ops: seq<Op>, j: nat, n: nat)
    requires Shape(s) && j < SLOTS && n < |ops| && s.index != j
    requires Closer(s, ops, j, n) && After(s, ops, n).index != j
    ensures Closer(s, ops, j, n + 1)
  {
    StepCloser(After(s, ops, n), ops[n], j);
    AfterStep(s, ops, n);
    hide After, Handed, Do;
  }

  lemma {:induction false} FairFrom(s: State, ops: seq<Op>, j: nat, n: nat) returns (k: nat)
    requires Started(s) && !s.halted && IsReady(s.ps, j) && n <= |ops|
    ensures k <= n && Closer(s, ops, j, k) && (After(s, ops, k).index == j || k == n)
    ensures forall i | 0 <= i < k :: After(s, ops, i).index != j
  {
    if n == 0 {
      k := 0;
    } else {
      k := FairFrom(s, ops, j, n - 1);
      hide After, Closer;
      if After(s, ops, k).index != j {
        CloserStep(s, ops, j, n - 1);
        k := n;
      }
    }
  }

  lemma AfterNone(s: State, ops: seq<Op>)
    requires Shape(s)
    ensures After(s, ops, 0) == s
  {
  }

  lemma AfterStep(s: State, ops: seq<Op>, i: nat)
    requires Shape(s) && i < |ops|
    ensures After(s, ops, i + 1) == Do(After(s, ops, i), ops[i])
    ensures Handed(ops[..i + 1]) == Handed(ops[..i]) + if Hands(ops[i]) then 1 else 0
  {
    assert ops[..i + 1][..i] == ops[..i];
  }

  // ---------------------------------------------------------------- waiting for a child

  // NullKid: the loop follows the null pointer proc_get gave it, which the source does not check for.
  datatype Answer = Code(code: int) | NoChild | KeepWaiting | NullKid

  // What proc_waitpid finds each time round, for the process in slot p: the code left by the child comes first, even
  // when the child's own slot is already gone.
  function WaitLook(s: State, p: nat, pid: nat): Answer
    requires Shape(s) && p < SLOTS
  {
    var kid := FindPid(s.ps, pid, 0);
    if s.ps[p].waitPid == pid then Code(s.ps[p].waitCode)
    else if kid == -1 then NullKid
    else if s.ps[kid].state == Terminated then NoChild
    else KeepWaiting
  }

  // Before the first look: a pid that names no child of p is refused, even when its code was already left.
  function WaitEnter(s: State, p: nat, pid: nat): Answer
    requires Shape(s) && p < SLOTS
  {
    var kid := FindPid(s.ps, pid, 0);
    if kid == -1 || s.ps[kid].parent != s.ps[p].pid then NoChild else WaitLook(s, p, pid)
  }

  // pids are handed out in increasing order, so no two slots in use share one.
  ghost predicate PidsOk(s: State)
    requires Shape(s)
  {
    s.nextPid >= 1
    && (forall i | 0 <= i < SLOTS && s.ps[i].present :: 1 <= s.ps[i].pid < s.nextPid)
    && forall i, j | 0 <= i < j < SLOTS && s.ps[i].present && s.ps[j].present :: s.ps[i].pid != s.ps[j].pid
  }

  // Nothing but creation gives out pids or presence.
  ghost predicate PidsFrom(s: State, s': State)
    requires Shape(s) && Shape(s')
  {
    s'.nextPid >= s.nextPid
    && forall i | 0 <= i < SLOTS && s'.ps[i].present ::
         (s.ps[i].present && s'.ps[i].pid == s.ps[i].pid)
         || (s'.ps[i].pid == s.nextPid < s'.nextPid && forall j | 0 <= j < SLOTS && j != i :: s'.ps[j] == s.ps[j])
  }

  lemma StepPids(s: State, op: Op)
    requires Shape(s)
    ensures PidsFrom(s, Do(s, op))
  {
    hide FindPid, NextReady, FindFree, Exit, Create;
    match op {
      case ExitOp(code) => ExitPids(s, code);
      case CreateOp(ok, child) => CreatePids(s, ok, child);
      case _ =>
    }
  }

  lemma ExitPids(s: State, code: int)
    requires Shape(s)
    ensures PidsFrom(s, Exit(s, code))
  {
    hide FindPid, NextReady, Told;
    if s.cur != -1 { ToldNames(s, code); }
  }

  lemma ToldNames(s: State, code: int)
    requires Shape(s) && s.cur != -1
    ensures |Told(s, code)| == SLOTS
    ensures forall i | 0 <= i < SLOTS ::
              Told(s, code)[i].present == s.ps[i].present && Told(s, code)[i].pid == s.ps[i].pid
  {
    hide FindPid;
  }

  lemma CreatePids(s: State, ok: bool, child: bool)
    requires Shape(s)
    ensures PidsFrom(s, Create(s, ok, child))
  {
  }

  // A process that has ended stays so while its slot holds it.
  lemma StepEnds(s: State, op: Op)
    requires Started(s) && !s.halted
    ensures forall i | 0 <= i < SLOTS && s.ps[i].present && s.ps[i].state == Terminated ::
              Do(s, op).ps[i].state == Terminated || Do(s, op).ps[i].pid == s.nextPid
  {
    hide FindPid, NextReady, FindFree;
  }

  lemma PidsStayOk(s: State, s': State)
    requires Shape(s) && Shape(s') && PidsOk(s) && PidsFrom(s, s')
    ensures PidsOk(s')
  {
  }

  lemma PidsKept(s: State, op: Op)
    requires Shape(s) && PidsOk(s)
    ensures PidsOk(Do(s, op))
  {
    StepPids(s, op);
    hide Do, PidsFrom;
    PidsStayOk(s, Do(s, op));
  }

  // So pids stay distinct over every run, from the empty table on.
  lemma {:induction false} RunPids(s: State, ops: seq<Op>)
    requires Shape(s) && PidsOk(s)
    ensures PidsOk(Run(s, ops))
  {
    hide Do, PidsOk;
    if ops != [] {
      RunPids(s, ops[..|ops| - 1]);
      PidsKept(Run(s, ops[..|ops| - 1]), ops[|ops| - 1]);
    }
  }

  lemma PidNamesSlot(s: State, p: nat)
    requires Shape(s) && PidsOk(s) && p < SLOTS && s.ps[p].present
    ensures FindPid(s.ps, s.ps[p].pid, 0) == p
  {
  }

  // waitpid gives its caller a code exactly when a slot still holds a child with that pid and the code was left.
  lemma WaitEnterExact(s: State, p: nat, pid: nat, code: int)
    requires Shape(s) && PidsOk(s) && p < SLOTS
    ensures WaitEnter(s, p, pid) == Code(code)
            <==> (exists j | 0 <= j < SLOTS :: s.ps[j].present && s.ps[j].pid == pid && s.ps[j].parent == s.ps[p].pid)
                 && s.ps[p].waitPid == pid && s.ps[p].waitCode == code
  {
    hide FindPid;
    forall j | 0 <= j < SLOTS && s.ps[j].present && s.ps[j].pid == pid
      ensures FindPid(s.ps, pid, 0) == j
    {
      PidNamesSlot(s, j);
    }
    if FindPid(s.ps, pid, 0) == -1 { FindsNothing(s.ps, pid); }
  }

  lemma FindsNothing(ps: seq<Proc>, pid: nat)
    requires FindPid(ps, pid, 0) == -1
    ensures forall k | 0 <= k < |ps| :: !(ps[k].present && ps[k].pid == pid)
  {
  }

  // No slot holds this pid, and none will.
  ghost predicate PidSpent(s: State, pid: nat)
    requires Shape(s)
  {
    pid < s.nextPid && forall i | 0 <= i < SLOTS :: !(s.ps[i].present && s.ps[i].pid == pid)
  }

  lemma {:induction false} SpentStays(s: State, ops: seq<Op>, pid: nat)
    requires Started(s) && !s.halted && PidSpent(s, pid)
    ensures PidSpent(Run(s, ops), pid)
  {
    if ops != [] {
      var t := Run(s, ops[..|ops| - 1]);
      SpentStays(s, ops[..|ops| - 1], pid);
      RunSafe(s, ops[..|ops| - 1]);
      if !t.halted {
        StepPids(t, ops[|ops| - 1]);
        hide Do, Run, PidsFrom;
        SpentOver(t, Do(t, ops[|ops| - 1]), pid);
      }
    }
  }

  lemma SpentOver(s: State, s': State, pid: nat)
    requires Shape(s) && Shape(s') && PidsFrom(s, s') && PidSpent(s, pid)
    ensures PidSpent(s', pid)
  {
  }

  // A child exits and its slot is collected before its parent asks: the code lies in the parent's slot, where a
  // look would find it, and yet waitpid refuses the pid, then and after any further run.
  lemma CollectedRefused(s: State, code: int, p: nat, ops: seq<Op>)
    requires Started(s) && !s.halted && PidsOk(s) && p < SLOTS && p != s.cur && s.ps[p].present
    requires s.ps[p].state != Terminated
    requires s.ps[s.cur].parent == s.ps[p].pid && !Exit(s, code).halted
    ensures var t, pid := Do(Do(s, ExitOp(code)), CollectOp), s.ps[s.cur].pid;
            WaitLook(t, p, pid) == Code(code) && WaitEnter(t, p, pid) == NoChild
            && WaitEnter(Run(t, ops), p, pid) == NoChild
  {
    var s1, pid := Do(s, ExitOp(code)), s.ps[s.cur].pid;
    StepSafe(s, ExitOp(code));
    ExitSpends(s, code);
    LeftBehind(s, code, p);
    hide Exit, PidsOk, PidSpent, Run, WaitEnter, WaitLook, Started;
    var t := Do(s1, CollectOp);
    StepSafe(s1, CollectOp);
    hide Do;
    SpentStays(t, ops, pid);
    SpentRefused(t, p, pid);
    SpentRefused(Run(t, ops), p, pid);
  }

  lemma LeftBehind(s: State, code: int, p: nat)
    requires Started(s) && !s.halted && PidsOk(s) && p < SLOTS && p != s.cur && s.ps[p].present
    requires s.ps[p].state != Terminated && s.ps[s.cur].parent == s.ps[p].pid && !Exit(s, code).halted
    ensures WaitLook(Do(Exit(s, code), CollectOp), p, s.ps[s.cur].pid) == Code(code)
  {
    PidNamesSlot(s, p);
    ToldCode(s, code, p);
    hide Exit, PidsOk, FindPid, NextReady;
  }

  lemma SpentRefused(s: State, p: nat, pid: nat)
    requires Shape(s) && p < SLOTS && PidSpent(s, pid)
    ensures WaitEnter(s, p, pid) == NoChild
  {
  }

  lemma ExitSpends(s: State, code: int)
    requires Started(s) && !s.halted && PidsOk(s) && !Exit(s, code).halted
    ensures PidSpent(Do(Exit(s, code), CollectOp), s.ps[s.cur].pid)
  {
    hide FindPid, NextReady;
  }

  // The exit leaves its code in the slot of the parent.
  lemma ToldCode(s: State, code: int, p: nat)
    requires Started(s) && !s.halted && p < SLOTS && p != s.cur && FindPid(s.ps, s.ps[s.cur].parent, 0) == p
    ensures Exit(s, code).ps[p].waitPid == s.ps[s.cur].pid && Exit(s, code).ps[p].waitCode == code
  {
    hide FindPid, NextReady;
  }

  // op is the exit of a child of the process in slot p.
  predicate ChildExit(s: State, op: Op, p: nat)
    requires Shape(s) && p < SLOTS
  {
    op.ExitOp? && s.cur != -1 && s.ps[s.cur].parent == s.ps[p].pid
  }

  // Only the exit of a child changes what is left for a process that is not running.
  lemma StepCode(s: State, op: Op, p: nat)
    requires Started(s) && !s.halted && PidsOk(s) && IsReady(s.ps, p)
    ensures var q, q' := s.ps[p], Do(s, op).ps[p];
            q'.pid == q.pid
            && if ChildExit(s, op, p) then q'.waitPid == s.ps[s.cur].pid
               else q'.waitPid == q.waitPid && q'.waitCode == q.waitCode
  {
    if ChildExit(s, op, p) {
      PidNamesSlot(s, p);
      ToldCode(s, op.code, p);
      hide FindPid, NextReady;
    } else {
      hide FindPid, NextReady, FindFree, Exit, PidsOk;
      match op {
        case ExitOp(code) => OtherExit(s, code, p);
        case _ =>
      }
    }
  }

  lemma OtherExit(s: State, code: int, p: nat)
    requires Started(s) && IsReady(s.ps, p) && s.ps[s.cur].parent != s.ps[p].pid
    ensures var q, q' := s.ps[p], Exit(s, code).ps[p];
            q'.pid == q.pid && q'.waitPid == q.waitPid
            && q'.waitCode == q.waitCode
  {
    hide FindPid, NextReady;
  }

  // The pid of a process that has ended but may still hold its slot.
  ghost predicate PidDead(s: State, pid: nat)
    requires Shape(s)
  {
    pid < s.nextPid && forall i | 0 <= i < SLOTS && s.ps[i].present && s.ps[i].pid == pid :: s.ps[i].state == Terminated
  }

  lemma DeadStays(s: State, op: Op, pid: nat)
    requires Started(s) && !s.halted && PidDead(s, pid)
    ensures PidDead(Do(s, op), pid)
  {
    StepPids(s, op);
    StepEnds(s, op);
    hide Do;
  }

  // A parent blocked in waitpid runs within 63 switches after its child exits, and its next look finds the code exactly
  // when no other child of it exits before it runs.
  lemma WaitAnswered(s: State, code: int, ops: seq<Op>, p: nat) returns (k: nat)
    requires Started(s) && !s.halted && PidsOk(s) && p < SLOTS && s.ps[p].present && s.ps[p].state == Blocked
    requires s.ps[s.cur].parent == s.ps[p].pid
    requires Handed(ops) >= SLOTS - 1
    ensures var s1 := Exit(s, code);
            k <= |ops| && After(s1, ops, k).index == p && Handed(ops[..k]) <= SLOTS - 1
            && (forall i | 0 <= i < k :: After(s1, ops, i).index != p)
            && (WaitLook(After(s1, ops, k), p, s.ps[s.cur].pid) == Code(code)
                <==> NoOtherExit(s1, ops, p, k))
            && (!NoOtherExit(s1, ops, p, k) ==> WaitLook(After(s1, ops, k), p, s.ps[s.cur].pid) in {NoChild, NullKid})
  {
    var s1, pid := Exit(s, code), s.ps[s.cur].pid;
    ExitWaits(s, code, p);
    AfterNone(s1, ops);
    if s1.index == p {
      k := 0;
    } else {
      k := FairFrom(s1, ops, p, |ops|);
      assert ops[..|ops|] == ops;
      hide After, Exit, Closer, Do, Nearest, PidsOk, PidDead;
      assert forall i | 0 <= i < k :: After(s1, ops, i).index != p;
      LeftFor(s1, ops, p, k, code, pid);
      Answered(After(s1, ops, k), p, pid, code, NoOtherExit(s1, ops, p, k));
    }
  }

  lemma Answered(s: State, p: nat, pid: nat, code: int, kept: bool)
    requires Shape(s) && p < SLOTS && Waiting(s, p, pid, code, kept)
    ensures WaitLook(s, p, pid) == Code(code) <==> kept
    ensures !kept ==> WaitLook(s, p, pid) in {NoChild, NullKid}
  {
  }

  lemma ExitWaits(s: State, code: int, p: nat)
    requires Started(s) && !s.halted && PidsOk(s) && p < SLOTS && s.ps[p].present && s.ps[p].state == Blocked
    requires s.ps[s.cur].parent == s.ps[p].pid
    ensures var s1 := Exit(s, code);
            Waiting(s1, p, s.ps[s.cur].pid, code, true) && WaitLook(s1, p, s.ps[s.cur].pid) == Code(code)
  {
    PidNamesSlot(s, p);
    ExitTells(s, code, p);
    StepPids(s, ExitOp(code));
    hide Exit, FindPid;
    PidsStayOk(s, Exit(s, code));
    ExitDead(s, code);
  }

  lemma ExitDead(s: State, code: int)
    requires Started(s) && !s.halted && PidsOk(s)
    ensures PidDead(Exit(s, code), s.ps[s.cur].pid)
  {
    hide FindPid, NextReady;
  }

  // p waits its turn; 'kept' says whether the code of 'pid' is still there.
  ghost predicate Waiting(s: State, p: nat, pid: nat, code: int, kept: bool)
    requires Shape(s) && p < SLOTS
  {
    Started(s) && !s.halted && PidsOk(s) && PidDead(s, pid) && (s.index == p || IsReady(s.ps, p))
    && if kept then s.ps[p].waitPid == pid && s.ps[p].waitCode == code else s.ps[p].waitPid != pid
  }

  lemma WaitingStep(s: State, op: Op, p: nat, pid: nat, code: int, kept: bool)
    requires Shape(s) && p < SLOTS && Waiting(s, p, pid, code, kept) && s.index != p
    ensures Waiting(Do(s, op), p, pid, code, kept && !ChildExit(s, op, p))
  {
    StepCloser(s, op, p);
    StepCode(s, op, p);
    StepPids(s, op);
    DeadStays(s, op, pid);
    hide Do, PidsFrom;
    PidsStayOk(s, Do(s, op));
  }

  // No child of p exits in the first k steps.
  ghost predicate NoOtherExit(s: State, ops: seq<Op>, p: nat, k: nat)
    requires Shape(s) && p < SLOTS && k <= |ops|
  {
    forall i | 0 <= i < k :: !ChildExit(After(s, ops, i), ops[i], p)
  }

  // Until p runs, the code of 'pid' stays with it exactly while no other child of it exits.
  lemma {:induction false} LeftFor(s: State, ops: seq<Op>, p: nat, k: nat, code: int, pid: nat)
    requires Shape(s) && p < SLOTS && k <= |ops| && Waiting(s, p, pid, code, true)
    requires forall i | 0 <= i < k :: After(s, ops, i).index != p
    ensures Waiting(After(s, ops, k), p, pid, code, NoOtherExit(s, ops, p, k))
  {
    hide Waiting, Do, After, ChildExit, Handed;
    if k > 0 {
      LeftFor(s, ops, p, k - 1, code, pid);
      AfterStep(s, ops, k - 1);
      WaitingStep(After(s, ops, k - 1), ops[k - 1], p, pid, code, NoOtherExit(s, ops, p, k - 1));
    } else {
      AfterNone(s, ops);
    }
  }

  lemma ExitTells(s: State, code: int, p: nat)
    requires Started(s) && !s.halted && p < SLOTS && s.ps[p].present && s.ps[p].state == Blocked
    requires FindPid(s.ps, s.ps[s.cur].parent, 0) == p
    ensures var s1 := Exit(s, code);
            Started(s1) && !s1.halted && (s1.index == p || IsReady(s1.ps, p))
            && s1.ps[p].waitPid == s.ps[s.cur].pid && s1.ps[p].waitCode == code
  {
    var me := s.ps[s.cur];
    var ps1 := s.ps[p := s.ps[p].(waitPid := me.pid, waitCode := code)];
    SamePids(s.ps, ps1, me.parent, 0);
    var ps := SetState(Told(s, code), s.cur, Terminated);
    assert IsReady(ps, p);
    PickNearest(ps, s.index);
    StepSafe(s, ExitOp(code));
  }

  lemma {:induction false} SamePids(ps: seq<Proc>, ps': seq<Proc>, pid: nat, i: nat)
    requires |ps'| == |ps| && i <= |ps|
    requires forall k | 0 <= k < |ps| :: ps'[k].present == ps[k].present && ps'[k].pid == ps[k].pid
    ensures FindPid(ps', pid, i) == FindPid(ps, pid, i)
    decreases |ps| - i
  {
    if i < |ps| { SamePids(ps, ps', pid, i + 1); }
  }

  // ---------------------------------------------------------------- the table in place

  // procs, current_index, current_proc (a slot, or -1), scheduler_running, next_pid; halted once halt() was called.
  class Table {
    const procs: array<Proc>
    var currentIndex: nat
    var currentProc: int
    var schedulerRunning: bool
    var nextPid: nat
    var halted: bool

    ghost function Value(): State
      reads this, procs
    {
      State(procs[..], currentIndex, currentProc, schedulerRunning, nextPid, halted)
    }

    constructor ()
      ensures fresh(procs) && Shape(Value()) && !halted && !schedulerRunning && currentProc == -1 && PidsOk(Value())
      ensures forall i | 0 <= i < SLOTS :: !procs[i].present
    {
      procs := new Proc[SLOTS](_ => Proc(false, 0, Created, 0, 0, 0));
      currentIndex, currentProc, schedulerRunning, nextPid, halted := 0, -1, false, 1, false;
    }

    // find_free: the first slot that can be taken, or -1.
    method FindFreeSlot() returns (n: int)
      requires Shape(Value())
      ensures n == FindFree(procs[..], 0)
    {
      var i := 0;
      while i < SLOTS
        invariant i <= SLOTS && FindFree(procs[..], 0) == FindFree(procs[..], i)
      {
        if !procs[i].present || procs[i].state == Terminated { return i; }
        i := i + 1;
      }
      return -1;
    }

    // proc_get: the first slot with this pid, or -1.
    method Get(pid: nat) returns (n: int)
      requires Shape(Value())
      ensures n == FindPid(procs[..], pid, 0)
    {
      var i := 0;
      while i < SLOTS
        invariant i <= SLOTS && FindPid(procs[..], pid, 0) == FindPid(procs[..], pid, i)
      {
        if procs[i].present && procs[i].pid == pid { return i; }
        i := i + 1;
      }
      return -1;
    }

    // next_ready_from: the nearest READY slot at or after start, going around.
    method NextReadyFrom(start: nat) returns (n: int)
      requires Shape(Value()) && start <= SLOTS
      ensures Nearest(procs[..], if start == 0 then SLOTS - 1 else start - 1, n)
      ensures n == Pick(procs[..], if start == 0 then SLOTS - 1 else start - 1)
    {
      ghost var from := if start == 0 then SLOTS - 1 else start - 1;
      PickNearest(procs[..], from);
      var c := 0;
      while c < SLOTS
        invariant c <= SLOTS && Pick(procs[..], from) == NextReady(procs[..], from, c)
      {
        var i := (start + c) % SLOTS;
        assert i == Around(from, c);
        if procs[i].present && procs[i].state == Ready { return i; }
        c := c + 1;
      }
      return -1;
    }

    method SetProcState(i: nat, st: ProcState)
      requires i < procs.Length
      modifies procs
      ensures procs[..] == SetState(old(procs[..]), i, st)
    {
      procs[i] := procs[i].(state := st);
    }

    // proc_gc_run, as far as the table goes.
    method GcRun()
      requires Shape(Value())
      modifies procs
      ensures procs[..] == Collected(old(procs[..]))
    {
      var i := 0;
      while i < SLOTS
        invariant i <= SLOTS
        invariant forall k | 0 <= k < SLOTS ::
                    procs[k] == if k < i then Collected(old(procs[..]))[k] else old(procs[..])[k]
      {
        if procs[i].present && procs[i].state == Terminated {
          procs[i] := procs[i].(present := false);
        }
        i := i + 1;
      }
    }

    method Run(n: nat)
      requires Shape(Value()) && n < SLOTS
      modifies this, procs
      ensures Value() == SwitchTo(old(Value()), old(procs[..]), n)
    {
      SetProcState(n, Running);
      currentIndex, currentProc := n, n;
    }

    // The table part of sched_run_first.
    method RunFirst()
      requires Shape(Value())
      modifies this, procs
      ensures Value() == Start(old(Value()))
    {
      schedulerRunning := true;
      var i := NextReadyFrom(0);
      if i != -1 { Run(i); }
    }

    // irq_common_handler on the timer and sched_preempt_pick: the slot to switch to, or -1.
    method PreemptPick() returns (n: int)
      requires Shape(Value())
      modifies this, procs
      ensures Value() == Tick(old(Value()))
      ensures n == if currentIndex != old(currentIndex) then currentIndex else -1
    {
      hide NextReady, Collected;
      if currentProc == -1 || procs[currentProc].state != Running || !schedulerRunning { return -1; }
      GcRun();
      if procs[currentProc].state != Running { return -1; }
      SetProcState(currentProc, Ready);
      n := NextReadyFrom(currentIndex + 1);
      if n == -1 || n == currentIndex {
        SetProcState(currentProc, Running);
        return -1;
      }
      Run(n);
    }

    // sched_yield: the slot switched to, or -1.
    method SchedYield() returns (n: int)
      requires Shape(Value())
      modifies this, procs
      ensures Value() == Yield(old(Value()))
      ensures old(Started(Value())) ==> n == if currentIndex != old(currentIndex) then currentIndex else -1
    {
      hide NextReady, Collected, Nearest;
      GcRun();
      if !schedulerRunning { return -1; }
      if currentProc != -1 && procs[currentProc].state == Running { SetProcState(currentProc, Ready); }
      n := NextReadyFrom(currentIndex + 1);
      if n == -1 || n == currentProc {
        if currentProc != -1 { SetProcState(currentProc, Running); }
        return -1;
      }
      if currentProc != -1 { SetProcState(currentProc, Ready); }
      Run(n);
    }

    // sched_block: the slot switched to, or -1 when nothing else is READY and the process goes on.
    method SchedBlock() returns (n: int)
      requires Shape(Value())
      modifies this, procs
      ensures Value() == Block(old(Value()))
      ensures old(Started(Value())) ==> n == if currentIndex != old(currentIndex) then currentIndex else -1
    {
      if currentProc == -1 { return -1; }
      SetProcState(currentProc, Blocked);
      n := NextReadyFrom(currentIndex + 1);
      if n == -1 {
        SetProcState(currentProc, Running);
        return -1;
      }
      SetProcState(currentProc, Blocked);
      Run(n);
    }

    method Wakeup(pid: nat)
      requires Shape(Value())
      modifies procs
      ensures procs[..] == Woken(old(procs[..]), pid)
    {
      var n := Get(pid);
      if n != -1 && procs[n].state == Blocked { SetProcState(n, Ready); }
    }

    // proc_exit: the slot that runs next, or -1 when the machine halts.
    method ProcExit(code: int) returns (n: int)
      requires Shape(Value()) && !halted
      modifies this, procs
      ensures Value() == Exit(old(Value()), code)
      ensures n == if halted then -1 else currentIndex
    {
      if currentProc == -1 {
        halted := true;
        return -1;
      }
      hide NextReady, FindPid, Nearest, Woken, Told;
      TellParent(code);
      SetProcState(currentProc, Terminated);
      n := NextReadyFrom(currentIndex + 1);
      if n == -1 {
        halted := true;
        return -1;
      }
      Run(n);
    }

    // The exit code goes to the parent, which is woken if it was blocked.
    method TellParent(code: int)
      requires Shape(Value()) && currentProc != -1
      modifies procs
      ensures procs[..] == Told(old(Value()), code)
    {
      hide FindPid;
      var me := procs[currentProc];
      var parent := Get(me.parent);
      if parent != -1 {
        procs[parent] := procs[parent].(waitPid := me.pid, waitCode := code);
        assert procs[..] == old(procs[..])[parent := old(procs[..])[parent].(waitPid := me.pid, waitCode := code)];
        Wakeup(me.parent);
      }
    }

    // The table part of process creation.
    method CreateProc(ok: bool, child: bool) returns (n: int)
      requires Shape(Value())
      modifies this, procs
      ensures Value() == Create(old(Value()), ok, child)
      ensures n == FindFree(old(procs[..]), 0)
    {
      n := FindFreeSlot();
      if n == -1 { return; }
      var parent := if child && currentProc != -1 then procs[currentProc].pid else 0;
      procs[n] := Proc(true, nextPid, Ready, parent, 0, 0);
      nextPid := nextPid + 1;
      if !ok { procs[n] := procs[n].(present := false); }
      assert procs[..] == Create(old(Value()), ok, child).ps;
    }

    // One round of proc_waitpid's loop for the current process.
    method WaitOnce(pid: nat) returns (a: Answer)
      requires Shape(Value()) && currentProc != -1
      modifies procs
      ensures a == WaitLook(old(Value()), currentProc, pid)
      ensures procs[..] == if a.Code? then old(procs[..])[currentProc := old(procs[..])[currentProc].(waitPid := 0)]
              else old(procs[..])
    {
      var kid := Get(pid);
      if procs[currentProc].waitPid == pid {
        a := Code(procs[currentProc].waitCode);
        procs[currentProc] := procs[currentProc].(waitPid := 0);
        return;
      }
      if kid == -1 { return NullKid; }
      if !procs[kid].present || procs[kid].state == Terminated { return NoChild; }
      return KeepWaiting;
    }
  }
}
