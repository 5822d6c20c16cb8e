// The scheduler and the processor together: every step that hands the processor on parks the process that ran and
// resumes one whose context is truthful.
module KernelSteps {
  import A = ActiveSpace
  import S = Scheduler
  import opened ContextSwitch

  // What the kernel keeps of each process besides the table: its saved context, its kernel stack, whether it is a
  // ring-3 process, and (for the proof) how it left the processor.
  datatype Tasks = Tasks(ctxs: seq<Ctx>, stacks: seq<nat>, user: seq<bool>, parks: seq<Park>)

  ghost predicate Sized(t: Tasks)
  {
    |t.ctxs| == |t.stacks| == |t.user| == |t.parks| == S.SLOTS
  }

  ghost predicate Good(t: Tasks, m: map<nat, nat>, i: nat)
    requires Sized(t) && i < S.SLOTS
  {
    Truthful(m, t.ctxs[i], t.stacks[i], t.parks[i])
    && (t.parks[i].ByIrq? && Ring3(t.parks[i].frame.cs) ==> t.user[i])
    && Starts(t.parks[i], t.user[i])
  }

  // A process that has not run yet will start in user mode exactly when it is a ring-3 process.
  ghost predicate Starts(p: Park, user: bool)
  {
    p.Fresh? ==> if user then p.launch.Through? && UserMode(p.launch.frame) else p.launch.Direct?
  }

  predicate StacksApart(a: nat, b: nat) { a + STACK <= b || b + STACK <= a }

  // Kernel stacks are apart, and every process in use other than 'cur' is parked truthfully.
  ghost predicate Consistent(ps: seq<S.Proc>, t: Tasks, m: map<nat, nat>, cur: int)
  {
    |ps| == S.SLOTS && Sized(t)
    && (forall i: nat, j: nat | S.InUse(ps, i) && S.InUse(ps, j) && i != j :: StacksApart(t.stacks[i], t.stacks[j]))
    && (forall i: nat | S.InUse(ps, i) && i != cur :: Good(t, m, i))
  }

  // Writing on the current process's stack leaves the others parked.
  lemma OwnStack(ps: seq<S.Proc>, t: Tasks, m: map<nat, nat>, m': map<nat, nat>, cur: nat)
    requires Consistent(ps, t, m, cur) && S.InUse(ps, cur) && OnlyStack(m, m', t.stacks[cur])
    ensures Consistent(ps, t, m', cur)
  {
    hide Truthful, OnlyStack;
    forall i: nat | S.InUse(ps, i) && i != cur
      ensures Good(t, m', i)
    {
      assert Good(t, m, i);
      StaysTruthful(m, m', t.ctxs[i], t.stacks[i], t.parks[i], t.stacks[cur]);
    }
  }

  // Process 'from' was parked and 'to' resumed.
  lemma Handover(ps: seq<S.Proc>, ps': seq<S.Proc>, t: Tasks, t': Tasks, m: map<nat, nat>, from: nat, to: nat)
    requires Consistent(ps, t, m, from) && |ps'| == |ps| && from < S.SLOTS && to < S.SLOTS && from != to
    requires forall i: nat | S.InUse(ps', i) :: S.InUse(ps, i)
    requires Sized(t') && t'.stacks == t.stacks && t'.user == t.user
    requires forall i | 0 <= i < S.SLOTS && i != from && i != to :: t'.ctxs[i] == t.ctxs[i] && t'.parks[i] == t.parks[i]
    requires S.InUse(ps', from) ==> Good(t', m, from)
    ensures Consistent(ps', t', m, to)
  {
    hide Truthful;
    forall i: nat | S.InUse(ps', i) && i != to
      ensures Good(t', m, i)
    {
      if i != from { assert Good(t, m, i); }
    }
  }

  lemma FirstHandover(ps: seq<S.Proc>, ps': seq<S.Proc>, t: Tasks, t': Tasks, m: map<nat, nat>, to: nat)
    requires Consistent(ps, t, m, -1) && |ps'| == |ps| && to < S.SLOTS
    requires forall i: nat | S.InUse(ps', i) :: S.InUse(ps, i)
    requires Sized(t') && t'.stacks == t.stacks && t'.user == t.user
    requires forall i | 0 <= i < S.SLOTS && i != to :: t'.ctxs[i] == t.ctxs[i] && t'.parks[i] == t.parks[i]
    ensures Consistent(ps', t', m, to)
  {
    hide Truthful;
    forall i: nat | S.InUse(ps', i) && i != to
      ensures Good(t', m, i)
    {
      assert Good(t, m, i);
    }
  }

  lemma ExitStarted(s: S.State, code: int)
    requires S.Started(s) && !s.halted
    ensures var s' := S.Exit(s, code);
            if s'.halted then s'.index == s.index
            else s'.index != s.index && !S.InUse(s'.ps, s.index) && S.InUse(s.ps, s'.index)
  {
    hide S.NextReady;
    S.ExitInUse(s, code);
  }

  ghost predicate NoneRunning(ps: seq<S.Proc>)
  {
    forall i | 0 <= i < |ps| && ps[i].present :: ps[i].state != S.Running
  }

  lemma ConsistentSized(ps: seq<S.Proc>, t: Tasks, m: map<nat, nat>, cur: int)
    requires Consistent(ps, t, m, cur)
    ensures Sized(t) && |ps| == S.SLOTS
  {
  }

  // A new process: only slot n comes into use, and it was not.
  lemma CreatedInUse(s: S.State, ok: bool, child: bool)
    requires S.Shape(s)
    ensures var s', n := S.Create(s, ok, child), S.FindFree(s.ps, 0);
            (n == -1 ==> s' == s) && (n != -1 ==> n < S.SLOTS && !S.InUse(s.ps, n)) && S.Shape(s')
            && (forall i: nat | S.InUse(s'.ps, i) && i != n :: S.InUse(s.ps, i))
            && (S.Started(s) ==> S.Started(s') && s.index != n) && s'.index == s.index && s'.cur == s.cur
            && s'.halted == s.halted
            && (NoneRunning(s.ps) ==> NoneRunning(s'.ps))
  {
  }

  lemma FreshGood(m: map<nat, nat>, t: Tasks, n: nat)
    requires Sized(t) && n < S.SLOTS && t.parks[n].Fresh?
    requires var c, p := t.ctxs[n], t.parks[n];
             |c.gpr| == REGS && !c.ran && c.style == 0 && t.stacks[n] <= c.rsp <= t.stacks[n] + STACK - 8
             && Get(m, c.rsp) == p.entry && c.arg1 == p.arg1 && c.arg2 == p.arg2
             && Launched(m, c.rsp + 8, p.arg1, p.arg2, p.launch)
             && (p.launch.Through? ==> t.stacks[n] + 16 <= c.rsp <= t.stacks[n] + STACK - 48)
             && Starts(p, t.user[n])
    ensures Good(t, m, n)
  {
  }

  lemma NewTask(ps: seq<S.Proc>, ps': seq<S.Proc>, t: Tasks, t': Tasks, m: map<nat, nat>, m': map<nat, nat>, cur: int,
          n: nat, base: nat)
    requires Consistent(ps, t, m, cur) && n < S.SLOTS && |ps'| == |ps| && !S.InUse(ps, n) && Sized(t')
    requires forall i: nat | S.InUse(ps', i) && i != n :: S.InUse(ps, i)
    requires t'.stacks == t.stacks[n := base]
    requires forall i | 0 <= i < S.SLOTS && i != n ::
               t'.ctxs[i] == t.ctxs[i] && t'.parks[i] == t.parks[i] && t'.user[i] == t.user[i]
    requires OnlyStack(m, m', base) && forall i: nat | S.InUse(ps, i) :: StacksApart(base, t.stacks[i])
    requires Good(t', m', n)
    ensures Consistent(ps', t', m', cur)
  {
    hide Truthful, OnlyStack;
    forall i: nat | S.InUse(ps', i) && i != cur
      ensures Good(t', m', i)
    {
      if i != n {
        assert Good(t, m, i);
        StaysTruthful(m, m', t.ctxs[i], t.stacks[i], t.parks[i], base);
      }
    }
  }

  // The C parks whose callee-saved registers came back.
  ghost predicate Regained(now: seq<nat>, parked: seq<nat>)
    requires |now| == |parked| == REGS
  {
    forall r: nat | r < REGS && CalleeSaved(r) :: now[r] == parked[r]
  }

  lemma SavedCovers()
    ensures forall r: nat | r < REGS && CalleeSaved(r) :: r in Saved()
  {
    assert Saved()[9] == RBX && Saved()[8] == RBP && Saved()[3] == R12 && Saved()[2] == R13 && Saved()[1] == R14
           && Saved()[0] == R15;
  }

  lemma StartedIndex(s: S.State)
    requires S.Started(s)
    ensures S.Shape(s) && s.index < S.SLOTS && s.cur == s.index
  {
  }

  lemma Stayed(m0: map<nat, nat>, m1: map<nat, nat>, m2: map<nat, nat>, lo: nat, below: map<nat, nat>)
    requires OnlyStack(m0, m1, lo) && (forall a | a in below :: lo <= a < lo + STACK)
    requires (forall a: nat | a !in below :: Get(m2, a) == Get(m1, a))
    ensures OnlyStack(m0, m2, lo)
  {
    hide Get;
  }

  lemma RegainedSame(a: seq<nat>, b: seq<nat>, p: Park)
    requires |a| == |b| == REGS && (forall r: nat | r < REGS && CalleeSaved(r) :: a[r] == b[r])
    requires (!p.Fresh? ==> |p.regs| == REGS)
    ensures !p.Fresh? ==> (Regained(a, p.regs) <==> Regained(b, p.regs))
  {
  }

  lemma FewerInUse(ps: seq<S.Proc>, ps': seq<S.Proc>, t: Tasks, m: map<nat, nat>, cur: nat)
    requires Consistent(ps, t, m, cur) && |ps'| == |ps| && forall i: nat | S.InUse(ps', i) :: S.InUse(ps, i)
    ensures Consistent(ps', t, m, cur)
  {
    hide Truthful;
    assert forall i: nat | S.InUse(ps, i) && i != cur :: Good(t, m, i);
  }

  lemma GoodAt(ps: seq<S.Proc>, t: Tasks, m: map<nat, nat>, cur: int, i: nat)
    requires Consistent(ps, t, m, cur) && S.InUse(ps, i) && i != cur
    ensures i < S.SLOTS && Good(t, m, i) && |t.ctxs[i].gpr| == REGS
    ensures !t.parks[i].Fresh? ==> |t.parks[i].regs| == REGS
    ensures t.parks[i].ByIrq? && Ring3(t.parks[i].frame.cs) ==> t.user[i]
    ensures Starts(t.parks[i], t.user[i])
  {
  }

  lemma InStack(m: map<nat, nat>, m': map<nat, nat>, lo: nat, base: nat, top: nat)
    requires lo <= base && top <= lo + STACK && forall a: nat | !(base <= a < top) :: Get(m', a) == Get(m, a)
    ensures OnlyStack(m, m', lo)
  {
  }

  // How a process starts: at its entry in ring 0; in ring 3 through the trampoline, with the frame of its first iretq.
  function FirstPark(isUser: bool, entry: nat, trampoline: nat, userRsp: nat, arg1: nat, arg2: nat): Park
  {
    if isUser then Fresh(trampoline, arg1, arg2, Through(UserFrame(entry, userRsp)))
    else Fresh(entry, arg1, arg2, Direct)
  }

  lemma FirstParkStarts(isUser: bool, entry: nat, trampoline: nat, userRsp: nat, arg1: nat, arg2: nat)
    ensures Starts(FirstPark(isUser, entry, trampoline, userRsp, arg1, arg2), isUser)
  {
  }

  ghost predicate HomeAt(parks: seq<Park>, cur: nat, at: Frame, i: nat)
  {
    if i == cur then UserMode(at) else i < |parks| && parks[i].ByIrq? && UserMode(parks[i].frame)
  }

  // The process that ran is parked as it was interrupted, and the next one goes on where it was.
  lemma HomeKept(parks: seq<Park>, from: nat, at: Frame, regs: seq<nat>, n: nat, at': Frame)
    requires from < |parks| && n < |parks| && n != from && (parks[n].ByIrq? ==> at' == parks[n].frame)
    ensures forall i: nat | HomeAt(parks, from, at, i) :: HomeAt(parks[from := ByIrq(regs, at)], n, at', i)
  {
  }

  class Kernel {
    const table: S.Table
    const cpu: Machine
    var stacks: seq<nat>
    var user: seq<bool>
    ghost var parks: seq<Park>

    ghost function T(): Tasks
      reads this, cpu, cpu.ctx
    {
      Tasks(cpu.ctx[..], stacks, user, parks)
    }

    // ctx.cr3 of every slot, and the whole as the model of page tables and CR3 sees it.
    ghost function Saved3(): (r: seq<nat>)
      requires cpu.ctx.Length == S.SLOTS
      reads this, cpu, cpu.ctx
      ensures |r| == S.SLOTS && forall i | 0 <= i < S.SLOTS :: r[i] == cpu.ctx[i].cr3
    {
      seq(S.SLOTS, i requires 0 <= i < S.SLOTS reads cpu, cpu.ctx => cpu.ctx[i].cr3)
    }

    ghost function W(): A.World
      requires cpu.ctx.Length == S.SLOTS
      reads this, table, table.procs, cpu, cpu.ctx
    {
      A.World(table.Value(), cpu.cr3, Saved3())
    }

    // CR3 and the contexts are those of the model after the step.
    ghost predicate Follows(w: A.World, op: S.Op, pml4: nat)
      reads this, table, table.procs, cpu, cpu.ctx
    {
      A.Sized(w) && cpu.ctx.Length == S.SLOTS && W() == A.Step(w, op, pml4)
    }

    // The current process has run, and an interrupt from ring 3 lands on its own kernel stack.
    ghost predicate CurrentOk(cur: nat)
      reads this, cpu, cpu.ctx
    {
      Sized(T()) && cur < S.SLOTS && |cpu.regs| == REGS && cpu.cr3 != 0 && cpu.ctx[cur].ran
      && |cpu.ctx[cur].gpr| == REGS
      && (user[cur] ==> cpu.tss == stacks[cur] + STACK) && (Ring3(cpu.cs) ==> user[cur])
      && Starts(parks[cur], user[cur])
    }

    ghost predicate Valid()
      reads this, table, table.procs, cpu, cpu.ctx
    {
      S.Started(table.Value()) && !table.halted && Consistent(table.procs[..], T(), cpu.mem, table.currentIndex)
      && CurrentOk(table.currentIndex)
    }

    constructor ()
      ensures fresh(table) && fresh(table.procs) && fresh(cpu) && fresh(cpu.ctx) && Idle()
    {
      table := new S.Table();
      cpu := new Machine(S.SLOTS);
      stacks := seq(S.SLOTS, _ => 0);
      user := seq(S.SLOTS, _ => false);
      parks := seq(S.SLOTS, _ => Fresh(0, 0, 0, Direct));
    }

    // Before the first process runs.
    ghost predicate Idle()
      reads this, table, table.procs, cpu, cpu.ctx
    {
      S.Shape(table.Value()) && !table.halted && table.currentProc == -1
      && Consistent(table.procs[..], T(), cpu.mem, -1)
      && NoneRunning(table.procs[..])
      && |cpu.regs| == REGS && cpu.cr3 != 0 && !Ring3(cpu.cs)
    }

    // The registers, and where the process is.
    ghost function Regs(): seq<nat>
      reads cpu
    {
      cpu.regs
    }

    ghost function Where(): Frame
      reads cpu
    {
      Frame(cpu.rip, cpu.cs, cpu.rflags, cpu.rsp, cpu.ss)
    }

    // Process i is in user mode: it runs there, or was interrupted there and will resume there.
    ghost predicate Home(i: nat)
      reads this, table, cpu
    {
      HomeAt(parks, table.currentIndex, Where(), i)
    }

    // sched_prep.
    method Prepare(n: nat)
      requires n < |user| && n < |stacks|
      modifies cpu`tss
      ensures user[n] ==> cpu.tss == stacks[n] + STACK
    {
      if user[n] { cpu.tss := stacks[n] + STACK; }
    }

    // The process computes, or runs kernel code on its own stack: its registers and that stack may change.
    method Compute(regs: seq<nat>, f: Frame, mem: map<nat, nat>)
      requires Valid() && |regs| == REGS && (Ring3(f.cs) ==> user[table.currentIndex])
      requires OnlyStack(cpu.mem, mem, stacks[table.currentIndex])
      modifies cpu
      ensures Valid() && Regs() == regs && cpu.mem == mem && Where() == f
      ensures forall i: nat | old(Home(i)) && (i == table.currentIndex ==> UserMode(f)) :: Home(i)
    {
      hide Consistent, S.Started, Truthful, OnlyStack;
      S.StepSafe(table.Value(), S.CollectOp);
      S.StepInUse(table.Value(), S.CollectOp);
      OwnStack(table.procs[..], T(), cpu.mem, mem, table.currentIndex);
      cpu.regs, cpu.rip, cpu.cs, cpu.rflags, cpu.rsp, cpu.ss, cpu.mem := regs, f.rip, f.cs, f.rflags, f.rsp, f.ss, mem;
    }

    // A timer interrupt. 'junk' and 'below' are what the C handler leaves in the registers and on the stack below the
    // block. Without a switch the process goes on exactly as it was. With one it is parked with exactly the registers
    // and frame it had, and the process chosen is back as it was parked; one that had parked in a C call regains its
    // callee-saved registers only if the interrupted process happened to hold the same values.
    method Tick(junk: seq<nat>, below: map<nat, nat>)
      requires Valid() && |junk| == REGS && (forall r: nat | r < REGS && CalleeSaved(r) :: junk[r] == cpu.regs[r])
      requires stacks[table.currentIndex] + BLOCK <= cpu.Top() <= stacks[table.currentIndex] + STACK
      requires forall a | a in below :: stacks[table.currentIndex] <= a < cpu.Top() - BLOCK
      modifies this`parks, table, table.procs, cpu, cpu.ctx
      ensures Valid() && table.Value() == S.Tick(old(table.Value())) && Follows(old(W()), S.TickOp, 0)
      ensures table.currentIndex == old(table.currentIndex) ==>
                Regs() == old(Regs()) && Where() == old(Where()) && parks == old(parks)
      ensures var n := table.currentIndex;
              n != old(table.currentIndex) ==>
                parks == old(parks)[old(table.currentIndex) := ByIrq(old(Regs()), old(Where()))]
                && cpu.Back(parks[n], old(cpu.ctx[..])[n])
                && (parks[n].ByCall? ==>
                      |parks[n].regs| == REGS
                      && (Regained(Regs(), parks[n].regs) <==> Regained(old(Regs()), parks[n].regs)))
      ensures forall i: nat | old(Home(i)) :: Home(i)
    {
      hide Consistent, S.Started, Truthful, S.Tick, Block, S.Shape, Good, Regained, HomeAt, Starts, A.Step, S.InUse;
      ghost var s, regs, f := table.Value(), Regs(), Where();
      S.StepInUse(s, S.TickOp);
      StartedIndex(s);
      ConsistentSized(s.ps, T(), cpu.mem, table.currentIndex);
      ghost var w := W();
      EnterKernel(junk, below);
      ghost var t := T();
      var from := table.currentIndex;
      var n := table.PreemptPick();
      StartedIndex(table.Value());
      if n == -1 {
        cpu.ResumeFrame(regs, f);
        FewerInUse(s.ps, table.procs[..], t, cpu.mem, from);
        A.StayIsStep(w, W(), S.TickOp);
      } else {
        GoodAt(s.ps, t, cpu.mem, from, n);
        Dispatch(from, n, regs, f, s.ps);
        RegainedSame(junk, regs, parks[n]);
        HomeKept(t.parks, from, f, regs, n, Where());
        A.SwitchIsStep(w, W(), S.TickOp);
      }
    }

    // The interrupt is taken on the current process's stack and the handler runs.
    method EnterKernel(junk: seq<nat>, below: map<nat, nat>)
      requires Valid() && |junk| == REGS
      requires stacks[table.currentIndex] + BLOCK <= cpu.Top() <= stacks[table.currentIndex] + STACK
      requires forall a | a in below :: stacks[table.currentIndex] <= a < cpu.Top() - BLOCK
      modifies cpu`regs, cpu`mem, cpu`rsp, cpu`cs, cpu`ss
      ensures Consistent(table.procs[..], T(), cpu.mem, table.currentIndex) && Regs() == junk && cpu.cs == 8
      ensures Block(cpu.mem, cpu.rsp, old(Regs()), old(Where()))
      ensures stacks[table.currentIndex] <= cpu.rsp <= stacks[table.currentIndex] + STACK - BLOCK
    {
      hide Consistent, S.Started, Truthful, Block, OnlyStack;
      S.StepInUse(table.Value(), S.CollectOp);
      var from := table.currentIndex;
      ghost var m0, t := cpu.mem, T();
      ghost var top := cpu.Top();
      cpu.Enter(32, 0);
      ghost var m1 := cpu.mem;
      InStack(m0, m1, stacks[from], cpu.rsp, top);
      cpu.RunHandler(junk, below);
      BlockKept(m1, cpu.mem, cpu.rsp, old(Regs()), old(Where()));
      Stayed(m0, m1, cpu.mem, stacks[from], below);
      OwnStack(table.procs[..], t, m0, cpu.mem, from);
    }

    // The stub parks 'from' and resumes n, for which the table was just changed.
    method Dispatch(from: nat, n: nat, ghost regs: seq<nat>, ghost f: Frame, ghost ps: seq<S.Proc>)
      requires Consistent(ps, T(), cpu.mem, from) && from < S.SLOTS && n < S.SLOTS && from != n && S.InUse(ps, n)
      requires |table.procs[..]| == |ps| && forall i: nat | S.InUse(table.procs[..], i) :: S.InUse(ps, i)
      requires CurrentOk(from) && cpu.cs == 8 && |regs| == REGS && Block(cpu.mem, cpu.rsp, regs, f)
      requires (Ring3(f.cs) ==> user[from])
      requires stacks[from] <= cpu.rsp <= stacks[from] + STACK - BLOCK
      modifies this`parks, cpu, cpu.ctx
      ensures Consistent(table.procs[..], T(), cpu.mem, n) && CurrentOk(n)
      ensures parks == old(parks)[from := ByIrq(regs, f)] && cpu.Back(parks[n], old(cpu.ctx[..])[n])
      ensures parks[n].ByCall? ==> Regs() == old(Regs())
      ensures cpu.cr3 == A.Loaded(old(Saved3())[n], old(cpu.cr3)) && Saved3() == old(Saved3())[from := old(cpu.cr3)]
    {
      hide Consistent, Truthful, Block;
      ghost var t := T();
      ConsistentSized(ps, t, cpu.mem, from);
      GoodAt(ps, t, cpu.mem, from, n);
      Prepare(n);
      cpu.StubSwitch(from, n, stacks[n], parks[n], regs, f, stacks[from]);
      parks := parks[from := ByIrq(regs, f)];
      Handover(ps, table.procs[..], t, T(), cpu.mem, from, n);
    }

    // Calling context_switch from 'from' to n, for which the table was just changed; ret is the return address.
    method CallSwitch(from: nat, n: nat, ret: nat, ghost ps: seq<S.Proc>)
      requires Consistent(ps, T(), cpu.mem, from) && from < S.SLOTS && n < S.SLOTS && from != n && S.InUse(ps, n)
      requires S.InUse(ps, from)
      requires |table.procs[..]| == |ps| && forall i: nat | S.InUse(table.procs[..], i) :: S.InUse(ps, i)
      requires CurrentOk(from) && !Ring3(cpu.cs) && stacks[from] + 8 <= cpu.rsp <= stacks[from] + STACK
      modifies this`parks, cpu, cpu.ctx
      ensures Consistent(table.procs[..], T(), cpu.mem, n) && CurrentOk(n)
      ensures parks == old(parks)[from := ByCall(old(Regs()), ret, old(cpu.rsp) - 8)]
      ensures cpu.Back(parks[n], old(cpu.ctx[..])[n])
      ensures parks[n].ByCall? ==> |parks[n].regs| == REGS && Regained(Regs(), parks[n].regs)
      ensures cpu.cr3 == A.Loaded(old(Saved3())[n], old(cpu.cr3)) && Saved3() == old(Saved3())[from := old(cpu.cr3)]
    {
      hide Consistent, Truthful, OnlyStack, Block, Launched, FrameAt, S.InUse;
      ghost var m0, t := cpu.mem, T();
      ConsistentSized(ps, t, cpu.mem, from);
      Prepare(n);
      cpu.Push(ret);
      InStack(m0, cpu.mem, stacks[from], cpu.rsp, cpu.rsp + 8);
      OwnStack(ps, t, m0, cpu.mem, from);
      GoodAt(ps, t, cpu.mem, from, n);
      cpu.SwitchContext(from, n, stacks[n], parks[n], stacks[from]);
      parks := parks[from := ByCall(old(Regs()), ret, old(cpu.rsp) - 8)];
      Handover(ps, table.procs[..], t, T(), cpu.mem, from, n);
      assert forall r: nat | r < REGS && CalleeSaved(r) :: r in Saved() by { SavedCovers(); }
    }

    // sched_yield, called by the running process with return address ret. If another process runs now, this one is
    // parked in the call; a process that had parked in a call regains its callee-saved registers, an interrupted
    // one all.
    method YieldNow(ret: nat)
      requires Valid() && !Ring3(cpu.cs)
      requires stacks[table.currentIndex] + 8 <= cpu.rsp <= stacks[table.currentIndex] + STACK
      modifies this`parks, table, table.procs, cpu, cpu.ctx
      ensures Valid() && table.Value() == S.Yield(old(table.Value())) && Follows(old(W()), S.YieldOp, 0)
      ensures Called(ret, old(table.currentIndex), old(parks), old(Regs()), old(Where()), old(cpu.ctx[..]))
      ensures forall i: nat | old(Home(i)) && i != old(table.currentIndex) :: Home(i)
    {
      hide Consistent, S.Started, Truthful, S.Yield, S.Shape, Good, Regained;
      ghost var s, t := table.Value(), T();
      S.StepInUse(s, S.YieldOp);
      StartedIndex(s);
      ConsistentSized(s.ps, t, cpu.mem, table.currentIndex);
      ghost var w := W();
      var from := table.currentIndex;
      var n := table.SchedYield();
      StartedIndex(table.Value());
      if n == -1 {
        FewerInUse(s.ps, table.procs[..], t, cpu.mem, from);
        A.StayIsStep(w, W(), S.YieldOp);
      } else {
        CallSwitch(from, n, ret, s.ps);
        A.SwitchIsStep(w, W(), S.YieldOp);
      }
    }

    // sched_block, the same.
    method BlockNow(ret: nat)
      requires Valid() && !Ring3(cpu.cs)
      requires stacks[table.currentIndex] + 8 <= cpu.rsp <= stacks[table.currentIndex] + STACK
      modifies this`parks, table, table.procs, cpu, cpu.ctx
      ensures Valid() && table.Value() == S.Block(old(table.Value())) && Follows(old(W()), S.BlockOp, 0)
      ensures Called(ret, old(table.currentIndex), old(parks), old(Regs()), old(Where()), old(cpu.ctx[..]))
      ensures forall i: nat | old(Home(i)) && i != old(table.currentIndex) :: Home(i)
    {
      hide Consistent, S.Started, Truthful, S.Block, S.Shape, Good, Regained;
      ghost var s, t := table.Value(), T();
      S.StepInUse(s, S.BlockOp);
      StartedIndex(s);
      ConsistentSized(s.ps, t, cpu.mem, table.currentIndex);
      ghost var w := W();
      var from := table.currentIndex;
      var n := table.SchedBlock();
      StartedIndex(table.Value());
      if n == -1 {
        FewerInUse(s.ps, table.procs[..], t, cpu.mem, from);
        A.StayIsStep(w, W(), S.BlockOp);
      } else {
        CallSwitch(from, n, ret, s.ps);
        A.SwitchIsStep(w, W(), S.BlockOp);
      }
    }

    // The outcome of a yield or a block, against the state before it.
    ghost predicate Called(ret: nat, from: nat, parks0: seq<Park>, regs0: seq<nat>, where0: Frame, ctx0: seq<Ctx>)
      reads this, table, cpu
    {
      var n := table.currentIndex;
      if n == from then parks == parks0 && Regs() == regs0 && Where() == where0
      else
        from < |parks0| && n < |ctx0| && where0.rsp >= 8
        && parks == parks0[from := ByCall(regs0, ret, where0.rsp - 8)] && n < |parks| && cpu.Back(parks[n], ctx0[n])
        && (parks[n].ByCall? ==> |parks[n].regs| == |Regs()| == REGS && Regained(Regs(), parks[n].regs))
    }

    // proc_exit: unless the machine halts the next process is back as it was parked, but one that had parked in a call
    // finds its callee-saved registers zero.
    method ExitNow(code: int)
      requires Valid() && !Ring3(cpu.cs)
      modifies this`parks, table, table.procs, cpu, cpu.ctx
      ensures table.Value() == S.Exit(old(table.Value()), code) && Follows(old(W()), S.ExitOp(code), 0)
      ensures !table.halted ==>
                Valid() && parks == old(parks)
                && cpu.Back(parks[table.currentIndex], old(cpu.ctx[..])[table.currentIndex])
      ensures var n := table.currentIndex;
              !table.halted && parks[n].ByCall? ==> (|parks[n].regs| == REGS
                && (Regained(Regs(), parks[n].regs)
                    <==> forall r: nat | r < REGS && CalleeSaved(r) :: parks[n].regs[r] == 0))
      ensures !table.halted ==> forall i: nat | old(Home(i)) && i != old(table.currentIndex) :: Home(i)
    {
      hide Consistent, S.Started, Truthful, S.Exit, S.Shape, Good;
      ghost var s, t := table.Value(), T();
      S.StepInUse(s, S.ExitOp(code));
      ExitStarted(s, code);
      StartedIndex(s);
      ConsistentSized(s.ps, t, cpu.mem, table.currentIndex);
      ghost var w := W();
      var n := table.ProcExit(code);
      if n != -1 {
        StartedIndex(table.Value());
        GoodAt(s.ps, t, cpu.mem, s.index, n);
        Prepare(n);
        cpu.SwitchFirst(n, stacks[n], parks[n]);
        Handover(s.ps, table.procs[..], t, T(), cpu.mem, s.index, n);
        assert Saved3() == w.saved;
        A.SwitchIsStep(w, W(), S.ExitOp(code));
      } else {
        A.StayIsStep(w, W(), S.ExitOp(code));
      }
    }

    // A process is created in the first free slot, on a new kernel stack at 'base'. A ring-0 process will enter at
    // 'entry'. A ring-3 process will enter the trampoline, with the frame of its first iretq, whose rsp is 'userRsp',
    // on the stack right above and its arguments below. Every further step keeps it parked like that until it runs.
    method Spawn(ok: bool, child: bool, isUser: bool, base: nat, entry: nat, trampoline: nat, userRsp: nat, arg1: nat,
            arg2: nat, cr3: nat)
      returns (n: int)
      requires (Valid() || Idle()) && base % 16 == 0
      requires forall i: nat | S.InUse(table.procs[..], i) :: StacksApart(base, stacks[i])
      modifies this, table, table.procs, cpu`mem, cpu.ctx
      ensures if old(Valid()) then Valid() else Idle()
      ensures Follows(old(W()), S.CreateOp(ok, child), cr3)
      ensures table.Value() == S.Create(old(table.Value()), ok, child) && n == S.FindFree(old(table.procs[..]), 0)
      ensures n == -1 ==> parks == old(parks)
      ensures n != -1 ==> parks == old(parks)[n := FirstPark(isUser, entry, trampoline, userRsp, arg1, arg2)]
      ensures n != -1 ==> user == old(user)[n := isUser] && Starts(parks[n], isUser)
      ensures n != -1 ==> parks[n].arg1 == arg1 && parks[n].arg2 == arg2
      ensures n != -1 && !isUser ==> parks[n].entry == entry
      ensures n != -1 && isUser ==>
                parks[n].entry == trampoline && parks[n].launch.frame.rip == entry
                && parks[n].launch.frame.rsp == userRsp
      ensures old(Valid()) ==> forall i: nat | old(Home(i)) && i != n :: Home(i)
    {
      hide Consistent, S.Started, Truthful, S.Create, OnlyStack, FrameAt, S.FindFree, NoneRunning, Good, S.InUse;
      ConsistentSized(table.procs[..], T(), cpu.mem, if Valid() then table.currentIndex else -1);
      ghost var s, t, m0, saved := table.Value(), T(), cpu.mem, Saved3();
      ghost var started := Valid();
      if started { StartedIndex(s); }
      CreatedInUse(s, ok, child);
      n := table.CreateProc(ok, child);
      if n == -1 { return; }
      AddTask(n, isUser, base, entry, trampoline, userRsp, arg1, arg2, cr3, s.ps, if started then s.index else -1);
      assert Saved3() == saved[n := cr3];
    }

    // The new process's stack and context.
    method AddTask(n: nat, isUser: bool, base: nat, entry: nat, trampoline: nat, userRsp: nat, arg1: nat, arg2: nat,
            cr3: nat, ghost ps: seq<S.Proc>, ghost cur: int)
      requires Consistent(ps, T(), cpu.mem, cur) && n < S.SLOTS && |table.procs[..]| == |ps| && !S.InUse(ps, n)
      requires forall i: nat | S.InUse(table.procs[..], i) && i != n :: S.InUse(ps, i)
      requires forall i: nat | S.InUse(ps, i) :: StacksApart(base, stacks[i])
      modifies this, cpu`mem, cpu.ctx
      ensures Consistent(table.procs[..], T(), cpu.mem, cur)
      ensures parks == old(parks)[n := FirstPark(isUser, entry, trampoline, userRsp, arg1, arg2)]
      ensures |stacks| == |old(stacks)| && cpu.ctx[n].cr3 == cr3 && user == old(user)[n := isUser]
      ensures Starts(parks[n], isUser)
      ensures forall i | 0 <= i < S.SLOTS && i != n ::
                cpu.ctx[i] == old(cpu.ctx[i]) && stacks[i] == old(stacks)[i] && user[i] == old(user)[i]
    {
      hide Truthful, OnlyStack, FrameAt, Good, S.InUse, Consistent;
      ConsistentSized(ps, T(), cpu.mem, cur);
      ghost var t, m0 := T(), cpu.mem;
      var top := cpu.FirstStack(isUser, base, entry, trampoline, userRsp, arg1, arg2);
      cpu.ctx[n] := Ctx(seq(REGS, _ => 0), entry, top, cr3, arg1, arg2, false, 0, 0);
      stacks, user := stacks[n := base], user[n := isUser];
      parks := parks[n := FirstPark(isUser, entry, trampoline, userRsp, arg1, arg2)];
      FirstParkStarts(isUser, entry, trampoline, userRsp, arg1, arg2);
      FreshGood(cpu.mem, T(), n);
      NewTask(ps, table.procs[..], t, T(), m0, cpu.mem, cur, n, base);
    }

    // A ring-3 process that has just entered the trampoline starts its program: entry, stack pointer and the two
    // arguments are those it was created with, it runs in user mode, and the next interrupt lands on its own kernel
    // stack.
    method EnterProgram(ghost c: Ctx)
      requires Valid() && user[table.currentIndex]
      requires parks[table.currentIndex].Fresh? && cpu.Back(parks[table.currentIndex], c)
      modifies cpu
      ensures Valid() && cpu.mem == old(cpu.mem) && parks[table.currentIndex].launch.Through?
      ensures var p := parks[table.currentIndex];
              Where() == p.launch.frame && Regs()[RDI] == p.arg1 && Regs()[RSI] == p.arg2
      ensures UserMode(Where()) && cpu.Top() == stacks[table.currentIndex] + STACK
      ensures Home(table.currentIndex)
    {
      ghost var p := parks[table.currentIndex];
      hide Consistent, S.Started, Launched;
      cpu.EnterUser(p.arg1, p.arg2, p.launch.frame);
    }

    // sched_run_first: the first READY process enters; if there is none nothing does.
    method Boot()
      requires Idle()
      modifies this, table, table.procs, cpu, cpu.ctx
      ensures table.Value() == S.Start(old(table.Value())) && parks == old(parks)
      ensures table.currentProc != -1 ==>
                Valid() && cpu.Back(parks[table.currentIndex], old(cpu.ctx[..])[table.currentIndex])
      ensures table.currentProc == -1 <==> forall i :: !S.IsReady(old(table.procs[..]), i)
    {
      hide Consistent, Truthful, Good, S.Pick;
      ghost var s, t := table.Value(), T();
      S.PickNearest(s.ps, S.SLOTS - 1);
      table.RunFirst();
      if table.currentProc != -1 {
        var n := table.currentIndex;
        S.StartStarts(s);
        ConsistentSized(s.ps, t, cpu.mem, -1);
        GoodAt(s.ps, t, cpu.mem, -1, n);
        Prepare(n);
        cpu.SwitchFirst(n, stacks[n], parks[n]);
        FirstHandover(s.ps, table.procs[..], t, T(), cpu.mem, n);
      }
    }
  }
}
