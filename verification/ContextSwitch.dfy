// How a process leaves the processor and comes back: parked by the timer interrupt with its registers on its kernel
// stack, parked by a call to context_switch, or not yet run; and the three ways of resuming it.
module ContextSwitch {
  // The general registers except rsp, by number.
  const RAX: nat := 0
  const RBX: nat := 1
  const RCX: nat := 2
  const RDX: nat := 3
  const RSI: nat := 4
  const RDI: nat := 5
  const RBP: nat := 6
  const R8: nat := 7
  const R9: nat := 8
  const R10: nat := 9
  const R11: nat := 10
  const R12: nat := 11
  const R13: nat := 12
  const R14: nat := 13
  const R15: nat := 14
  const REGS: nat := 15

  const STACK: nat := 16384
  const BLOCK: nat := 176  // 15 registers, interrupt number, error code, and the frame of the processor

  // The order in which the stub saves the registers, and in which every resume path takes them back.
  function PushOrder(): seq<nat> { [RAX, R15, R14, R13, R12, R11, R10, R9, R8, RBP, RBX, RDX, RCX, RSI, RDI] }
  function PopOrder(): seq<nat> { [RDI, RSI, RCX, RDX, RBX, RBP, R8, R9, R10, R11, R12, R13, R14, R15, RAX] }

  // The registers context_switch stores, and those it and the calling convention promise back to a C caller.
  function Saved(): seq<nat> { [R15, R14, R13, R12, R11, R10, R9, R8, RBP, RBX] }
  predicate CalleeSaved(r: nat) { r == RBX || r == RBP || R12 <= r <= R15 }

  datatype Frame = Frame(rip: nat, cs: nat, rflags: nat, rsp: nat, ss: nat)

  // The low two bits of cs are the privilege level.
  predicate Ring3(cs: nat) { cs % 4 == 3 }

  // The processor runs a user program: code and stack segment of ring 3, interrupts enabled (bit 9 of rflags), and no
  // right to disable them (its bits 12 and 13). Section 3.1.4 of the AMD64 Architecture Programmer's Manual, Volume 2.
  predicate UserMode(f: Frame) { Ring3(f.cs) && f.ss % 4 == 3 && f.rflags / 512 % 2 == 1 && f.rflags / 4096 % 4 == 0 }

  // cpu_context_t; gpr is indexed by register number.
  datatype Ctx = Ctx(gpr: seq<nat>, rip: nat, rsp: nat, cr3: nat, arg1: nat, arg2: nat, ran: bool, style: nat,
                     hwRsp: nat)

  // Kernel-stack words, by address.
  function Get(m: map<nat, nat>, a: nat): nat { if a in m then m[a] else 0 }

  // A ring-0 process starts at its entry; a ring-3 process through the trampoline, which loads the two arguments
  // from below the stack pointer and takes this frame.
  datatype Launch = Direct | Through(frame: Frame)

  // How a process that is not running left the processor.
  datatype Park =
    | Fresh(entry: nat, arg1: nat, arg2: nat, launch: Launch)
    | ByIrq(regs: seq<nat>, frame: Frame)
    | ByCall(regs: seq<nat>, ret: nat, rsp: nat)

  // The block the stub leaves at base: the registers in the order they are taken back, two words, and the frame.
  ghost predicate Block(m: map<nat, nat>, base: nat, regs: seq<nat>, f: Frame)
    requires |regs| == REGS
  {
    (forall k | 0 <= k < REGS :: Get(m, base + 8 * k) == regs[PopOrder()[k]])
    && FrameAt(m, base + 136, f)
  }

  ghost predicate FrameAt(m: map<nat, nat>, a: nat, f: Frame)
  {
    Get(m, a) == f.rip && Get(m, a + 8) == f.cs && Get(m, a + 16) == f.rflags && Get(m, a + 24) == f.rsp
    && Get(m, a + 32) == f.ss
  }

  // What enter_user finds around the stack pointer sp.
  ghost predicate Launched(m: map<nat, nat>, sp: nat, arg1: nat, arg2: nat, launch: Launch)
  {
    match launch
    case Direct => true
    case Through(f) => sp >= 24 && FrameAt(m, sp, f) && Get(m, sp - 24) == arg1 && Get(m, sp - 16) == arg2
  }

  // (ran, style) says truly what is on the stack lo..lo+STACK and in the context.
  ghost predicate Truthful(m: map<nat, nat>, c: Ctx, lo: nat, p: Park)
  {
    |c.gpr| == REGS &&
    match p
    case Fresh(entry, arg1, arg2, launch) =>
      !c.ran && c.style == 0 && lo <= c.rsp <= lo + STACK - 8 && Get(m, c.rsp) == entry && c.arg1 == arg1
      && c.arg2 == arg2
      && Launched(m, c.rsp + 8, arg1, arg2, launch) && (launch.Through? ==> lo + 16 <= c.rsp <= lo + STACK - 48)
    case ByIrq(regs, frame) =>
      c.ran && c.style == 1 && c.cr3 != 0 && |regs| == REGS && lo <= c.hwRsp <= lo + STACK - BLOCK
      && Block(m, c.hwRsp, regs, frame)
    case ByCall(regs, ret, rsp) =>
      c.ran && c.style == 0 && c.cr3 != 0 && |regs| == REGS && c.rsp == rsp && lo <= rsp <= lo + STACK - 8
      && Get(m, rsp) == ret
      && forall r | r in Saved() :: c.gpr[r] == regs[r]
  }

  // The frame a ring-3 program starts with: interrupts enabled, user code and data segments.
  function UserFrame(entry: nat, userRsp: nat): Frame { Frame(entry, 0x1B, 0x202, userRsp, 0x23) }

  // Only words of the stack at lo changed.
  ghost predicate OnlyStack(m: map<nat, nat>, m': map<nat, nat>, lo: nat)
  {
    forall a: nat | !(lo <= a < lo + STACK) :: Get(m', a) == Get(m, a)
  }

  // A process stays parked as it was whatever is written on other stacks.
  lemma StaysTruthful(m: map<nat, nat>, m': map<nat, nat>, c: Ctx, lo: nat, p: Park, other: nat)
    requires Truthful(m, c, lo, p) && OnlyStack(m, m', other) && (lo + STACK <= other || other + STACK <= lo)
    ensures Truthful(m', c, lo, p)
  {
    hide Get;
  }

  lemma BlockKept(m: map<nat, nat>, m': map<nat, nat>, base: nat, g: seq<nat>, f: Frame)
    requires |g| == REGS && Block(m, base, g, f) && forall a: nat | a >= base :: Get(m', a) == Get(m, a)
    ensures Block(m', base, g, f)
  {
    hide Get, PopOrder;
  }

  predicate Order(order: seq<nat>)
  {
    (forall k | 0 <= k < |order| :: order[k] < REGS) && forall j, k | 0 <= j < k < |order| :: order[j] != order[k]
  }

  // What is taken back first was saved last.
  lemma OrdersMatch()
    ensures |PushOrder()| == |PopOrder()| == REGS
    ensures forall k | 0 <= k < REGS :: PopOrder()[k] == PushOrder()[REGS - 1 - k]
  {
  }

  // Every register is taken back, at its own place.
  function PlaceOf(r: nat): nat
  {
    if r == RDI then 0 else if r == RSI then 1 else if r == RCX then 2 else if r == RDX then 3 else if r == RBX then 4
    else if r == RBP then 5 else if r == RAX then 14 else r - 1
  }

  lemma Places()
    ensures |PopOrder()| == REGS && forall r | 0 <= r < REGS :: PlaceOf(r) < REGS && PopOrder()[PlaceOf(r)] == r
  {
  }

  lemma PopsInRange()
    ensures forall k | 0 <= k < REGS :: PopOrder()[k] < REGS && PlaceOf(PopOrder()[k]) == k
  {
  }

  lemma OrdersOk()
    ensures Order(PushOrder()) && Order(PopOrder())
  {
    OrdersMatch();
    PopsInRange();
    hide PopOrder, PushOrder, PlaceOf;
    assert forall j | 0 <= j < REGS :: PushOrder()[j] == PopOrder()[REGS - 1 - j] by {
      forall j | 0 <= j < REGS
        ensures PushOrder()[j] == PopOrder()[REGS - 1 - j]
      {
        assert PopOrder()[REGS - 1 - j] == PushOrder()[REGS - 1 - (REGS - 1 - j)];
      }
    }
  }

  // The processor, the kernel stacks and the saved contexts.
  class Machine {
    var regs: seq<nat>
    var rip: nat
    var cs: nat
    var rflags: nat
    var rsp: nat
    var ss: nat
    var cr3: nat
    var tss: nat  // rsp0: where the frame of an interrupt from ring 3 goes
    var mem: map<nat, nat>
    const ctx: array<Ctx>

    constructor (slots: nat)
      ensures fresh(ctx) && ctx.Length == slots && |regs| == REGS && cr3 != 0 && cs == 8
    {
      regs, rip, cs, rflags, rsp, ss, cr3, tss, mem := seq(REGS, _ => 0), 0, 8, 0, 0, 0x10, 1, 0, map[];
      ctx := new Ctx[slots](_ => Ctx([], 0, 0, 0, 0, 0, false, 0, 0));
    }

    method Push(v: nat)
      requires rsp >= 8
      modifies this`mem, this`rsp
      ensures rsp == old(rsp) - 8 && mem == old(mem)[rsp := v]
    {
      rsp := rsp - 8;
      mem := mem[rsp := v];
    }

    method Pop() returns (v: nat)
      modifies this`rsp
      ensures rsp == old(rsp) + 8 && v == Get(mem, old(rsp))
    {
      v := Get(mem, rsp);
      rsp := rsp + 8;
    }

    method PushAll(order: seq<nat>)
      requires |regs| == REGS && Order(order) && rsp >= 8 * |order|
      modifies this`mem, this`rsp
      ensures rsp == old(rsp) - 8 * |order|
      ensures forall k | 0 <= k < |order| :: Get(mem, old(rsp) - 8 * (k + 1)) == regs[order[k]]
      ensures forall a: nat | !(rsp <= a < old(rsp)) :: Get(mem, a) == Get(old(mem), a)
    {
      var i := 0;
      while i < |order|
        invariant i <= |order| && rsp == old(rsp) - 8 * i
        invariant forall k | 0 <= k < i :: Get(mem, old(rsp) - 8 * (k + 1)) == regs[order[k]]
        invariant forall a: nat | !(rsp <= a < old(rsp)) :: Get(mem, a) == Get(old(mem), a)
      {
        Push(regs[order[i]]);
        i := i + 1;
      }
    }

    method PopAll(order: seq<nat>)
      requires |regs| == REGS && Order(order)
      modifies this`regs, this`rsp
      ensures |regs| == REGS && rsp == old(rsp) + 8 * |order|
      ensures forall k | 0 <= k < |order| :: regs[order[k]] == Get(mem, old(rsp) + 8 * k)
    {
      var i := 0;
      while i < |order|
        invariant i <= |order| && |regs| == REGS && rsp == old(rsp) + 8 * i
        invariant forall k | 0 <= k < i :: regs[order[k]] == Get(mem, old(rsp) + 8 * k)
      {
        var v := Pop();
        regs := regs[order[i] := v];
        i := i + 1;
      }
    }

    // ret: the return address is on the stack.
    method Ret()
      modifies this`rip, this`rsp
      ensures rip == Get(mem, old(rsp)) && rsp == old(rsp) + 8
    {
      rip := Pop();
    }

    method Iretq()
      modifies this`rip, this`cs, this`rflags, this`rsp, this`ss
      ensures rip == Get(mem, old(rsp)) && cs == Get(mem, old(rsp) + 8) && rflags == Get(mem, old(rsp) + 16)
      ensures rsp == Get(mem, old(rsp) + 24) && ss == Get(mem, old(rsp) + 32)
    {
      rip := Pop();
      cs := Pop();
      rflags := Pop();
      var sp := Pop();
      ss := Pop();
      rsp := sp;
    }

    // The processor takes an interrupt (on the stack of tss from ring 3, on the current one from ring 0), the vector's
    // entry pushes the error code and its number, and the stub the registers.
    method Enter(number: nat, err: nat)
      requires |regs| == REGS && Top() >= BLOCK
      modifies this`mem, this`rsp, this`cs, this`ss
      ensures rsp == old(Top()) - BLOCK && Block(mem, rsp, regs, old(Frame(rip, cs, rflags, rsp, ss)))
      ensures forall a: nat | !(rsp <= a < old(Top())) :: Get(mem, a) == Get(old(mem), a)
      ensures cs == 8
    {
      hide PushOrder, PopOrder, Order, PlaceOf;
      ghost var top := Top();
      ghost var f := Frame(rip, cs, rflags, rsp, ss);
      PushFrame();
      Push(err);
      Push(number);
      ghost var m := mem;
      OrdersOk();
      OrdersMatch();
      PopsInRange();
      PushAll(PushOrder());
      forall k | 0 <= k < REGS
        ensures Get(mem, rsp + 8 * k) == regs[PopOrder()[k]]
      {
        assert rsp + 8 * k == top - 56 - 8 * (REGS - 1 - k + 1);
      }
      assert forall a: nat | a >= top - 56 :: Get(mem, a) == Get(m, a);
    }

    // What the processor itself pushes, before it loads the kernel's segments.
    method PushFrame()
      requires Top() >= BLOCK
      modifies this`mem, this`rsp, this`cs, this`ss
      ensures rsp == old(Top()) - 40 && cs == 8
      ensures Get(mem, rsp) == rip && Get(mem, rsp + 8) == old(cs) && Get(mem, rsp + 16) == rflags
      ensures Get(mem, rsp + 24) == old(rsp) && Get(mem, rsp + 32) == old(ss)
      ensures forall a: nat | !(rsp <= a < old(Top())) :: Get(mem, a) == Get(old(mem), a)
    {
      var sp := rsp;
      rsp := Top();
      Push(ss);
      Push(sp);
      Push(rflags);
      Push(cs);
      Push(rip);
      cs, ss := 8, 0x10;
    }

    // Where the frame of an interrupt starts.
    function Top(): nat
      reads this
    {
      if Ring3(cs) then tss else rsp / 16 * 16
    }

    // The stack a new process starts on: ring 0 with its entry as return address; ring 3 with the trampoline's, the
    // frame of its first iretq above and the arguments below.
    method FirstStack(isUser: bool, base: nat, entry: nat, trampoline: nat, userRsp: nat, arg1: nat, arg2: nat)
      returns (top: nat)
      modifies this`mem
      ensures base <= top <= base + STACK - 8 && top % 8 == base % 8
      ensures Get(mem, top) == (if isUser then trampoline else entry) && OnlyStack(old(mem), mem, base)
      ensures isUser ==>
                Launched(mem, top + 8, arg1, arg2, Through(UserFrame(entry, userRsp))) && base + 16 <= top
                && top + 48 == base + STACK
    {
      if isUser {
        var f := base + STACK - 40;
        mem := mem[f := entry][f + 8 := 0x1B][f + 16 := 0x202][f + 24 := userRsp][f + 32 := 0x23];
        mem := mem[f - 8 := trampoline][f - 24 := arg1][f - 16 := arg2];
        top := f - 8;
      } else {
        top := base + STACK - 16;
        mem := mem[top := entry];
      }
    }

    // user_trampoline and enter_user: the program's first instruction is next, with its arguments in rdi and rsi.
    method EnterUser(ghost arg1: nat, ghost arg2: nat, ghost f: Frame)
      requires |regs| == REGS && Launched(mem, rsp, arg1, arg2, Through(f))
      modifies this`regs, this`rip, this`cs, this`rflags, this`rsp, this`ss
      ensures |regs| == REGS && regs[RDI] == arg1 && regs[RSI] == arg2
      ensures forall r | 0 <= r < REGS && r != RDI && r != RSI :: regs[r] == old(regs[r])
      ensures Frame(rip, cs, rflags, rsp, ss) == f
    {
      regs := regs[RDI := Get(mem, rsp - 24)];
      regs := regs[RSI := Get(mem, rsp - 16)];
      Iretq();
    }

    // C code run by the stub: it may leave anything in the registers and below the block.
    method RunHandler(junk: seq<nat>, below: map<nat, nat>)
      requires |junk| == REGS && forall a | a in below :: a < rsp
      modifies this`regs, this`mem
      ensures regs == junk && forall a: nat | a !in below :: Get(mem, a) == Get(old(mem), a)
    {
      regs := junk;
      mem := mem + below;
    }

    // The block at rsp is taken back and the process goes on.
    method ResumeFrame(ghost g: seq<nat>, ghost f: Frame)
      requires |regs| == REGS && |g| == REGS && Block(mem, rsp, g, f)
      modifies this`regs, this`rip, this`cs, this`rflags, this`rsp, this`ss
      ensures regs == g && Frame(rip, cs, rflags, rsp, ss) == f
    {
      hide PopOrder, Order, PlaceOf;
      OrdersOk();
      Places();
      PopAll(PopOrder());
      forall r | 0 <= r < REGS
        ensures regs[r] == g[r]
      {
        assert PopOrder()[PlaceOf(r)] == r;
      }
      rsp := rsp + 16;
      Iretq();
    }

    // Process p, whose context was c, is back where it left (or enters for the first time).
    ghost predicate Back(p: Park, c: Ctx)
      reads this
    {
      |regs| == REGS &&
      match p
      case Fresh(entry, arg1, arg2, launch) =>
        rip == entry && regs[RDI] == arg1 && regs[RSI] == arg2 && rsp == c.rsp + 8 && (c.cr3 != 0 ==> cr3 == c.cr3)
        && Launched(mem, rsp, arg1, arg2, launch)
      case ByIrq(g, f) => regs == g && Frame(rip, cs, rflags, rsp, ss) == f && cr3 == c.cr3
      case ByCall(_, ret, sp) => rip == ret && rsp == sp + 8 && cr3 == c.cr3
    }

    method LoadCr3(v: nat)
      modifies this`cr3
      ensures cr3 == if v != 0 then v else old(cr3)
    {
      if v != 0 { cr3 := v; }
    }

    method ClearSaved()
      requires |regs| == REGS
      modifies this`regs
      ensures |regs| == REGS
      ensures forall r | 0 <= r < REGS :: regs[r] == if CalleeSaved(r) then 0 else old(regs[r])
    {
      regs := regs[RBP := 0][RBX := 0][R12 := 0][R13 := 0][R14 := 0][R15 := 0];
    }

    // The stub after the handler chose 'to': the process that was running is parked on the block at rsp.
    method StubSwitch(from: nat, to: nat, lo: nat, ghost p: Park, ghost g: seq<nat>, ghost f: Frame, ghost lo0: nat)
      requires |regs| == REGS && from < ctx.Length && to < ctx.Length && from != to
      requires |g| == REGS && Block(mem, rsp, g, f) && lo0 <= rsp <= lo0 + STACK - BLOCK && ctx[from].ran && cr3 != 0
      requires |ctx[from].gpr| == REGS
      requires Truthful(mem, ctx[to], lo, p)
      modifies this, ctx
      ensures mem == old(mem) && tss == old(tss) && ctx[to].ran && |ctx[to].gpr| == REGS && cr3 != 0
      ensures forall i | 0 <= i < ctx.Length && i != from && i != to :: ctx[i] == old(ctx[i])
      ensures Truthful(mem, ctx[from], lo0, ByIrq(g, f)) && ctx[from].cr3 == old(cr3)
      ensures cr3 == (if old(ctx[to]).cr3 != 0 then old(ctx[to]).cr3 else old(cr3)) && ctx[to].cr3 == old(ctx[to]).cr3
      ensures Back(p, old(ctx[to]))
      ensures p.ByCall? ==> regs == old(regs)
      ensures !p.ByIrq? ==> cs == old(cs)
    {
      ctx[from] := ctx[from].(hwRsp := rsp, style := 1, cr3 := cr3);
      var c := ctx[to];
      if !c.ran {
        ctx[to] := c.(style := 0, ran := true);
        LoadCr3(c.cr3);
        rsp := c.rsp;
        EnterFirst(c.arg1, c.arg2);
      } else if c.style == 1 {
        LoadCr3(c.cr3);
        rsp := c.hwRsp;
        ResumeFrame(p.regs, p.frame);
      } else {
        LoadCr3(c.cr3);
        rsp := c.rsp;
        Ret();
      }
    }

    // Entering by ret, with cleared registers and the two arguments.
    method EnterFirst(arg1: nat, arg2: nat)
      requires |regs| == REGS
      modifies this`regs, this`rip, this`rsp
      ensures |regs| == REGS && regs[RDI] == arg1 && regs[RSI] == arg2
      ensures (forall r: nat | CalleeSaved(r) :: regs[r] == 0)
      ensures rip == Get(mem, old(rsp)) && rsp == old(rsp) + 8
    {
      regs := regs[R8 := arg1][R9 := arg2];
      ClearSaved();
      regs := regs[RDI := regs[R8]][RSI := regs[R9]];
      Ret();
    }

    // The registers context_switch stores into a context.
    method SaveRegs(from: nat)
      requires |regs| == REGS && from < ctx.Length && |ctx[from].gpr| == REGS
      modifies ctx
      ensures |ctx[from].gpr| == REGS && ctx[from] == old(ctx[from]).(gpr := ctx[from].gpr)
      ensures forall r | r in Saved() :: ctx[from].gpr[r] == regs[r]
      ensures forall i | 0 <= i < ctx.Length && i != from :: ctx[i] == old(ctx[i])
    {
      var order, i := Saved(), 0;
      while i < |order|
        invariant i <= |order| && |ctx[from].gpr| == REGS && ctx[from] == old(ctx[from]).(gpr := ctx[from].gpr)
        invariant forall k | 0 <= k < i :: ctx[from].gpr[order[k]] == regs[order[k]]
        invariant forall k | 0 <= k < ctx.Length && k != from :: ctx[k] == old(ctx[k])
      {
        ctx[from] := ctx[from].(gpr := ctx[from].gpr[order[i] := regs[order[i]]]);
        i := i + 1;
      }
    }

    method LoadRegs(gpr: seq<nat>)
      requires |regs| == REGS && |gpr| == REGS
      modifies this`regs
      ensures |regs| == REGS && forall r | r in Saved() :: regs[r] == gpr[r]
    {
      var order, i := Saved(), 0;
      while i < |order|
        invariant i <= |order| && |regs| == REGS
        invariant forall k | 0 <= k < i :: regs[order[k]] == gpr[order[k]]
      {
        regs := regs[order[i] := gpr[order[i]]];
        i := i + 1;
      }
    }

    // context_switch, called with its return address at rsp.
    method SwitchContext(from: nat, to: nat, lo: nat, ghost p: Park, ghost lo0: nat)
      requires |regs| == REGS && from < ctx.Length && to < ctx.Length && from != to && |ctx[from].gpr| == REGS
      requires lo0 <= rsp <= lo0 + STACK - 8 && ctx[from].ran && cr3 != 0
      requires Truthful(mem, ctx[to], lo, p)
      modifies this, ctx
      ensures mem == old(mem) && tss == old(tss) && ctx[to].ran && |ctx[to].gpr| == REGS && cr3 != 0
      ensures forall i | 0 <= i < ctx.Length && i != from && i != to :: ctx[i] == old(ctx[i])
      ensures Truthful(mem, ctx[from], lo0, ByCall(old(regs), Get(mem, old(rsp)), old(rsp)))
      ensures ctx[from].cr3 == old(cr3)
      ensures cr3 == (if old(ctx[to]).cr3 != 0 then old(ctx[to]).cr3 else old(cr3)) && ctx[to].cr3 == old(ctx[to]).cr3
      ensures Back(p, old(ctx[to]))
      ensures p.ByCall? ==> forall r | r in Saved() :: regs[r] == p.regs[r]
      ensures !p.ByIrq? ==> cs == old(cs)
    {
      SaveRegs(from);
      ctx[from] := ctx[from].(style := 0, rsp := rsp, rip := Get(mem, rsp), cr3 := cr3);
      var c := ctx[to];
      LoadRegs(c.gpr);
      LoadCr3(c.cr3);
      if !c.ran {
        ctx[to] := c.(ran := true);
        regs := regs[R8 := c.arg1][R9 := c.arg2];
        rsp := c.rsp;
        regs := regs[RDI := regs[R8]][RSI := regs[R9]];
        Ret();
      } else if c.style == 1 {
        rsp := c.hwRsp;
        ResumeFrame(p.regs, p.frame);
      } else {
        rsp := c.rsp;
        Ret();
      }
    }

    // context_switch_first.
    method SwitchFirst(to: nat, lo: nat, ghost p: Park)
      requires |regs| == REGS && to < ctx.Length && Truthful(mem, ctx[to], lo, p) && cr3 != 0
      modifies this, ctx
      ensures mem == old(mem) && tss == old(tss) && ctx[to].ran && |ctx[to].gpr| == REGS && cr3 != 0
      ensures forall i | 0 <= i < ctx.Length && i != to :: ctx[i] == old(ctx[i])
      ensures cr3 == (if old(ctx[to]).cr3 != 0 then old(ctx[to]).cr3 else old(cr3)) && ctx[to].cr3 == old(ctx[to]).cr3
      ensures Back(p, old(ctx[to]))
      ensures p.ByCall? ==> forall r: nat | CalleeSaved(r) :: regs[r] == 0
      ensures !p.ByIrq? ==> cs == old(cs)
    {
      var c := ctx[to];
      if c.style == 1 {
        LoadCr3(c.cr3);
        rsp := c.hwRsp;
        ResumeFrame(p.regs, p.frame);
      } else {
        rsp := c.rsp;
        ctx[to] := c.(style := 0, ran := true);
        LoadCr3(c.cr3);
        EnterFirst(c.arg1, c.arg2);
      }
    }
  }
}
