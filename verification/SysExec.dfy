// SYS_EXEC (syscall.c): the argument vector of the caller, read through the caller's page tables, is the one the new
// program finds through its own.
module SysExec {
  import opened PhysMemory
  import opened FrameAllocator
  import opened PageTables
  import opened AddressSpaces
  import opened ProcessMemory
  import opened UserMemory
  import opened Argv
  import opened ProcessCreation
  import opened ElfLoader

  // (int)a2, at least 0 and at most 16.
  function ArgCount(a2: nat): (n: nat)
    ensures n <= ARG_MAX
  {
    var low := a2 % 0x1_0000_0000;
    if low >= 0x8000_0000 then 0 else if low > ARG_MAX then ARG_MAX else low
  }

  // What the pointer at v gives: a null pointer the empty string, another one the string it points to, which is shorter
  // than the buffer.
  ghost predicate GivesArg(mem: Memory, root: nat, v: nat, s: seq<Byte>)
  {
    var q := UserWord(mem, root, v);
    q.Some? && if q.value == 0 then s == [] else |s| < ARG_BUFFER && HoldsString(mem, root, q.value, s)
  }

  // There is only one such string.
  lemma StringUnique(mem: Memory, root: nat, v: nat, s: seq<Byte>, t: seq<Byte>)
    requires HoldsString(mem, root, v, s) && HoldsString(mem, root, v, t)
    ensures s == t
  {
    hide UserByte, HoldsString;
    var n := if |s| < |t| then |s| else |t|;
    StringByte(mem, root, v, s, n);
    StringByte(mem, root, v, t, n);
    forall i | 0 <= i < |s|
      ensures s[i] == t[i]
    {
      StringByte(mem, root, v, s, i);
      StringByte(mem, root, v, t, i);
    }
  }

  // The caller's vector is readable: the array lies in a recorded region, and each pointer in it is null or leads to a
  // string below 128 bytes whose bytes all do.
  ghost predicate ArgsReadable(mem: Memory, root: nat, umap: seq<Span>, a3: nat, n: nat)
  {
    RangeOk(umap, a3, 8 * n) && forall i | 0 <= i < n :: ArgReadable(mem, root, umap, a3 + 8 * i)
  }

  ghost predicate RangeOk(umap: seq<Span>, a: nat, len: nat)
  {
    a != 0 && a + len < U64 && exists i | 0 <= i < |umap| :: umap[i].base <= a && a + len <= umap[i].base + umap[i].size
  }

  ghost predicate ArgReadable(mem: Memory, root: nat, umap: seq<Span>, v: nat)
  {
    var q := UserWord(mem, root, v);
    q.Some? && (q.value == 0 || exists s: seq<Byte> :: |s| < ARG_BUFFER && Accessible(mem, root, umap, q.value, s))
  }

  lemma {:induction false} WordReadable(s: State, root: nat, umap: seq<Span>, heap: int, v: nat, n: nat)
    requires Inv(s) && Layout(s, root, umap, heap)
    requires exists i | 0 <= i < |umap| :: umap[i].base <= v && v + n <= umap[i].base + umap[i].size
    ensures UserBytes(s.mem, root, v, n).Some?
  {
    hide Layout, UserByte, Inv;
    if n > 0 {
      var i :| 0 <= i < |umap| && umap[i].base <= v && v + n <= umap[i].base + umap[i].size;
      assert umap[i].base <= v && v + (n - 1) <= umap[i].base + umap[i].size;
      WordReadable(s, root, umap, heap, v, n - 1);
      assert umap[i].base <= v + n - 1 && v + n - 1 + 1 <= umap[i].base + umap[i].size;
      Readable(s, root, umap, heap, v + n - 1);
    }
  }

  // The copy of the arguments. It fails exactly when the vector is not readable.
  method CopyArgs(vm: AddressSpaceTable, p: Process, a2: nat, a3: nat) returns (r: Option<seq<Option<seq<Byte>>>>)
    requires p.Valid(vm) && p.isUser && a3 < U64 && (ArgCount(a2) > 0 ==> a3 != 0)
    ensures r.Some? <==> ArgCount(a2) == 0 || ArgsReadable(vm.mem, p.cr3 / PAGE, p.umap, a3, ArgCount(a2))
    ensures r.Some? ==> |r.value| == ArgCount(a2)
                        && forall i | 0 <= i < |r.value| ::
                          r.value[i].Some? && GivesArg(vm.mem, p.cr3 / PAGE, a3 + 8 * i, r.value[i].value)
  {
    hide Inv, Layout, UserWord, UserByte, HoldsString, GivesArg, ArgReadable;
    var argc := ArgCount(a2);
    if argc == 0 { return Some([]); }
    var ok := p.UserPtrOk(vm, a3, 8 * argc);
    if !ok { return None; }
    var args: seq<Option<seq<Byte>>> := [];
    for i := 0 to argc
      invariant |args| == i
      invariant forall j | 0 <= j < i :: args[j].Some? && GivesArg(vm.mem, p.cr3 / PAGE, a3 + 8 * j, args[j].value)
      invariant forall j | 0 <= j < i :: ArgReadable(vm.mem, p.cr3 / PAGE, p.umap, a3 + 8 * j)
    {
      var s := CopyArg(vm, p, a3 + 8 * i);
      if s.None? { return None; }
      args := args + [s];
    }
    r := Some(args);
  }

  // One turn of that loop.
  method CopyArg(vm: AddressSpaceTable, p: Process, v: nat) returns (s: Option<seq<Byte>>)
    requires p.Valid(vm) && p.isUser
    requires exists i | 0 <= i < |p.umap| :: p.umap[i].base <= v && v + 8 <= p.umap[i].base + p.umap[i].size
    ensures s.Some? <==> ArgReadable(vm.mem, p.cr3 / PAGE, p.umap, v)
    ensures s.Some? ==> GivesArg(vm.mem, p.cr3 / PAGE, v, s.value)
  {
    hide Inv, Layout, UserByte, HoldsString;
    WordReadable(vm.S(), p.cr3 / PAGE, p.umap, p.umapHeap, v, 8);
    var q := UserWord(vm.mem, p.cr3 / PAGE, v).value;
    if q == 0 { return Some([]); }
    s := p.UserStr(vm, q, ARG_BUFFER);
  }

  // The path is already resolved to the file's contents 'img'. A vector that is not readable is refused before anything
  // is touched. Otherwise the program, if it starts, finds the strings that the caller's pointers gave, in the caller's
  // order.
  method SysExec(vm: AddressSpaceTable, caller: Process, p: Process?, kstack: bool, img: ElfImage, a2: nat, a3: nat,
          junk: seq<Word>)
    returns (code: int, start: Start, ghost g: Progress, ghost args: seq<Option<seq<Byte>>>)
    requires caller.Valid(vm) && caller.isUser && caller != p && a3 < U64 && (ArgCount(a2) > 0 ==> a3 != 0)
    requires |junk| == ARG_MAX && NoneWraps(img) && (p != null ==> p.SlotOk())
    requires (Acceptable(img) ==> Loadable(Segments(img)))
    modifies p, vm, vm.pmm, vm.pmm.bitmap
    ensures vm.Valid() && code in {0, -1}
    ensures ArgCount(a2) > 0 && !ArgsReadable(old(vm.mem), caller.cr3 / PAGE, caller.umap, a3, ArgCount(a2)) ==>
              code == -1 && vm.S() == old(vm.S())
    ensures code == 0 ==> |args| == ArgCount(a2)
                          && forall i | 0 <= i < |args| ::
                            args[i].Some? && GivesArg(old(vm.mem), caller.cr3 / PAGE, a3 + 8 * i, args[i].value)
    ensures code == 0 ==> p != null && Acceptable(img) && start == StartOf(Le(img, 24, 8), Segments(img), args)
    ensures code == 0 && args != [] && Enough(old(vm.S()), Segments(img)) ==>
              FindsArgv(vm.mem, p.cr3 / PAGE, start.argc, start.argv, args)
  {
    hide Inv, Layout, ArgsReadable, GivesArg, NoneWraps, Acceptable, Segments, Loadable, Enough, FindsArgv, StartOf, Le;
    hide Outcome, ReadsBack, KernelSlot;
    hide AdmittedArgv, CString;
    args, code, start := [], -1, Start(0, 0, 0, 0);
    g := Progress(vm.S(), 0, vm.S(), 0);
    var r := CopyArgs(vm, caller, a2, a3);
    if r.None? { return; }
    args := r.value;
    AllAdmitted(vm.mem, caller.cr3 / PAGE, a3, r.value);
    SlotsFree(vm.S(), caller.cr3 / PAGE, caller.umap, caller.umapHeap);
    code, start, g := Exec(vm, p, kstack, img, r.value, junk);
  }

  lemma AllAdmitted(mem: Memory, root: nat, a3: nat, args: seq<Option<seq<Byte>>>)
    requires |args| <= ARG_MAX
    requires forall i | 0 <= i < |args| :: args[i].Some? && GivesArg(mem, root, a3 + 8 * i, args[i].value)
    ensures args != [] ==> AdmittedArgv(args)
    ensures forall i | 0 <= i < |args| :: CString(args[i].value)
  {
    hide UserWord, UserByte;
    forall i | 0 <= i < |args|
      ensures CString(args[i].value) && |args[i].value| < ARG_BUFFER
    {
      Admitted(mem, root, a3 + 8 * i, args[i].value);
    }
  }

  lemma Admitted(mem: Memory, root: nat, v: nat, s: seq<Byte>)
    requires GivesArg(mem, root, v, s)
    ensures CString(s) && |s| < ARG_BUFFER
  {
    hide UserWord, UserByte, HoldsString;
    var q := UserWord(mem, root, v);
    if q.value != 0 {
      forall k | 0 <= k < |s|
        ensures s[k] != 0
      {
        StringByte(mem, root, q.value, s, k);
      }
    }
  }

  lemma SlotsFree(s: State, root: nat, umap: seq<Span>, heap: int)
    requires Layout(s, root, umap, heap)
    ensures s.ker < |s.mem| && UserSlotsFree(s)
  {
  }

  // What the caller itself would find is what is passed on: a vector as main gets it, of non-null pointers to strings
  // below 128 bytes, is copied string by string.
  lemma CopiedAsFound(mem: Memory, root: nat, a3: nat, argv: seq<Option<seq<Byte>>>, args: seq<Option<seq<Byte>>>)
    requires FindsArgv(mem, root, |argv|, a3, argv) && |args| == |argv|
    requires forall i | 0 <= i < |argv| :: UserWord(mem, root, a3 + 8 * i) != Some(0)
    requires forall i | 0 <= i < |args| :: args[i].Some? && GivesArg(mem, root, a3 + 8 * i, args[i].value)
    ensures args == argv
  {
    hide UserWord, UserByte, HoldsString;
    forall i | 0 <= i < |args|
      ensures args[i] == argv[i]
    {
      assert PointsTo(mem, root, a3 + 8 * i, argv[i].value);
      StringUnique(mem, root, UserWord(mem, root, a3 + 8 * i).value, args[i].value, argv[i].value);
    }
  }
}
