// The in-memory file system: a table of 128 nodes keyed by absolute path that must stay a tree.
module RamFs {
  import opened PhysMemory

  const FILES: nat := 128
  const NAME_MAX: nat := 256
  const MAX_DATA: nat := 4194304

  datatype Node = Node(used: bool, path: string, dir: bool, data: seq<Byte>, capacity: nat)

  // What a path names; a file with its contents and the size of its buffer.
  datatype Entry = Nothing | Directory | File(data: seq<Byte>, room: nat)

  // The paths the callers pass: absolute and short enough (vfs_normalize gives only such).
  predicate Abs(path: string) { 0 < |path| < NAME_MAX && path[0] == '/' && '\0' !in path }

  // The node used for a path, or -1.
  function Find(ns: seq<Node>, path: string, i: nat): (n: int)
    requires i <= |ns|
    ensures n == -1 || (i <= n < |ns| && ns[n].used && ns[n].path == path)
    ensures n == -1 ==> forall k | i <= k < |ns| :: !(ns[k].used && ns[k].path == path)
    decreases |ns| - i
  {
    if i == |ns| then -1 else if ns[i].used && ns[i].path == path then i else Find(ns, path, i + 1)
  }

  function Look(ns: seq<Node>, path: string): Entry
  {
    if path == "/" then Directory
    else
      var n := Find(ns, path, 0);
      if n == -1 then Nothing else if ns[n].dir then Directory else File(ns[n].data, ns[n].capacity)
  }

  // The buffer a write of 'size' bytes leaves: the old one if it is large enough; otherwise twice that (256 bytes at
  // first), doubled until it suffices.
  function Grown(room: nat, size: nat): (c: nat)
    ensures c >= size
  {
    if room >= size then room else Doubled(if room != 0 then room * 2 else 256, size)
  }

  function Doubled(c: nat, size: nat): (d: nat)
    requires c > 0
    ensures d >= size
    decreases if c < size then size - c else 0
  {
    if c >= size then c else Doubled(c * 2, size)
  }

  // A file after its contents were replaced.
  function Stored(e: Entry, data: seq<Byte>): Entry
  {
    File(data, Grown(if e.File? then e.room else 0, |data|))
  }

  function DataOf(e: Entry): seq<Byte> { if e.File? then e.data else [] }

  function Unused(ns: seq<Node>, i: nat): (n: int)
    requires i <= |ns|
    ensures n == -1 || (i <= n < |ns| && !ns[n].used)
    ensures n == -1 ==> forall k | i <= k < |ns| :: ns[k].used
    decreases |ns| - i
  {
    if i == |ns| then -1 else if !ns[i].used then i else Unused(ns, i + 1)
  }

  function Count(ns: seq<Node>): nat
  {
    if ns == [] then 0 else Count(ns[..|ns| - 1]) + if ns[|ns| - 1].used then 1 else 0
  }

  // The position of the last slash.
  function LastSlash(path: string): (n: nat)
    requires path != "" && path[0] == '/'
    ensures n < |path| && path[n] == '/' && forall k | n < k < |path| :: path[k] != '/'
  {
    if path[|path| - 1] == '/' then |path| - 1 else LastSlash(path[..|path| - 1])
  }

  function Parent(path: string): string
    requires path != "" && path[0] == '/'
  {
    var n := LastSlash(path);
    if n == 0 then "/" else path[..n]
  }

  // Paths are unique, below the root and short; every parent is the root or an existing directory; sizes fit.
  ghost predicate Tree(ns: seq<Node>)
  {
    |ns| == FILES
    && (forall i, j | 0 <= i < j < FILES && ns[i].used && ns[j].used :: ns[i].path != ns[j].path)
    && (forall i | 0 <= i < FILES && ns[i].used :: NodeOk(ns, ns[i]))
  }

  ghost predicate NodeOk(ns: seq<Node>, n: Node)
  {
    NodeShape(n) && Look(ns, Parent(n.path)) == Directory
  }

  // Going up from any node one reaches the root: the parent's path is shorter, and a directory.
  lemma ParentShorter(path: string)
    requires Abs(path) && path != "/"
    ensures |Parent(path)| < |path| && Abs(Parent(path))
    ensures Parent(path) != "/" ==> Parent(path) + "/" <= path
  {
    var n := LastSlash(path);
    if n != 0 { assert path[..n] + "/" == path[..n + 1]; }
  }

  // So a file has no children.
  lemma FilesChildless(ns: seq<Node>, i: nat, j: nat)
    requires Tree(ns) && i < FILES && j < FILES && ns[i].used && ns[j].used && !ns[i].dir
    ensures Parent(ns[j].path) != ns[i].path
  {
    assert NodeOk(ns, ns[i]) && NodeOk(ns, ns[j]);
  }

  // From a path one climbs through directories to the root.
  ghost predicate Rooted(ns: seq<Node>, path: string)
    requires Abs(path)
    decreases |path|
  {
    if path == "/" then true
    else
      ParentShorter(path);
      Look(ns, Parent(path)) == Directory && Rooted(ns, Parent(path))
  }

  lemma {:induction false} AllRooted(ns: seq<Node>, path: string)
    requires Tree(ns) && Abs(path) && Look(ns, path) != Nothing
    ensures Rooted(ns, path)
    decreases |path|
  {
    if path != "/" {
      assert NodeOk(ns, ns[Find(ns, path, 0)]);
      ParentShorter(path);
      AllRooted(ns, Parent(path));
    }
  }

  // ---------------------------------------------------------------- changing one node

  lemma FindUnique(ns: seq<Node>, i: nat)
    requires |ns| == FILES && i < FILES && ns[i].used
    requires forall j, k | 0 <= j < k < FILES && ns[j].used && ns[k].used :: ns[j].path != ns[k].path
    ensures Find(ns, ns[i].path, 0) == i
  {
  }

  lemma {:induction false} CountSet(ns: seq<Node>, i: nat, n: Node)
    requires i < |ns|
    ensures Count(ns[i := n]) == Count(ns) + (if n.used then 1 else 0) - (if ns[i].used then 1 else 0)
  {
    var last := |ns| - 1;
    if i == last {
      assert ns[i := n][..last] == ns[..last];
    } else {
      CountSet(ns[..last], i, n);
      assert ns[i := n][..last] == ns[..last][i := n];
    }
  }

  // Where a path is found after slot i changed, when the old and new node there are the only ones of their paths.
  lemma FindSet(ns: seq<Node>, i: nat, n: Node, q: string)
    requires |ns| == FILES && i < FILES
    requires n.used ==> forall k | 0 <= k < FILES && k != i && ns[k].used :: ns[k].path != n.path
    requires ns[i].used ==> forall k | 0 <= k < FILES && k != i && ns[k].used :: ns[k].path != ns[i].path
    ensures Find(ns[i := n], q, 0) ==
            if n.used && n.path == q then i else if ns[i].used && ns[i].path == q then -1 else Find(ns, q, 0)
  {
    FindSetFrom(ns, i, n, q, 0);
  }

  lemma {:induction false} FindSetFrom(ns: seq<Node>, i: nat, n: Node, q: string, from: nat)
    requires |ns| == FILES && i < FILES && from <= FILES
    requires n.used ==> forall k | 0 <= k < FILES && k != i && ns[k].used :: ns[k].path != n.path
    requires ns[i].used ==> forall k | 0 <= k < FILES && k != i && ns[k].used :: ns[k].path != ns[i].path
    ensures Find(ns[i := n], q, from) ==
            if from <= i && n.used && n.path == q then i
            else if from <= i && ns[i].used && ns[i].path == q then -1 else Find(ns, q, from)
    decreases FILES - from
  {
    if from < FILES { FindSetFrom(ns, i, n, q, from + 1); }
  }

  // Slot i may get node n: a new path below a directory, the same path again, or nothing where nothing depends on it.
  ghost predicate MaySet(ns: seq<Node>, i: nat, n: Node)
  {
    Tree(ns) && i < FILES
    && (n.used ==> NodeShape(n) && Look(ns, Parent(n.path)) == Directory
                   && (if ns[i].used then n.path == ns[i].path && n.dir == ns[i].dir else Look(ns, n.path) == Nothing))
    && (!n.used && ns[i].used && ns[i].dir ==> !HasChildren(ns, ns[i].path))
  }

  // What every path names then.
  function LookSet(ns: seq<Node>, i: nat, n: Node, q: string): Entry
    requires i < |ns|
  {
    if n.used && q == n.path then (if n.dir then Directory else File(n.data, n.capacity))
    else if ns[i].used && q == ns[i].path then Nothing else Look(ns, q)
  }

  lemma SetLook(ns: seq<Node>, i: nat, n: Node, q: string)
    requires MaySet(ns, i, n)
    ensures Look(ns[i := n], q) == LookSet(ns, i, n, q)
  {
    if ns[i].used { assert NodeOk(ns, ns[i]); }
    FindSet(ns, i, n, q);
  }

  lemma SetNodeOk(ns: seq<Node>, i: nat, n: Node, k: nat)
    requires MaySet(ns, i, n) && k < FILES && ns[i := n][k].used
    ensures NodeOk(ns[i := n], ns[i := n][k])
  {
    var m := ns[i := n][k];
    SetLook(ns, i, n, Parent(m.path));
    if k == i {
      ParentShorter(n.path);
      if ns[i].used { assert NodeOk(ns, ns[i]); }
    } else {
      assert NodeOk(ns, ns[k]);
      ParentShorter(m.path);
      if ns[i].used {
        assert NodeOk(ns, ns[i]);
        if Parent(m.path) == ns[i].path {
          DirAt(ns, i);
          if !n.used { ChildSeen(ns, ns[i].path, k); }
        }
      }
    }
  }

  lemma DirAt(ns: seq<Node>, i: nat)
    requires Tree(ns) && i < FILES && ns[i].used && Look(ns, ns[i].path) == Directory
    ensures ns[i].dir
  {
    assert NodeOk(ns, ns[i]);
    FindUnique(ns, i);
  }

  lemma SetTree(ns: seq<Node>, i: nat, n: Node)
    requires MaySet(ns, i, n)
    ensures Tree(ns[i := n])
  {
    var ns' := ns[i := n];
    hide NodeOk, NodeShape, HasChildren;
    assert n.used && !ns[i].used ==> Find(ns, n.path, 0) == -1;
    assert forall a, b | 0 <= a < b < FILES && ns'[a].used && ns'[b].used :: ns'[a].path != ns'[b].path;
    forall k | 0 <= k < FILES && ns'[k].used
      ensures NodeOk(ns', ns'[k])
    {
      SetNodeOk(ns, i, n, k);
    }
  }

  ghost predicate NodeShape(n: Node)
  {
    Abs(n.path) && n.path != "/" && |n.data| <= n.capacity && |n.data| <= MAX_DATA && (n.dir ==> n.data == [])
  }

  // fs_has_children: some node's path continues this one with a slash.
  ghost predicate HasChildren(ns: seq<Node>, path: string)
  {
    exists i :: 0 <= i < |ns| && ns[i].used && Under(path, ns[i].path)
  }

  predicate Under(path: string, p: string) { |p| > |path| && p[..|path|] == path && p[|path|] == '/' }

  lemma ChildSeen(ns: seq<Node>, path: string, k: nat)
    requires k < |ns| && ns[k].used && Abs(ns[k].path) && ns[k].path != "/" && Parent(ns[k].path) == path && path != "/"
    ensures HasChildren(ns, path)
  {
    ParentShorter(ns[k].path);
    assert path + "/" <= ns[k].path;
    assert (path + "/")[|path|] == '/';
  }

  lemma Named(ns: seq<Node>, i: nat, n: Node)
    requires MaySet(ns, i, n) && (n.used || ns[i].used)
    ensures LookSet(ns, i, n, if n.used then n.path else ns[i].path)
            == if !n.used then Nothing else if n.dir then Directory else File(n.data, n.capacity)
  {
  }

  // Exactly one path changed its meaning.
  ghost predicate Changed(ns: seq<Node>, ns': seq<Node>, path: string, e: Entry)
  {
    forall q :: Look(ns', q) == if q == path then e else Look(ns, q)
  }

  lemma MakeChanged(ns: seq<Node>, ns': seq<Node>, path: string, e: Entry)
    requires forall q :: Look(ns', q) == if q == path then e else Look(ns, q)
    ensures Changed(ns, ns', path, e)
  {
  }

  lemma SetChanged(ns: seq<Node>, i: nat, n: Node)
    requires MaySet(ns, i, n) && (n.used || ns[i].used)
    ensures Changed(ns, ns[i := n], if n.used then n.path else ns[i].path,
                    if !n.used then Nothing else if n.dir then Directory else File(n.data, n.capacity))
  {
    hide Tree, NodeShape, HasChildren;
    MaySetIndex(ns, i, n);
    var path := if n.used then n.path else ns[i].path;
    var e := if !n.used then Nothing else if n.dir then Directory else File(n.data, n.capacity);
    forall q
      ensures Look(ns[i := n], q) == if q == path then e else Look(ns, q)
    {
      SetLook(ns, i, n, q);
      if q == path { Named(ns, i, n); }
    }
    MakeChanged(ns, ns[i := n], path, e);
  }

  ghost predicate Creatable(ns: seq<Node>, path: string)
    requires Abs(path)
  {
    Look(ns, path) == Nothing && Unused(ns, 0) != -1 && Look(ns, Parent(path)) == Directory
  }

  // ---------------------------------------------------------------- runs

  datatype Op =
    | CreateOp(path: string, dir: bool)
    | WriteOp(path: string, data: seq<Byte>, grow: bool)
    | ReadOp(path: string, max: nat)
    | RemoveOp(path: string)
    | CopyOp(src: string, dst: string, grow: bool)
    | MoveOp(src: string, dst: string, grow: bool)

  datatype Answer = Error | Done | Bytes(data: seq<Byte>)

  // A call, whether it succeeded, and whether it failed after making its target (a copy out of memory).
  datatype Event = Event(op: Op, ok: bool, made: bool)

  predicate PathsOk(op: Op)
  {
    match op
    case CreateOp(path, _) => Abs(path)
    case CopyOp(_, dst, _) => Abs(dst)
    case MoveOp(_, dst, _) => Abs(dst)
    case _ => true
  }

  // The calls that change what path q names.
  predicate Touches(e: Event, q: string)
  {
    match e.op
    case CreateOp(path, _) => e.ok && q == path
    case WriteOp(path, _, _) => e.ok && q == path
    case ReadOp(_, _) => false
    case RemoveOp(path) => e.ok && q == path
    case CopyOp(_, dst, _) => (e.ok || e.made) && q == dst
    case MoveOp(src, dst, _) => (e.ok && (q == src || q == dst)) || (e.made && q == dst)
  }

  // What a path names after a run, by the last call that touched it.
  function Contents(h: seq<Event>, q: string): Entry
  {
    if h == [] then (if q == "/" then Directory else Nothing)
    else
      var e, before := h[|h| - 1], h[..|h| - 1];
      if !Touches(e, q) then Contents(before, q)
      else match e.op
        case CreateOp(_, dir) => if dir then Directory else File([], 0)
        case WriteOp(_, data, _) => Stored(Contents(before, q), data)
        case CopyOp(src, _, _) => if e.ok then Stored(File([], 0), DataOf(Contents(before, src))) else File([], 0)
        case MoveOp(src, _, _) =>
          if e.ok && q == src then Nothing
          else if e.ok then Stored(File([], 0), DataOf(Contents(before, src))) else File([], 0)
        case _ => Nothing
  }

  // The nodes in use after a run.
  function InUse(h: seq<Event>): int
  {
    if h == [] then 0
    else
      var e := h[|h| - 1];
      InUse(h[..|h| - 1]) + match e.op
                            case CreateOp(_, _) => if e.ok then 1 else 0
                            case RemoveOp(_) => if e.ok then -1 else 0
                            case CopyOp(_, _, _) => if e.ok || e.made then 1 else 0
                            case MoveOp(_, _, _) => if e.made then 1 else 0
                            case _ => 0
  }

  // A new path below a directory, with a node to spare.
  ghost predicate MayCreate(h: seq<Event>, path: string)
    requires Abs(path)
  {
    Contents(h, path) == Nothing && Contents(h, Parent(path)) == Directory && InUse(h) < FILES
  }

  // Exactly when a call succeeds after the calls in h; a write without fresh memory when the old buffer suffices.
  ghost predicate OutcomeRight(h: seq<Event>, e: Event)
    requires PathsOk(e.op)
  {
    match e.op
    case CreateOp(path, _) => (e.ok <==> MayCreate(h, path)) && !e.made
    case WriteOp(path, data, grow) =>
      var c := Contents(h, path);
      (e.ok <==> c.File? && |data| <= MAX_DATA && (grow || |data| <= c.room)) && !e.made
    case ReadOp(path, _) => (e.ok <==> Contents(h, path).File?) && !e.made
    case RemoveOp(path) =>
      (e.ok <==> path != "/" && Contents(h, path) != Nothing
                 && !(Contents(h, path) == Directory && exists q :: Under(path, q) && Contents(h, q) != Nothing))
                 && !e.made
    case CopyOp(src, dst, grow) =>
      var may := Contents(h, src).File? && MayCreate(h, dst);
      (e.ok <==> may && (grow || Contents(h, src).data == [])) && (e.made <==> may && !e.ok)
    case MoveOp(src, dst, grow) =>
      var may := Contents(h, src).File? && MayCreate(h, dst);
      (e.ok <==> may && (grow || Contents(h, src).data == [])) && (e.made <==> may && !e.ok)
  }

  ghost predicate Agrees(ns: seq<Node>, h: seq<Event>)
  {
    Count(ns) == InUse(h) && forall q :: Look(ns, q) == Contents(h, q)
  }

  lemma {:induction false} AllUsed(ns: seq<Node>)
    ensures Count(ns) <= |ns|
    ensures Count(ns) < |ns| <==> exists i :: 0 <= i < |ns| && !ns[i].used
  {
    if ns != [] {
      var l := |ns| - 1;
      AllUsed(ns[..l]);
      if i :| 0 <= i < l && !ns[i].used { assert !ns[..l][i].used; }
    }
  }

  lemma FreeNodeIff(ns: seq<Node>)
    requires |ns| == FILES
    ensures Unused(ns, 0) != -1 <==> Count(ns) < FILES
  {
    AllUsed(ns);
  }

  // A node below a path is a path below it that names something.
  lemma ChildrenAre(ns: seq<Node>, path: string)
    requires Tree(ns) && path != "/" && path != ""
    ensures HasChildren(ns, path) <==> exists q :: Under(path, q) && Look(ns, q) != Nothing
  {
    if HasChildren(ns, path) {
      var i :| 0 <= i < |ns| && ns[i].used && Under(path, ns[i].path);
      TreeNode(ns, i);
      assert Look(ns, ns[i].path) != Nothing;
    }
    if q :| Under(path, q) && Look(ns, q) != Nothing {
      assert ns[Find(ns, q, 0)].path == q;
    }
  }

  lemma NoNode(ns: seq<Node>)
    requires Tree(ns)
    ensures Look(ns, "") == Nothing
  {
    forall k | 0 <= k < |ns| && ns[k].used
      ensures ns[k].path != ""
    {
      assert NodeOk(ns, ns[k]);
    }
  }

  lemma MayCreateIs(ns: seq<Node>, h: seq<Event>, path: string)
    requires Tree(ns) && Agrees(ns, h) && Abs(path)
    ensures Creatable(ns, path) <==> MayCreate(h, path)
  {
    FreeNodeIff(ns);
    hide Tree, Unused, Find, Count;
  }

  // A file holds what the last successful write put there, as long as nothing has touched it since.
  lemma {:induction false} LastWriteStays(h: seq<Event>, i: nat, path: string, data: seq<Byte>, grow: bool)
    requires i < |h| && h[i] == Event(WriteOp(path, data, grow), true, false)
    requires forall k | i < k < |h| :: !Touches(h[k], path)
    ensures Contents(h, path).File? && Contents(h, path).data == data
    decreases |h|
  {
    if i < |h| - 1 {
      assert forall k | i < k < |h| - 1 :: h[..|h| - 1][k] == h[k];
      LastWriteStays(h[..|h| - 1], i, path, data, grow);
    }
  }

  // A read gives the bytes of the file, cut to the buffer.
  function ReadAnswer(e: Entry, max: nat): Answer
  {
    if e.File? then Bytes(e.data[..if |e.data| > max then max else |e.data|]) else Error
  }

  // What a call must answer after the calls in h.
  function AnswerTo(e: Event, h: seq<Event>): Answer
  {
    if e.op.ReadOp? then ReadAnswer(Contents(h, e.op.path), e.op.max) else if e.ok then Done else Error
  }

  // The i-th call succeeded when it had to and answered what it had to.
  ghost predicate AnswersRight(h: seq<Event>, answers: seq<Answer>, i: nat)
    requires i < |h| == |answers|
  {
    PathsOk(h[i].op) && OutcomeRight(h[..i], h[i]) && answers[i] == AnswerTo(h[i], h[..i])
  }

  class Fs {
    const nodes: array<Node>
    var count: nat

    ghost predicate Valid()
      reads this, nodes
    {
      Tree(nodes[..]) && count == Count(nodes[..])
    }

    // fs_init.
    constructor ()
      ensures Valid() && count == 0 && fresh(nodes)
      ensures forall q :: Look(nodes[..], q) == if q == "/" then Directory else Nothing
    {
      nodes := new Node[FILES](_ => Node(false, "", false, [], 0));
      count := 0;
      new;
      NoneUsed(nodes[..]);
    }

    // fs_get.
    method Get(path: string) returns (n: int)
      requires nodes.Length == FILES
      ensures n == Find(nodes[..], path, 0)
    {
      var i := 0;
      while i < FILES
        invariant i <= FILES && Find(nodes[..], path, 0) == Find(nodes[..], path, i)
      {
        if nodes[i].used && nodes[i].path == path { return i; }
        i := i + 1;
      }
      return -1;
    }

    method IsDir(path: string) returns (d: bool)
      requires nodes.Length == FILES
      ensures d <==> Look(nodes[..], path) == Directory
    {
      if path == "/" { return true; }
      var n := Get(path);
      return n != -1 && nodes[n].dir;
    }

    method FreeNode() returns (n: int)
      requires nodes.Length == FILES
      ensures n == Unused(nodes[..], 0)
    {
      var i := 0;
      while i < FILES
        invariant i <= FILES && Unused(nodes[..], 0) == Unused(nodes[..], i)
      {
        if !nodes[i].used { return i; }
        i := i + 1;
      }
      return -1;
    }

    method HasChild(path: string) returns (c: bool)
      requires nodes.Length == FILES
      ensures c <==> HasChildren(nodes[..], path)
    {
      var i := 0;
      while i < FILES
        invariant i <= FILES && forall k | 0 <= k < i :: !(nodes[k].used && Under(path, nodes[k].path))
      {
        if nodes[i].used && Under(path, nodes[i].path) {
          assert nodes[..][i] == nodes[i];
          return true;
        }
        i := i + 1;
      }
      return false;
    }

    method Put(i: nat, n: Node)
      requires Valid() && MaySet(nodes[..], i, n)
      modifies this`count, nodes
      ensures Valid() && nodes[..] == old(nodes[..])[i := n]
      ensures count == old(count) + (if n.used then 1 else 0) - (if old(nodes[..])[i].used then 1 else 0)
    {
      hide Tree, MaySet, Count;
      ghost var ns := nodes[..];
      assert |ns| == FILES by { assert Tree(ns); TreeSize(ns); }
      MaySetIndex(ns, i, n);
      SetTree(ns, i, n);
      CountSet(ns, i, n);
      if n.used && !nodes[i].used { count := count + 1; }
      if !n.used && nodes[i].used { CountPositive(ns, i); }
      if !n.used && nodes[i].used && count > 0 { count := count - 1; }
      nodes[i] := n;
      assert nodes[..] == ns[i := n];
    }

    // fs_create: succeeds exactly when the path is new, a node is free and the parent is a directory.
    method Create(path: string, dir: bool) returns (ok: bool)
      requires Valid() && Abs(path)
      modifies this`count, nodes
      ensures Valid() && (ok <==> Creatable(old(nodes[..]), path))
      ensures ok ==> Changed(old(nodes[..]), nodes[..], path, if dir then Directory else File([], 0))
      ensures !ok ==> nodes[..] == old(nodes[..])
      ensures count == old(count) + if ok then 1 else 0
      ensures ok ==> var i := Unused(old(nodes[..]), 0); nodes[..] == old(nodes[..])[i := Node(true, path, dir, [], 0)]
    {
      hide Tree, Find, Unused, LastSlash, Count;
      TreeSize(nodes[..]);
      if path == "/" { return false; }
      var existing := Get(path);
      if existing != -1 { return false; }
      var n := FreeNode();
      if n == -1 { return false; }
      var slash := SlashOf(path);
      var parent := IsDir(if slash != 0 then path[..slash] else "/");
      if !parent { return false; }
      SetChanged(nodes[..], n, Node(true, path, dir, [], 0));
      Put(n, Node(true, path, dir, [], 0));
      return true;
    }

    // fs_write; grow: kmalloc succeeds. The whole contents are replaced, in the old buffer if it is large enough.
    method Write(path: string, data: seq<Byte>, grow: bool) returns (ok: bool)
      requires Valid()
      modifies this`count, nodes
      ensures Valid()
      ensures ok
              <==> |data| <= MAX_DATA && Look(old(nodes[..]), path).File?
                   && (grow || |data| <= Look(old(nodes[..]), path).room)
      ensures ok ==> Changed(old(nodes[..]), nodes[..], path, Stored(Look(old(nodes[..]), path), data))
      ensures !ok ==> nodes[..] == old(nodes[..])
      ensures count == old(count)
    {
      hide Tree, Find, Count;
      TreeSize(nodes[..]);
      if |data| > MAX_DATA { return false; }
      var n := Get(path);
      if n == -1 || nodes[n].dir { return false; }
      TreeNode(nodes[..], n);
      var cap := nodes[n].capacity;
      if cap < |data| {
        cap := NewCapacity(cap, |data|);
        if !grow { return false; }
      }
      var m := nodes[n].(data := data, capacity := cap);
      SetChanged(nodes[..], n, m);
      Put(n, m);
      return true;
    }

    // fs_read: the contents cut to max.
    method Read(path: string, max: nat) returns (ok: bool, data: seq<Byte>)
      requires Valid()
      ensures ok <==> Look(nodes[..], path).File?
      ensures ok ==> var d := Look(nodes[..], path).data; data == d[..if |d| > max then max else |d|]
    {
      hide Tree, Find, Count;
      TreeSize(nodes[..]);
      var n := Get(path);
      if n == -1 || nodes[n].dir {
        assert !Look(nodes[..], path).File?;
        return false, [];
      }
      TreeNode(nodes[..], n);
      var to := |nodes[n].data|;
      if to > max { to := max; }
      return true, nodes[n].data[..to];
    }

    // fs_remove: anything but the root and a directory that still has something below it.
    method Remove(path: string) returns (ok: bool)
      requires Valid()
      modifies this`count, nodes
      ensures Valid()
      ensures ok <==> var e := Look(old(nodes[..]), path);
                      path != "/" && e != Nothing && !(e == Directory && HasChildren(old(nodes[..]), path))
      ensures ok ==> Changed(old(nodes[..]), nodes[..], path, Nothing)
      ensures !ok ==> nodes[..] == old(nodes[..])
      ensures count == old(count) - if ok then 1 else 0
    {
      hide Tree, Find, Count, HasChildren;
      TreeSize(nodes[..]);
      if path == "/" { return false; }
      var n := Get(path);
      if n == -1 { return false; }
      if nodes[n].dir {
        var below := HasChild(path);
        if below { return false; }
      }
      TreeNode(nodes[..], n);
      var m := nodes[n].(used := false, data := [], capacity := 0);
      SetChanged(nodes[..], n, m);
      Put(n, m);
      return true;
    }

    // fs_copy: a new file with the same contents; when memory runs out the new file is left empty.
    method Copy(src: string, dst: string, grow: bool) returns (ok: bool)
      requires Valid() && Abs(dst)
      modifies this`count, nodes
      ensures Valid()
      ensures ok <==> var e := Look(old(nodes[..]), src);
                      e.File? && Creatable(old(nodes[..]), dst)
                      && (grow || e.data == [])
      ensures ok ==>
                Changed(old(nodes[..]), nodes[..], dst, Stored(File([], 0), Look(old(nodes[..]), src).data))
                && count == old(count) + 1
      ensures !ok ==> if Look(old(nodes[..]), src).File? && Creatable(old(nodes[..]), dst)
                      then Changed(old(nodes[..]), nodes[..], dst, File([], 0)) && count == old(count) + 1
                      else nodes[..] == old(nodes[..]) && count == old(count)
    {
      hide Tree, Find, Unused, LastSlash, Count;
      TreeSize(nodes[..]);
      var s := Get(src);
      if s == -1 || nodes[s].dir { return false; }
      ghost var e := Look(nodes[..], src);
      TreeNode(nodes[..], s);
      assert src != "/" && e == File(nodes[s].data, nodes[s].capacity);
      var data := nodes[s].data;
      var d := Get(dst);
      if d != -1 { return false; }
      var made := Create(dst, false);
      if !made { return false; }
      TreeNode(nodes[..], Unused(old(nodes[..]), 0));
      ok := Write(dst, data, grow);
    }

    // fs_move.
    method Move(src: string, dst: string, grow: bool) returns (ok: bool)
      requires Valid() && Abs(dst)
      modifies this`count, nodes
      ensures Valid()
      ensures ok <==> var e := Look(old(nodes[..]), src);
                      e.File? && Creatable(old(nodes[..]), dst) && (grow || e.data == [])
      ensures ok ==> forall q :: Look(nodes[..], q) ==
                       if q == src then Nothing
                       else if q == dst then Stored(File([], 0), Look(old(nodes[..]), src).data)
                       else Look(old(nodes[..]), q)
      ensures ok ==> count == old(count)
      ensures !ok ==> if Look(old(nodes[..]), src).File? && Creatable(old(nodes[..]), dst)
                      then Changed(old(nodes[..]), nodes[..], dst, File([], 0)) && count == old(count) + 1
                      else nodes[..] == old(nodes[..]) && count == old(count)
    {
      hide Tree, Find, Unused, LastSlash, Count, HasChildren;
      ghost var ns0 := nodes[..];
      var copied := Copy(src, dst, grow);
      if !copied { return false; }
      ghost var ns1 := nodes[..];
      assert src != dst && Look(ns1, src) == Look(ns0, src);
      ok := Remove(src);
    }
  }

  // One call.
  method Serve(fs: Fs, op: Op, ghost h: seq<Event>) returns (a: Answer, ghost e: Event)
    requires fs.Valid() && PathsOk(op) && Agrees(fs.nodes[..], h)
    modifies fs`count, fs.nodes
    ensures fs.Valid() && e.op == op && Agrees(fs.nodes[..], h + [e])
    ensures OutcomeRight(h, e) && a == AnswerTo(e, h)
  {
    hide Tree, Find, Unused, LastSlash, Count, HasChildren, Creatable, MayCreate, Under;
    ghost var ns := fs.nodes[..];
    match op {
      case CreateOp(path, _) => MayCreateIs(ns, h, path);
      case RemoveOp(path) => if path != "/" && path != "" { ChildrenAre(ns, path); }
      case CopyOp(_, dst, _) => MayCreateIs(ns, h, dst);
      case MoveOp(_, dst, _) => MayCreateIs(ns, h, dst);
      case _ =>
    }
    ghost var before := fs.count;
    NoNode(ns);
    var ok, data := false, [];
    match op {
      case CreateOp(path, dir) => ok := fs.Create(path, dir);
      case WriteOp(path, d, grow) => ok := fs.Write(path, d, grow);
      case ReadOp(path, max) => ok, data := fs.Read(path, max);
      case RemoveOp(path) => ok := fs.Remove(path);
      case CopyOp(src, dst, grow) => ok := fs.Copy(src, dst, grow);
      case MoveOp(src, dst, grow) => ok := fs.Move(src, dst, grow);
    }
    e := Event(op, ok, !ok && fs.count != before);
    assert (h + [e])[..|h|] == h;
    a := if op.ReadOp? && ok then Bytes(data) else if ok then Done else Error;
  }

  // Any sequence of calls on a new file system: it stays a tree, every path names what the last call that touched
  // it left there, and every read gives that file's bytes, cut to the buffer.
  method Session(ops: seq<Op>) returns (fs: Fs, answers: seq<Answer>, ghost h: seq<Event>)
    requires forall i | 0 <= i < |ops| :: PathsOk(ops[i])
    ensures fresh(fs) && fresh(fs.nodes) && fs.Valid() && Agrees(fs.nodes[..], h)
    ensures |answers| == |h| == |ops| && forall i | 0 <= i < |ops| :: h[i].op == ops[i] && AnswersRight(h, answers, i)
  {
    hide Tree, Look, Contents, Count;
    fs := new Fs();
    answers, h := [], [];
    AgreesFirst(fs.nodes[..]);
    for n := 0 to |ops|
      invariant fs.Valid() && Agrees(fs.nodes[..], h) && |answers| == |h| == n
      invariant forall i | 0 <= i < n :: h[i].op == ops[i] && AnswersRight(h, answers, i)
    {
      var a;
      ghost var e;
      a, e := Serve(fs, ops[n], h);
      AnswersMore(h, answers, e, a);
      answers, h := answers + [a], h + [e];
    }
  }

  lemma AgreesFirst(ns: seq<Node>)
    requires Count(ns) == 0 && forall q :: Look(ns, q) == if q == "/" then Directory else Nothing
    ensures Agrees(ns, [])
  {
  }

  lemma AnswersMore(h: seq<Event>, answers: seq<Answer>, e: Event, a: Answer)
    requires |h| == |answers| && forall i | 0 <= i < |h| :: AnswersRight(h, answers, i)
    requires PathsOk(e.op) && OutcomeRight(h, e) && a == AnswerTo(e, h)
    ensures forall i | 0 <= i < |h| + 1 :: AnswersRight(h + [e], answers + [a], i)
  {
    hide AnswerTo, OutcomeRight, PathsOk;
    forall i | 0 <= i < |h| + 1
      ensures AnswersRight(h + [e], answers + [a], i)
    {
      assert (h + [e])[..i] == h[..i];
      if i < |h| { assert AnswersRight(h, answers, i); } else { assert h[..i] == h; }
    }
  }

  lemma {:induction false} NoneUsed(ns: seq<Node>)
    requires forall i | 0 <= i < |ns| :: !ns[i].used
    ensures Count(ns) == 0
  {
    if ns != [] { NoneUsed(ns[..|ns| - 1]); }
  }

  lemma {:induction false} CountPositive(ns: seq<Node>, i: nat)
    requires i < |ns| && ns[i].used
    ensures Count(ns) > 0
  {
    if i < |ns| - 1 { CountPositive(ns[..|ns| - 1], i); }
  }

  lemma TreeSize(ns: seq<Node>)
    requires Tree(ns)
    ensures |ns| == FILES
  {
  }

  lemma MaySetIndex(ns: seq<Node>, i: nat, n: Node)
    requires MaySet(ns, i, n)
    ensures |ns| == FILES && i < FILES
  {
  }

  lemma TreeNode(ns: seq<Node>, i: nat)
    requires Tree(ns) && i < FILES && ns[i].used
    ensures NodeShape(ns[i]) && Look(ns, Parent(ns[i].path)) == Directory && Find(ns, ns[i].path, 0) == i
  {
    assert NodeOk(ns, ns[i]);
    FindUnique(ns, i);
  }

  // The capacity doubles, from 256, until it suffices.
  method NewCapacity(cap: nat, size: nat) returns (c: nat)
    requires cap < size
    ensures c == Grown(cap, size)
  {
    c := if cap != 0 then cap * 2 else 256;
    while c < size
      invariant c > 0 && Doubled(c, size) == Grown(cap, size)
      decreases size - c
    {
      c := c * 2;
    }
  }

  method SlashOf(path: string) returns (n: nat)
    requires path != "" && path[0] == '/'
    ensures n == LastSlash(path)
  {
    n := 0;
    var p := 1;
    while p < |path|
      invariant n < p <= |path| && path[n] == '/' && forall k | n < k < p :: path[k] != '/'
    {
      if path[p] == '/' { n := p; }
      p := p + 1;
    }
    var m := LastSlash(path);
    assert path[m] == '/';
  }
}
