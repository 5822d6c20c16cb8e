// vfs_normalize: absolute paths from a working directory and a path, edited in place in the output buffer.
module PathNormalize {
  const NAME_MAX: nat := 256
  const TMP: nat := 511  // what the temporary buffer holds besides its terminator
  const COMP: nat := 31

  type Text = s: string | '\0' !in s

  // ---------------------------------------------------------------- the reference: a stack of components

  // What stands before the next slash.
  function Head(t: string): (c: string)
    ensures c <= t && '/' !in c && (|c| < |t| ==> t[|c|] == '/')
  {
    if t == "" || t[0] == '/' then "" else [t[0]] + Head(t[1..])
  }

  // The nonempty pieces between slashes.
  function Components(t: string): (cs: seq<string>)
    ensures forall i | 0 <= i < |cs| :: cs[i] != "" && '/' !in cs[i]
    decreases |t|
  {
    if t == "" then []
    else if t[0] == '/' then Components(t[1..])
    else [Head(t)] + Components(t[|Head(t)|..])
  }

  function Clip(c: string): string { if |c| > COMP then c[..COMP] else c }

  // Each component with a slash before it.
  function Joined(stack: seq<string>): string
  {
    if stack == [] then "" else Joined(stack[..|stack| - 1]) + "/" + stack[|stack| - 1]
  }

  function Render(stack: seq<string>): string { if stack == [] then "/" else Joined(stack) }

  datatype Outcome = Path(stack: seq<string>) | TooLong

  // "." does nothing, ".." drops the last component, anything else is added if the path still fits.
  function Step(stack: seq<string>, c: string, max: nat): Outcome
  {
    if c == "." then Path(stack)
    else if c == ".." then Path(if stack == [] then [] else stack[..|stack| - 1])
    else if |Joined(stack + [c])| >= max then TooLong
    else Path(stack + [c])
  }

  function Steps(cs: seq<string>, stack: seq<string>, max: nat): Outcome
  {
    if cs == [] then Path(stack)
    else match Step(stack, Clip(cs[0]), max)
      case TooLong => TooLong
      case Path(next) => Steps(cs[1..], next, max)
  }

  // The text that is normalised: the path itself when absolute, else after the working directory; cut to the buffer.
  function Source(cwd: Text, path: Text): (t: Text)
    requires path != ""
  {
    var t := if path[0] == '/' then path else (if cwd == "/" then "" else cwd) + "/" + path;
    if |t| > TMP then t[..TMP] else t
  }

  // ---------------------------------------------------------------- what the reference gives

  // A component that is a proper name.
  predicate Proper(c: string) { c != "" && '/' !in c && '\0' !in c && |c| <= COMP && c != "." && c != ".." }

  predicate AllProper(stack: seq<string>) { forall i | 0 <= i < |stack| :: Proper(stack[i]) }

  lemma {:induction false} ComponentsSnoc(a: string, c: string)
    requires c != "" && '/' !in c
    ensures Components(a + "/" + c) == Components(a) + [c]
    decreases |a|
  {
    var t := a + "/" + c;
    if a == "" {
      assert t[1..] == c;
      HeadAll(c);
      assert Components(c) == [c] + Components(c[|c|..]);
    } else if a[0] == '/' {
      ComponentsSnoc(a[1..], c);
      assert t[1..] == a[1..] + "/" + c;
    } else {
      HeadPrefix(a, "/" + c);
      assert a + ("/" + c) == t;
      var h := Head(a);
      ComponentsSnoc(a[|h|..], c);
      assert t[|h|..] == a[|h|..] + "/" + c;
      assert Components(t) == [h] + Components(t[|h|..]);
    }
  }

  lemma {:induction false} HeadAll(c: string)
    requires '/' !in c
    ensures Head(c) == c
  {
    if c != "" { HeadAll(c[1..]); }
  }

  lemma {:induction false} HeadPrefix(a: string, rest: string)
    requires a != "" && rest != "" && rest[0] == '/'
    ensures Head(a + rest) == Head(a)
  {
    if a[0] != '/' {
      assert (a + rest)[1..] == a[1..] + rest;
      if |a| > 1 { HeadPrefix(a[1..], rest); }
    }
  }

  // Reading a rendered path gives back its components.
  lemma {:induction false} RenderedComponents(stack: seq<string>)
    requires AllProper(stack)
    ensures Components(Joined(stack)) == stack && Components(Render(stack)) == stack
  {
    if stack != [] {
      RenderedComponents(stack[..|stack| - 1]);
      ComponentsSnoc(Joined(stack[..|stack| - 1]), stack[|stack| - 1]);
    }
  }

  // Components that are proper names, and fit, stay what they are.
  lemma {:induction false} StepsProper(cs: seq<string>, stack: seq<string>, max: nat)
    requires AllProper(cs) && |Joined(stack + cs)| < max
    ensures Steps(cs, stack, max) == Path(stack + cs)
    decreases |cs|
  {
    if cs == [] {
      assert stack + cs == stack;
    } else {
      assert stack + cs == (stack + [cs[0]]) + cs[1..];
      JoinedGrows(stack + [cs[0]], cs[1..]);
      StepsProper(cs[1..], stack + [cs[0]], max);
    }
  }

  lemma {:induction false} JoinedGrows(a: seq<string>, b: seq<string>)
    ensures |Joined(a)| <= |Joined(a + b)|
    decreases |b|
  {
    if b == [] {
      assert a + b == a;
    } else {
      assert (a + b)[..|a + b| - 1] == a + b[..|b| - 1];
      JoinedGrows(a, b[..|b| - 1]);
    }
  }

  // What the steps leave: proper names only, and a path below the limit.
  lemma {:induction false} StepsGood(cs: seq<string>, stack: seq<string>, max: nat)
    requires AllProper(stack) && |Render(stack)| < max
    requires forall i | 0 <= i < |cs| :: cs[i] != "" && '/' !in cs[i] && '\0' !in cs[i]
    ensures var o := Steps(cs, stack, max); o.Path? ==> AllProper(o.stack) && |Render(o.stack)| < max
    decreases |cs|
  {
    if cs != [] {
      var o := Step(stack, Clip(cs[0]), max);
      if o.Path? {
        StepGood(stack, Clip(cs[0]), max);
        StepsGood(cs[1..], o.stack, max);
      }
    }
  }

  lemma StepGood(stack: seq<string>, c: string, max: nat)
    requires AllProper(stack) && |Render(stack)| < max && c != "" && '/' !in c && '\0' !in c && |c| <= COMP
    ensures var o := Step(stack, c, max); o.Path? ==> AllProper(o.stack) && |Render(o.stack)| < max
  {
    if c == "." {
    } else if c == ".." {
      if stack != [] { DropGood(stack); }
    } else {
      hide Joined;
      assert Proper(c);
      assert Render(stack + [c]) == Joined(stack + [c]);
    }
  }

  lemma DropGood(stack: seq<string>)
    requires AllProper(stack) && stack != []
    ensures AllProper(stack[..|stack| - 1]) && |Render(stack[..|stack| - 1])| <= |Render(stack)|
  {
    var a := stack[..|stack| - 1];
    assert Joined(stack) == Joined(a) + "/" + stack[|stack| - 1];
    hide Joined;
    assert forall i | 0 <= i < |a| :: a[i] == stack[i];
  }

  lemma {:induction false} ComponentsText(t: string)
    requires '\0' !in t
    ensures forall i | 0 <= i < |Components(t)| :: '\0' !in Components(t)[i]
    decreases |t|
  {
    if t != "" && t[0] == '/' {
      ComponentsText(t[1..]);
    } else if t != "" {
      ComponentsText(t[|Head(t)|..]);
    }
  }

  // The normalised path, or nothing when it would not fit.
  function Normal(cwd: Text, path: Text, max: nat): Outcome
    requires path != ""
  {
    Steps(Components(Source(cwd, path)), [], max)
  }

  // A result is absolute, shorter than the buffer and made of proper names only.
  lemma NormalIsProper(cwd: Text, path: Text, max: nat)
    requires path != "" && max >= 2
    ensures var o := Normal(cwd, path, max);
            o.Path? ==>
              AllProper(o.stack) && |Render(o.stack)| < max && Render(o.stack)[0] == '/'
              && Components(Render(o.stack)) == o.stack
  {
    ComponentsText(Source(cwd, path));
    StepsGood(Components(Source(cwd, path)), [], max);
    var o := Normal(cwd, path, max);
    if o.Path? {
      RenderedComponents(o.stack);
      RenderAbsolute(o.stack);
    }
  }

  lemma {:induction false} RenderAbsolute(stack: seq<string>)
    ensures Render(stack) != "" && Render(stack)[0] == '/'
    ensures AllProper(stack) ==> '\0' !in Render(stack)
  {
    if |stack| == 1 {
      assert Joined(stack) == "" + "/" + stack[0];
    } else if |stack| > 1 {
      RenderAbsolute(stack[..|stack| - 1]);
    }
  }

  // Normalising a result again, from anywhere, changes nothing (buffers up to the size of the temporary one).
  lemma Idempotent(cwd: Text, path: Text, cwd2: Text, max: nat)
    requires path != "" && 2 <= max <= TMP + 1
    ensures var o := Normal(cwd, path, max);
            o.Path? ==> '\0' !in Render(o.stack) && Normal(cwd2, Render(o.stack), max) == o
  {
    NormalIsProper(cwd, path, max);
    var o := Normal(cwd, path, max);
    if o.Path? {
      RenderAbsolute(o.stack);
      assert [] + o.stack == o.stack;
      StepsProper(o.stack, [], max);
    }
  }

  // ---------------------------------------------------------------- what "." and ".." and the working directory do

  // A slash separates.
  lemma {:induction false} ComponentsJoin(a: string, b: string)
    ensures Components(a + "/" + b) == Components(a) + Components(b)
    decreases |a|
  {
    var t := a + "/" + b;
    if a == "" {
      assert t[1..] == b;
    } else if a[0] == '/' {
      ComponentsJoin(a[1..], b);
      assert t[1..] == a[1..] + "/" + b;
    } else {
      HeadPrefix(a, "/" + b);
      assert a + ("/" + b) == t;
      var h := Head(a);
      ComponentsJoin(a[|h|..], b);
      assert t[|h|..] == a[|h|..] + "/" + b;
      assert Components(t) == [h] + Components(t[|h|..]);
    }
  }

  lemma OneComponent(c: string)
    requires c != "" && '/' !in c
    ensures Components(c) == [c]
  {
    HeadAll(c);
  }

  lemma {:induction false} StepsThen(a: seq<string>, b: seq<string>, stack: seq<string>, max: nat)
    ensures Steps(a + b, stack, max) ==
            match Steps(a, stack, max)
            case TooLong => TooLong
            case Path(s) => Steps(b, s, max)
    decreases |a|
  {
    hide Step;
    if a == [] {
      assert a + b == b;
    } else {
      assert (a + b)[0] == a[0] && (a + b)[1..] == a[1..] + b;
      var o := Step(stack, Clip(a[0]), max);
      if o.Path? { StepsThen(a[1..], b, o.stack, max); }
    }
  }

  // The text when nothing is cut: what stands before the path depends on its first character only.
  function Before(cwd: Text, a: Text): Text
  {
    (if a == "" || a[0] == '/' then "" else (if cwd == "/" then "" else cwd) + "/") + a
  }

  lemma SourceIs(cwd: Text, a: Text, t: Text)
    requires |cwd| + |a| + |t| + 2 <= TMP
    ensures Source(cwd, a + "/" + t) == Before(cwd, a) + "/" + t
  {
  }

  // A name and the ".." that takes it back make no difference, unless the name does not fit.
  lemma TakenBack(cwd: Text, a: Text, c: Text, r: Text, max: nat)
    requires Proper(c) && |cwd| + |a| + |c| + |r| + 6 <= TMP
    ensures Normal(cwd, a + "/" + (c + "/../" + r), max)
            == if Normal(cwd, a + "/" + c, max) == TooLong then TooLong else Normal(cwd, a + "/" + r, max)
  {
    hide Components, Steps, Source, Before;
    SourceIs(cwd, a, c + "/../" + r);
    SourceIs(cwd, a, c);
    SourceIs(cwd, a, r);
    Between(Before(cwd, a), c, r);
    assert c + "/../" + r == c + "/" + (".." + "/" + r);
    StepsBetween(Components(Before(cwd, a)), c, Components(r), max);
  }

  // Nor does a ".", or a slash too many.
  lemma NothingAdded(cwd: Text, a: Text, r: Text, max: nat)
    requires |cwd| + |a| + |r| + 4 <= TMP
    ensures Normal(cwd, a + "/" + ("./" + r), max) == Normal(cwd, a + "/" + r, max)
    ensures Normal(cwd, a + "/" + ("/" + r), max) == Normal(cwd, a + "/" + r, max)
  {
    hide Components, Steps, Source, Before;
    SourceIs(cwd, a, "./" + r);
    SourceIs(cwd, a, "/" + r);
    SourceIs(cwd, a, r);
    Between(Before(cwd, a), "c", r);
    assert "./" + r == "." + "/" + r && "/" + r == "" + "/" + r;
    StepsBetween(Components(Before(cwd, a)), "c", Components(r), max);
  }

  lemma Between(x: string, c: string, r: string)
    requires c != "" && '/' !in c
    ensures Components(x + "/" + (c + "/" + (".." + "/" + r))) == Components(x) + ([c] + ([".."] + Components(r)))
    ensures Components(x + "/" + c) == Components(x) + [c] && Components(x + "/" + r) == Components(x) + Components(r)
    ensures Components(x + "/" + ("." + "/" + r)) == Components(x) + (["."] + Components(r))
    ensures Components(x + "/" + ("" + "/" + r)) == Components(x) + Components(r)
  {
    ComponentsJoin(x, c + "/" + (".." + "/" + r));
    ComponentsJoin(c, ".." + "/" + r);
    ComponentsJoin("..", r);
    ComponentsJoin(x, c);
    ComponentsJoin(x, r);
    ComponentsJoin(x, "." + "/" + r);
    ComponentsJoin(".", r);
    ComponentsJoin(x, "" + "/" + r);
    ComponentsJoin("", r);
    OneComponent(c);
    OneComponent("..");
    OneComponent(".");
    assert Components("") + Components(r) == Components(r);
    hide Components;
  }

  lemma StepsBetween(x: seq<string>, c: string, r: seq<string>, max: nat)
    requires Proper(c)
    ensures Steps(x + ([c] + ([".."] + r)), [], max)
            == if Steps(x + [c], [], max) == TooLong then TooLong else Steps(x + r, [], max)
    ensures Steps(x + (["."] + r), [], max) == Steps(x + r, [], max)
  {
    StepsThen(x, [c] + ([".."] + r), [], max);
    StepsThen(x, [c], [], max);
    StepsThen(x, r, [], max);
    StepsThen(x, ["."] + r, [], max);
    var o := Steps(x, [], max);
    if o.Path? {
      StepsThen([c], [".."] + r, o.stack, max);
      StepsThen([".."], r, o.stack + [c], max);
      StepsThen(["."], r, o.stack, max);
      OneStep(c, o.stack, max);
      OneStep("..", o.stack + [c], max);
      OneStep(".", o.stack, max);
      assert (o.stack + [c])[..|o.stack + [c]| - 1] == o.stack;
    }
  }

  lemma OneStep(c: string, stack: seq<string>, max: nat)
    ensures Steps([c], stack, max) == Step(stack, Clip(c), max)
  {
    hide Step;
    assert [c][1..] == [];
  }

  // A relative path is the one below the working directory.
  lemma RelativeIs(cwd: Text, path: Text, other: Text, max: nat)
    requires cwd != "" && cwd[0] == '/' && path != "" && path[0] != '/' && |cwd| + 1 + |path| <= TMP
    ensures Normal(cwd, path, max) == Normal(other, cwd + "/" + path, max)
  {
    assert Source(other, cwd + "/" + path) == cwd + "/" + path;
    ComponentsJoin(cwd, path);
    ComponentsJoin("", path);
    if cwd == "/" {
      assert cwd[1..] == "";
      assert Source(cwd, path) == "" + "/" + path;
    }
  }

  // Above the root there is nothing but the root.
  lemma RootIsTop(cwd: Text, r: Text, max: nat)
    requires |r| + 4 <= TMP
    ensures Normal(cwd, "/../" + r, max) == Normal(cwd, "/" + r, max)
  {
    ComponentsJoin("", ".." + "/" + r);
    ComponentsJoin("..", r);
    ComponentsJoin("", r);
    OneComponent("..");
    assert "/../" + r == "" + "/" + (".." + "/" + r) && "/" + r == "" + "/" + r;
    StepsThen([".."], Components(r), [], max);
    OneStep("..", [], max);
  }

  // ---------------------------------------------------------------- in place

  // The buffer holds s and its terminator.
  ghost predicate Holds(out: array<char>, s: string)
    reads out
  {
    |s| < out.Length && out[..|s|] == s && out[|s|] == '\0' && '\0' !in s
  }

  method StrLen(out: array<char>, ghost s: string) returns (n: nat)
    requires Holds(out, s)
    ensures n == |s|
  {
    n := 0;
    while out[n] != '\0'
      invariant n <= |s|
      decreases |s| - n
    {
      assert n < |s| ==> s[n] == out[..|s|][n];
      n := n + 1;
    }
  }

  // strrchr(out, '/').
  method LastSlash(out: array<char>, ghost s: string) returns (n: int)
    requires Holds(out, s) && '/' in s
    ensures 0 <= n < |s| && s[n] == '/' && forall k | n < k < |s| :: s[k] != '/'
  {
    var len := StrLen(out, s);
    n := len - 1;
    while n >= 0 && out[n] != '/'
      invariant -1 <= n < |s| && forall k | n < k < |s| :: s[k] != '/'
    {
      assert s[n] == out[..|s|][n];
      n := n - 1;
    }
    assert n >= 0 ==> s[n] == out[..|s|][n];
  }

  // The path held is a proper one and shorter than the buffer.
  ghost predicate HoldsPath(out: array<char>, stack: seq<string>)
    reads out
  {
    AllProper(stack) && Holds(out, Render(stack))
  }

  lemma LastSlashIs(stack: seq<string>, n: nat)
    requires AllProper(stack) && stack != [] && n < |Joined(stack)| && Joined(stack)[n] == '/'
    requires forall k | n < k < |Joined(stack)| :: Joined(stack)[k] != '/'
    ensures n == |Joined(stack[..|stack| - 1])| && Joined(stack)[..n] == Joined(stack[..|stack| - 1])
  {
    var a, c := Joined(stack[..|stack| - 1]), stack[|stack| - 1];
    var s := Joined(stack);
    assert s == a + "/" + c;
    assert s[|a|] == '/';
    assert forall k | |a| < k < |s| :: s[k] == c[k - |a| - 1];
  }

  // "..": the last component goes.
  method Up(out: array<char>, ghost stack: seq<string>)
    requires HoldsPath(out, stack) && out.Length >= 2
    modifies out
    ensures HoldsPath(out, if stack == [] then [] else stack[..|stack| - 1])
  {
    ghost var s := Render(stack);
    RenderAbsolute(stack);
    assert s[0] in s;
    var last := LastSlash(out, s);
    if stack != [] { LastSlashIs(stack, last); }
    ghost var next := if stack == [] then [] else stack[..|stack| - 1];
    RenderAbsolute(next);
    if last != 0 {
      out[last] := '\0';
      assert out[..last] == s[..last];
    } else {
      assert out[0] == s[0] by { assert out[..|s|][0] == s[0]; }
      out[1] := '\0';
      assert out[..1] == "/";
    }
  }

  // A component is added, unless the path would not fit.
  method Down(out: array<char>, comp: string, ghost stack: seq<string>) returns (ok: bool)
    requires HoldsPath(out, stack) && out.Length >= 2 && Proper(comp)
    modifies out
    ensures ok <==> |Joined(stack + [comp])| < out.Length
    ensures ok ==> HoldsPath(out, stack + [comp])
  {
    hide Joined, Render, Proper;
    ghost var s := Render(stack);
    RenderNext(stack, comp);
    var len := StrLen(out, s);
    if len > 1 {
      if len + 1 + |comp| >= out.Length { return false; }
      out[len] := '/';
      Copy(out, len + 1, comp);
      out[len + 1 + |comp|] := '\0';
      assert out[..len + 1 + |comp|] == s + "/" + comp;
    } else {
      if 1 + |comp| >= out.Length { return false; }
      assert out[..1] == "/";
      Copy(out, 1, comp);
      out[1 + |comp|] := '\0';
      assert out[..1 + |comp|] == "/" + comp;
    }
    return true;
  }

  lemma RenderNext(stack: seq<string>, comp: string)
    requires AllProper(stack) && Proper(comp)
    ensures |Render(stack)| > 1 ==> Render(stack + [comp]) == Render(stack) + "/" + comp
    ensures |Render(stack)| <= 1 ==> Render(stack) == "/" && Render(stack + [comp]) == "/" + comp
    ensures Joined(stack + [comp]) == Render(stack + [comp]) && '\0' !in Render(stack + [comp])
    ensures AllProper(stack + [comp])
    ensures |Render(stack + [comp])| == (if |Render(stack)| > 1 then |Render(stack)| + 1 else 1) + |comp|
  {
    var next := stack + [comp];
    assert next[..|stack|] == stack && Joined(next) == Joined(stack) + "/" + comp;
    RenderAbsolute(next);
  }

  method Copy(out: array<char>, at: nat, s: string)
    requires at + |s| <= out.Length
    modifies out
    ensures out[at..at + |s|] == s && out[..at] == old(out[..at]) && out[at + |s|..] == old(out[at + |s|..])
  {
    var i := 0;
    while i < |s|
      invariant i <= |s| && out[at..at + i] == s[..i] && out[..at] == old(out[..at])
      invariant out[at + |s|..] == old(out[at + |s|..])
    {
      out[at + i] := s[i];
      assert s[..i + 1] == s[..i] + [s[i]];
      i := i + 1;
    }
  }

  // vfs_normalize (no working directory counts as "/"): an empty path gives the working directory as it is, cut to the
  // buffer. Any other path fails exactly when the reference says it is too long, and otherwise the reference's path is
  // left in the buffer.
  method Normalize(cwd: Text, path: Text, out: array<char>) returns (ok: bool)
    requires out.Length >= 2
    modifies out
    ensures path == "" ==> ok && Holds(out, if |cwd| < out.Length then cwd else cwd[..out.Length - 1])
    ensures path != "" ==> (ok <==> Normal(cwd, path, out.Length).Path?)
    ensures path != "" && ok ==> HoldsPath(out, Normal(cwd, path, out.Length).stack)
  {
    if path == "" {
      Put(out, if |cwd| < out.Length then cwd else cwd[..out.Length - 1]);
      return true;
    }
    ok := Walk(cwd, path, out);
  }

  // The loop.
  method Walk(cwd: Text, path: Text, out: array<char>) returns (ok: bool)
    requires out.Length >= 2 && path != ""
    modifies out
    ensures ok <==> Normal(cwd, path, out.Length).Path?
    ensures ok ==> HoldsPath(out, Normal(cwd, path, out.Length).stack)
  {
    hide Source, Render, Joined, Head, Holds, Step, Steps, Components, Clip, Proper, Normal, HoldsPath;
    NormalIs(cwd, path, out.Length);
    var tmp := Source(cwd, path);
    StartRoot(out);
    ghost var stack: seq<string> := [];
    var p := 0;
    assert tmp[0..] == tmp;
    while p < |tmp|
      invariant p <= |tmp| && HoldsPath(out, stack)
      invariant Steps(Components(tmp[p..]), stack, out.Length) == Normal(cwd, path, out.Length)
    {
      if tmp[p] == '/' {
        SlashSkipped(tmp, p);
        p := p + 1;
      } else {
        var next, c := NextComponent(tmp, p);
        StepsOne(tmp, p, next, c, stack, out.Length);
        p := next;
        var ok1 := Apply(out, Clip(c), stack);
        if !ok1 { return false; }
        stack := Step(stack, Clip(c), out.Length).stack;
      }
    }
    NothingLeft(tmp, p, stack, out.Length);
    return true;
  }

  lemma SlashSkipped(tmp: Text, p: nat)
    requires p < |tmp| && tmp[p] == '/'
    ensures Components(tmp[p..]) == Components(tmp[p + 1..])
  {
    assert tmp[p..][1..] == tmp[p + 1..];
  }

  lemma NothingLeft(tmp: Text, p: nat, stack: seq<string>, max: nat)
    requires p == |tmp|
    ensures Steps(Components(tmp[p..]), stack, max) == Path(stack)
  {
    assert tmp[p..] == "";
  }

  method Put(out: array<char>, s: string)
    requires |s| < out.Length && '\0' !in s
    modifies out
    ensures Holds(out, s)
  {
    Copy(out, 0, s);
    out[|s|] := '\0';
    assert out[..|s|] == out[0..0 + |s|];
  }

  lemma NormalIs(cwd: Text, path: Text, max: nat)
    requires path != ""
    ensures Normal(cwd, path, max) == Steps(Components(Source(cwd, path)), [], max)
  {
  }

  method StartRoot(out: array<char>)
    requires out.Length >= 2
    modifies out
    ensures HoldsPath(out, [])
  {
    out[0], out[1] := '/', '\0';
    assert out[..1] == "/";
  }

  // One component, as the reference's step.
  method Apply(out: array<char>, comp: string, ghost stack: seq<string>) returns (ok: bool)
    requires HoldsPath(out, stack) && out.Length >= 2 && comp != "" && '/' !in comp && '\0' !in comp && |comp| <= COMP
    modifies out
    ensures ok <==> Step(stack, comp, out.Length).Path?
    ensures ok ==> HoldsPath(out, Step(stack, comp, out.Length).stack)
  {
    hide Render, Joined, Holds;
    if comp == "." { return true; }
    if comp == ".." {
      Up(out, stack);
      return true;
    }
    ok := Down(out, comp, stack);
  }

  lemma StepsOne(tmp: Text, p: nat, next: nat, c: string, stack: seq<string>, max: nat)
    requires p < next <= |tmp| && tmp[p] != '/' && c == tmp[p..next] == Head(tmp[p..])
    ensures Clip(c) != "" && '/' !in Clip(c) && '\0' !in Clip(c) && |Clip(c)| <= COMP
    ensures Steps(Components(tmp[p..]), stack, max) ==
            match Step(stack, Clip(c), max)
            case TooLong => TooLong
            case Path(s) => Steps(Components(tmp[next..]), s, max)
  {
    hide Step, Head;
    assert tmp[p..][|c|..] == tmp[next..];
    assert Components(tmp[p..]) == [c] + Components(tmp[next..]);
    assert ([c] + Components(tmp[next..]))[1..] == Components(tmp[next..]);
  }

  method NextComponent(tmp: Text, p: nat) returns (next: nat, c: string)
    requires p < |tmp| && tmp[p] != '/'
    ensures p < next <= |tmp| && c == tmp[p..next] == Head(tmp[p..])
  {
    next := p;
    while next < |tmp| && tmp[next] != '/'
      invariant p <= next <= |tmp| && '/' !in tmp[p..next]
    {
      assert tmp[p..next + 1] == tmp[p..next] + [tmp[next]];
      next := next + 1;
    }
    c := tmp[p..next];
    HeadAll(c);
    if next < |tmp| {
      HeadPrefix(c, tmp[next..]);
      assert c + tmp[next..] == tmp[p..];
    } else {
      assert tmp[p..] == c;
    }
  }
}
