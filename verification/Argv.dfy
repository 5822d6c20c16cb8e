// The argv layout proc_enter_user builds in the top page of the user stack: the pointer array against the
// top, the strings below it, going down.
module Argv {
  import opened PhysMemory
  import opened PageTables

  const ARG_MAX: nat := 16
  const ARG_BUFFER: nat := 128  // per-string buffer of SYS_EXEC

  ghost predicate CString(s: seq<Byte>)
  {
    forall k | 0 <= k < |s| :: s[k] != 0
  }

  // Bytes taken by the strings i.. with their terminators; a null pointer takes none.
  function Need(argv: seq<Option<seq<Byte>>>, i: nat): nat
    decreases |argv| - i
  {
    if i >= |argv| then 0
    else (match argv[i] case None => 0 case Some(s) => |s| + 1) + Need(argv, i + 1)
  }

  // Page offset of the pointer array.
  function ArrayOffset(argc: nat): nat
    requires argc <= ARG_MAX
  {
    PAGE - (argc + 1) * 8
  }

  // Argument i finds room in the zone.
  predicate Fits(argv: seq<Option<seq<Byte>>>, i: nat)
    requires |argv| <= ARG_MAX && i < |argv|
  {
    argv[i].Some? && Need(argv, i) <= ArrayOffset(|argv|)
  }

  function StringOffset(argv: seq<Option<seq<Byte>>>, i: nat): nat
    requires |argv| <= ARG_MAX && i < |argv| && Fits(argv, i)
  {
    ArrayOffset(|argv|) - Need(argv, i)
  }

  // String s and its terminator at offset o of the page.
  ghost predicate StringAt(p: Page, o: nat, s: seq<Byte>)
  {
    o + |s| < PAGE && p[o..o + |s|] == s && p[o + |s|] == 0
  }

  lemma {:induction false} NeedMonotone(argv: seq<Option<seq<Byte>>>, i: nat, j: nat)
    requires i <= j
    ensures Need(argv, i) >= Need(argv, j)
    decreases |argv| - i
  {
    if i < j && i < |argv| { NeedMonotone(argv, i + 1, j); }
  }

  // Strings never overlap each other or the array, and keep their order.
  lemma StringsDisjoint(argv: seq<Option<seq<Byte>>>, i: nat, j: nat)
    requires |argv| <= ARG_MAX && i < j < |argv| && Fits(argv, i) && Fits(argv, j)
    ensures StringOffset(argv, i) + |argv[i].value| + 1 <= StringOffset(argv, j)
    ensures StringOffset(argv, j) + |argv[j].value| + 1 <= ArrayOffset(|argv|)
  {
    NeedMonotone(argv, i + 1, j);
    NeedMonotone(argv, j + 1, |argv|);
  }

  // Every vector SYS_EXEC admits fits: 16 strings of at most 127 bytes.
  lemma {:induction false} AdmittedFits(argv: seq<Option<seq<Byte>>>, i: nat)
    requires |argv| <= ARG_MAX && i <= |argv|
    requires forall j | 0 <= j < |argv| && argv[j].Some? :: |argv[j].value| < ARG_BUFFER
    ensures Need(argv, i) <= (|argv| - i) * ARG_BUFFER <= ArrayOffset(|argv|)
    decreases |argv| - i
  {
    if i < |argv| { AdmittedFits(argv, i + 1); }
  }

  // The arguments i.. are where they belong, the pointers below i are still uninitialised.
  ghost predicate Laid(p: Page, va: seq<Word>, argv: seq<Option<seq<Byte>>>, zone: nat, junk: seq<Word>, i: nat)
    requires |argv| <= ARG_MAX == |va| == |junk|
  {
    (forall j | 0 <= j < i && j < ARG_MAX :: va[j] == junk[j])
    && (forall j | i <= j < |argv| && Fits(argv, j) ::
          StringAt(p, StringOffset(argv, j), argv[j].value) && va[j] == zone + StringOffset(argv, j))
    && (forall j | i <= j < |argv| && !Fits(argv, j) :: va[j] == junk[j])
  }

  lemma LaidString(p0: Page, p: Page, va: seq<Word>, argv: seq<Option<seq<Byte>>>, zone: nat, junk: seq<Word>, i: nat)
    requires |argv| <= ARG_MAX == |va| == |junk| && i < |argv| && Fits(argv, i) && zone + PAGE <= USER_END
    requires Laid(p0, va, argv, zone, junk, i + 1)
    requires StringAt(p, StringOffset(argv, i), argv[i].value)
    requires var cut := StringOffset(argv, i) + |argv[i].value| + 1; p[cut..] == p0[cut..]
    ensures Laid(p, va[i := zone + StringOffset(argv, i)], argv, zone, junk, i)
  {
    hide StringAt, Need, StringOffset;
    forall j | i < j < |argv| && Fits(argv, j)
      ensures StringAt(p, StringOffset(argv, j), argv[j].value)
    {
      StringsDisjoint(argv, i, j);
      Above(p0, p, StringOffset(argv, i) + |argv[i].value| + 1, StringOffset(argv, j), argv[j].value);
    }
  }

  // The marshalling loops. 'junk' is the uninitialised a_va array: a null or dropped argument keeps its word.
  method Marshal(page: Page, zone: nat, argv: seq<Option<seq<Byte>>>, junk: seq<Word>) returns (p: Page)
    requires 0 < |argv| <= ARG_MAX && |junk| == ARG_MAX && zone + PAGE <= USER_END
    ensures forall i | 0 <= i < |argv| && Fits(argv, i) ::
              StringAt(p, StringOffset(argv, i), argv[i].value)
              && WordAt(p, ArrayOffset(|argv|) / 8 + i) == zone + StringOffset(argv, i)
    ensures forall i | 0 <= i < |argv| && !Fits(argv, i) :: WordAt(p, ArrayOffset(|argv|) / 8 + i) == junk[i]
    ensures WordAt(p, ArrayOffset(|argv|) / 8 + |argv|) == 0
  {
    hide WordAt, PutWord, Laid;
    p := page;
    var arr := ArrayOffset(|argv|);
    var va: seq<Word> := junk;
    var ps := arr;
    var i := |argv|;
    LaidNone(p, argv, zone, junk);
    while i > 0
      invariant 0 <= i <= |argv| && |va| == ARG_MAX
      invariant ps == arr - Need(argv, i) && Need(argv, i) <= arr
      invariant Laid(p, va, argv, zone, junk, i)
    {
      i := i - 1;
      if argv[i].None? {
        LaidSkip(p, va, argv, zone, junk, i);
        continue;
      }
      var s := argv[i].value;
      var len := |s| + 1;
      if ps < len {
        LaidBreak(p, va, argv, zone, junk, i);
        i := 0;
        break;
      }
      ps := ps - len;
      ghost var p0 := p;
      p := PutString(p, ps, s);
      LaidString(p0, p, va, argv, zone, junk, i);
      va := va[i := zone + ps];
    }
    LaidAll(p, va, argv, zone, junk);
    p := WriteArray(p, argv, va);
  }

  // memcpy of a string with its terminator.
  method PutString(p0: Page, o: nat, s: seq<Byte>) returns (p: Page)
    requires o + |s| < PAGE
    ensures StringAt(p, o, s) && p[o + |s| + 1..] == p0[o + |s| + 1..] && p[..o] == p0[..o]
  {
    p := p0[..o] + s + [0] + p0[o + |s| + 1..];
  }

  lemma LaidNone(p: Page, argv: seq<Option<seq<Byte>>>, zone: nat, junk: seq<Word>)
    requires |argv| <= ARG_MAX == |junk|
    ensures Laid(p, junk, argv, zone, junk, |argv|)
  {
  }

  lemma LaidSkip(p: Page, va: seq<Word>, argv: seq<Option<seq<Byte>>>, zone: nat, junk: seq<Word>, i: nat)
    requires |argv| <= ARG_MAX == |va| == |junk| && i < |argv| && argv[i].None? && Laid(p, va, argv, zone, junk, i + 1)
    ensures Laid(p, va, argv, zone, junk, i)
  {
    hide StringAt, Need, StringOffset;
  }

  // The first string that does not fit ends the loop: nothing below it fits either.
  lemma LaidBreak(p: Page, va: seq<Word>, argv: seq<Option<seq<Byte>>>, zone: nat, junk: seq<Word>, i: nat)
    requires |argv| <= ARG_MAX == |va| == |junk| && i < |argv| && Laid(p, va, argv, zone, junk, i + 1)
    requires argv[i].Some? && Need(argv, i) > ArrayOffset(|argv|)
    ensures Laid(p, va, argv, zone, junk, 0)
  {
    NothingBelowFits(argv, i);
    hide StringAt, Need, StringOffset, Fits;
  }

  lemma LaidAll(p: Page, va: seq<Word>, argv: seq<Option<seq<Byte>>>, zone: nat, junk: seq<Word>)
    requires |argv| <= ARG_MAX == |va| == |junk| && Laid(p, va, argv, zone, junk, 0)
    ensures forall j | 0 <= j < |argv| && Fits(argv, j) ::
              StringAt(p, StringOffset(argv, j), argv[j].value) && va[j] == zone + StringOffset(argv, j)
    ensures forall j | 0 <= j < |argv| && !Fits(argv, j) :: va[j] == junk[j]
  {
  }

  method WriteArray(page: Page, argv: seq<Option<seq<Byte>>>, va: seq<Word>) returns (p: Page)
    requires 0 < |argv| <= ARG_MAX && |va| == ARG_MAX
    requires forall j | 0 <= j < |argv| && Fits(argv, j) :: StringAt(page, StringOffset(argv, j), argv[j].value)
    ensures forall j | 0 <= j < |argv| && Fits(argv, j) :: StringAt(p, StringOffset(argv, j), argv[j].value)
    ensures forall j | 0 <= j < |argv| :: WordAt(p, ArrayOffset(|argv|) / 8 + j) == va[j]
    ensures WordAt(p, ArrayOffset(|argv|) / 8 + |argv|) == 0
  {
    hide WordAt, PutWord, StringAt;
    p := page;
    var arr := ArrayOffset(|argv|) / 8;
    for i := 0 to |argv|
      invariant forall k | 0 <= k < 8 * arr :: p[k] == page[k]
      invariant forall j | 0 <= j < i :: WordAt(p, arr + j) == va[j]
    {
      PutWordReads(p, arr + i, va[i]);
      p := PutWord(p, arr + i, va[i]);
    }
    PutWordReads(p, arr + |argv|, 0);
    p := PutWord(p, arr + |argv|, 0);
    forall j | 0 <= j < |argv| && Fits(argv, j)
      ensures StringAt(p, StringOffset(argv, j), argv[j].value)
    {
      NeedMonotone(argv, j + 1, |argv|);
      Below(page, p, 8 * arr, StringOffset(argv, j), argv[j].value);
    }
  }

  lemma NothingBelowFits(argv: seq<Option<seq<Byte>>>, i: nat)
    requires |argv| <= ARG_MAX && i < |argv| && argv[i].Some? && Need(argv, i) > ArrayOffset(|argv|)
    ensures forall j | 0 <= j <= i :: !Fits(argv, j)
  {
    forall j | 0 <= j <= i
      ensures !Fits(argv, j)
    {
      NeedMonotone(argv, j, i);
    }
  }

  lemma Above(p: Page, p': Page, cut: nat, o: nat, s: seq<Byte>)
    requires cut <= o && cut <= PAGE && p'[cut..] == p[cut..] && StringAt(p, o, s)
    ensures StringAt(p', o, s)
  {
    assert forall k | cut <= k < PAGE :: p'[k] == p'[cut..][k - cut] && p[k] == p[cut..][k - cut];
  }

  lemma Below(p: Page, p': Page, cut: nat, o: nat, s: seq<Byte>)
    requires cut <= PAGE && o + |s| < cut && (forall k | 0 <= k < cut :: p'[k] == p[k]) && StringAt(p, o, s)
    ensures StringAt(p', o, s)
  {
  }
}
