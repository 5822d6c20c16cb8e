// What callers of the file system may rely on, whatever calls came before.
module FileLaws {
  import opened PhysMemory
  import opened RamFs

  // Every call of the run succeeded exactly when it had to; Session proves it of every run.
  ghost predicate Lawful(h: seq<Event>)
  {
    forall i | 0 <= i < |h| :: PathsOk(h[i].op) && OutcomeRight(h[..i], h[i])
  }

  lemma LawfulBefore(h: seq<Event>)
    requires Lawful(h) && h != []
    ensures Lawful(h[..|h| - 1]) && PathsOk(h[|h| - 1].op) && OutcomeRight(h[..|h| - 1], h[|h| - 1])
  {
    hide OutcomeRight, PathsOk;
    var before := h[..|h| - 1];
    forall i | 0 <= i < |before|
      ensures PathsOk(before[i].op) && OutcomeRight(before[..i], before[i])
    {
      assert before[..i] == h[..i];
    }
    assert h[..|h| - 1] == before;
  }

  // What reading a path gives after a run.
  function Reads(h: seq<Event>, path: string, max: nat): Answer
  {
    AnswerTo(Event(ReadOp(path, max), true, false), h)
  }

  function Cut(data: seq<Byte>, max: nat): seq<Byte> { if |data| > max then data[..max] else data }

  // What a read finds right after a call: a new file is empty; a written one gives those bytes; what was removed is
  // gone; a copy gives what its source gave, and so does the source still; what was moved is found at its new path
  // only. A copy or move out of memory leaves an empty file. Every other path reads as before.
  lemma NextRead(h: seq<Event>, e: Event, q: string, max: nat)
    requires PathsOk(e.op) && OutcomeRight(h, e)
    ensures Reads(h + [e], q, max) ==
            if !e.ok && !e.made then Reads(h, q, max)
            else match e.op
              case CreateOp(path, dir) =>
                if q == path then (if dir then Error else Bytes([])) else Reads(h, q, max)
              case WriteOp(path, data, _) => if q == path then Bytes(Cut(data, max)) else Reads(h, q, max)
              case ReadOp(_, _) => Reads(h, q, max)
              case RemoveOp(path) => if q == path then Error else Reads(h, q, max)
              case CopyOp(src, dst, _) =>
                if q != dst then Reads(h, q, max) else if e.ok then Reads(h, src, max) else Bytes([])
              case MoveOp(src, dst, _) =>
                if q == dst then (if e.ok then Reads(h, src, max) else Bytes([]))
                else if q == src && e.ok then Error else Reads(h, q, max)
  {
    assert (h + [e])[..|h|] == h;
  }

  // ---------------------------------------------------------------- the buffer of a file

  function Power(k: nat): (p: nat)
    ensures p > 0
  {
    if k == 0 then 1 else 2 * Power(k - 1)
  }

  // The smallest of 256, 512, 1024, ... that holds n bytes; none when there is nothing to hold.
  ghost predicate BufferFor(room: nat, n: nat)
  {
    if n == 0 then room == 0
    else n <= room && exists k: nat :: room == 256 * Power(k) && (k > 0 ==> room < 2 * n)
  }

  // The most bytes the file has held since it was made.
  function Peak(h: seq<Event>, q: string): nat
  {
    if h == [] then 0
    else
      var e, before := h[|h| - 1], h[..|h| - 1];
      if !Touches(e, q) then Peak(before, q)
      else match e.op
        case WriteOp(_, data, _) => if |data| > Peak(before, q) then |data| else Peak(before, q)
        case CopyOp(src, dst, _) => if e.ok then |DataOf(Contents(before, src))| else 0
        case MoveOp(src, dst, _) => if e.ok && q == dst then |DataOf(Contents(before, src))| else 0
        case _ => 0
  }

  lemma {:induction false} DoubledIs(c: nat, size: nat, k: nat)
    requires c == 256 * Power(k) && size > 0 && (k > 0 ==> c < 2 * size)
    ensures BufferFor(Doubled(c, size), size)
    decreases if c < size then size - c else 0
  {
    if c < size {
      assert 2 * c == 256 * Power(k + 1);
      DoubledIs(2 * c, size, k + 1);
    }
  }

  lemma GrownIs(room: nat, peak: nat, size: nat)
    requires BufferFor(room, peak)
    ensures BufferFor(Grown(room, size), if size > peak then size else peak)
  {
    if room < size {
      if room == 0 {
        assert 256 == 256 * Power(0);
        DoubledIs(256, size, 0);
      } else {
        var k: nat :| room == 256 * Power(k);
        assert 2 * room == 256 * Power(k + 1);
        DoubledIs(2 * room, size, k + 1);
      }
    }
  }

  // The buffer of a file is the smallest of those sizes that holds the most it has ever held, so a later write of no
  // more than that needs no memory.
  lemma {:induction false} RoomIsPeak(h: seq<Event>, q: string)
    requires Lawful(h) && Contents(h, q).File?
    ensures BufferFor(Contents(h, q).room, Peak(h, q))
    ensures |Contents(h, q).data| <= Peak(h, q) <= Contents(h, q).room
    decreases |h|
  {
    hide BufferFor, Grown, MayCreate, Lawful;
    if h != [] {
      var e, before := h[|h| - 1], h[..|h| - 1];
      LawfulBefore(h);
      EmptyBuffer();
      if !Touches(e, q) {
        RoomIsPeak(before, q);
      } else {
        match e.op
        case WriteOp(_, data, _) =>
          RoomIsPeak(before, q);
          GrownIs(Contents(before, q).room, Peak(before, q), |data|);
        case CopyOp(src, _, _) => GrownIs(0, 0, |DataOf(Contents(before, src))|);
        case MoveOp(src, _, _) => GrownIs(0, 0, |DataOf(Contents(before, src))|);
        case _ =>
      }
      Holds(Contents(h, q).room, Peak(h, q));
    }
  }

  lemma EmptyBuffer()
    ensures BufferFor(0, 0)
  {
  }

  lemma Holds(room: nat, n: nat)
    requires BufferFor(room, n)
    ensures n <= room
  {
  }
}
