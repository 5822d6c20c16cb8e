// Message passing: 64 mailboxes, each a ring of 64 messages, claimed by a pid on first use and never given back.
module Mailboxes {
  import opened PhysMemory

  const BOXES: nat := 64
  const QUEUE: nat := 64
  const MSG_MAX: nat := 4096

  datatype Message = Message(sender: nat, receiver: nat, kind: nat, payload: seq<Byte>)

  // One mailbox; pid 0 marks it as unused.
  datatype Box = Box(pid: nat, msgs: seq<Message>, head: nat, count: nat)

  ghost predicate BoxOk(b: Box)
  {
    |b.msgs| == QUEUE && b.head < QUEUE && b.count <= QUEUE
  }

  // The messages waiting, oldest first.
  function Waiting(b: Box): (q: seq<Message>)
    requires BoxOk(b)
    ensures |q| == b.count
  {
    seq(b.count, i requires 0 <= i < b.count => b.msgs[(b.head + i) % QUEUE])
  }

  function Pushed(b: Box, m: Message): Box
    requires BoxOk(b)
  {
    if b.count >= QUEUE then b
    else b.(msgs := b.msgs[(b.head + b.count) % QUEUE := m], count := b.count + 1)
  }

  function Popped(b: Box): Box
    requires BoxOk(b) && b.count > 0
  {
    b.(head := (b.head + 1) % QUEUE, count := b.count - 1)
  }

  // The ring is a queue: a message goes in at the end, or is dropped when 64 wait.
  lemma PushIsAppend(b: Box, m: Message)
    requires BoxOk(b)
    ensures BoxOk(Pushed(b, m))
    ensures Waiting(Pushed(b, m)) == if b.count < QUEUE then Waiting(b) + [m] else Waiting(b)
  {
    if b.count < QUEUE {
      var w := Waiting(Pushed(b, m));
      forall i | 0 <= i < b.count
        ensures w[i] == Waiting(b)[i]
      {
        RingDistinct(b.head, i, b.count);
      }
    }
  }

  lemma RingDistinct(head: nat, i: nat, j: nat)
    requires head < QUEUE && i < j < QUEUE
    ensures (head + i) % QUEUE != (head + j) % QUEUE
  {
  }

  // And comes out at the front.
  lemma PopIsTail(b: Box)
    requires BoxOk(b) && b.count > 0
    ensures BoxOk(Popped(b)) && b.msgs[b.head] == Waiting(b)[0] && Waiting(Popped(b)) == Waiting(b)[1..]
  {
    var w, v := Waiting(Popped(b)), Waiting(b);
    forall i | 0 <= i < b.count - 1
      ensures w[i] == v[i + 1]
    {
      assert ((b.head + 1) % QUEUE + i) % QUEUE == (b.head + (i + 1)) % QUEUE;
    }
  }

  function History(h: map<nat, seq<Message>>, pid: nat): seq<Message> { if pid in h then h[pid] else [] }

  // Every mailbox is a proper ring, no two belong to one process, and what each process was sent is what it took
  // followed by what waits in its mailbox.
  ghost predicate Conserved(bs: seq<Box>, accepted: map<nat, seq<Message>>, received: map<nat, seq<Message>>)
  {
    |bs| == BOXES && (forall i | 0 <= i < BOXES :: BoxOk(bs[i]))
    && (forall i, j | 0 <= i < j < BOXES && bs[i].pid != 0 :: bs[i].pid != bs[j].pid)
    && (forall i | 0 <= i < BOXES && bs[i].pid != 0 ::
          History(accepted, bs[i].pid) == History(received, bs[i].pid) + Waiting(bs[i]))
    && (forall pid: nat | pid != 0 && !Owns(bs, pid) :: History(accepted, pid) == [] && History(received, pid) == [])
  }

  ghost predicate Owns(bs: seq<Box>, pid: nat)
  {
    exists i :: 0 <= i < |bs| && bs[i].pid == pid
  }

  // So what a process took is at every moment the beginning of what it was sent, in the same order.
  lemma TakenInOrder(bs: seq<Box>, accepted: map<nat, seq<Message>>, received: map<nat, seq<Message>>, pid: nat)
    requires Conserved(bs, accepted, received) && pid != 0
    ensures History(received, pid) <= History(accepted, pid)
    ensures |History(accepted, pid)| - |History(received, pid)| <= QUEUE
  {
    if Owns(bs, pid) {
      var i :| 0 <= i < |bs| && bs[i].pid == pid;
      assert History(accepted, bs[i].pid) == History(received, bs[i].pid) + Waiting(bs[i]);
    }
  }

  // Claiming box i, which was unused, for pid.
  lemma Claim(bs: seq<Box>, accepted: map<nat, seq<Message>>, received: map<nat, seq<Message>>, i: nat, pid: nat)
    requires Conserved(bs, accepted, received) && i < BOXES && bs[i].pid == 0 && pid != 0 && !Owns(bs, pid)
    ensures Conserved(bs[i := bs[i].(pid := pid, head := 0, count := 0)], accepted, received)
  {
    var bs' := bs[i := bs[i].(pid := pid, head := 0, count := 0)];
    forall p: nat | p != 0
      ensures Owns(bs, p) ==> Owns(bs', p)
    {
      if Owns(bs, p) {
        var j :| 0 <= j < |bs| && bs[j].pid == p;
        assert bs'[j].pid == p;
      }
    }
  }

  // One mailbox changed, together with the histories of its owner.
  lemma OneBox(bs: seq<Box>, accepted: map<nat, seq<Message>>, received: map<nat, seq<Message>>, i: nat, b: Box,
               accepted': map<nat, seq<Message>>, received': map<nat, seq<Message>>)
    requires Conserved(bs, accepted, received) && i < BOXES && b.pid == bs[i].pid && BoxOk(b)
    requires forall pid: nat | pid != 0 && pid != b.pid ::
               History(accepted', pid) == History(accepted, pid) && History(received', pid) == History(received, pid)
    requires b.pid != 0 ==> History(accepted', b.pid) == History(received', b.pid) + Waiting(b)
    ensures Conserved(bs[i := b], accepted', received')
  {
    hide Waiting, BoxOk, History;
    SameOwners(bs, bs[i := b]);
    assert b.pid != 0 ==> Owns(bs[i := b], b.pid) by { assert bs[i := b][i].pid == b.pid; }
    hide Owns;
  }

  lemma SendStep(bs: seq<Box>, accepted: map<nat, seq<Message>>, received: map<nat, seq<Message>>, i: nat, m: Message)
    requires Conserved(bs, accepted, received) && i < BOXES
    ensures var b := bs[i];
            var accepted' := if b.pid == 0 || b.count >= QUEUE then accepted
                             else accepted[b.pid := History(accepted, b.pid) + [m]];
            Conserved(bs[i := Pushed(b, m)], accepted', received)
  {
    var b := bs[i];
    var accepted' := if b.pid == 0 || b.count >= QUEUE then accepted
                     else accepted[b.pid := History(accepted, b.pid) + [m]];
    BoxHistory(bs, accepted, received, i);
    hide Conserved, Waiting;
    PushIsAppend(b, m);
    OneBox(bs, accepted, received, i, Pushed(b, m), accepted', received);
  }

  lemma TakeStep(bs: seq<Box>, accepted: map<nat, seq<Message>>, received: map<nat, seq<Message>>, i: nat)
    requires Conserved(bs, accepted, received) && i < BOXES && bs[i].pid != 0 && bs[i].count > 0
    ensures var b := bs[i];
            var taken := History(received, b.pid);
            |b.msgs| == QUEUE && b.head < QUEUE
            && |taken| < |History(accepted, b.pid)| && b.msgs[b.head] == History(accepted, b.pid)[|taken|]
            && BoxOk(b) && Conserved(bs[i := Popped(b)], accepted, received[b.pid := taken + [b.msgs[b.head]]])
  {
    var b := bs[i];
    BoxHistory(bs, accepted, received, i);
    hide Conserved, Waiting;
    PopIsTail(b);
    OneBox(bs, accepted, received, i, Popped(b), accepted,
      received[b.pid := History(received, b.pid) + [b.msgs[b.head]]]);
  }

  lemma SameOwners(bs: seq<Box>, bs': seq<Box>)
    requires |bs'| == |bs| && forall i | 0 <= i < |bs| :: bs'[i].pid == bs[i].pid
    ensures forall pid: nat :: Owns(bs', pid) <==> Owns(bs, pid)
  {
    forall pid: nat
      ensures Owns(bs', pid) <==> Owns(bs, pid)
    {
      if Owns(bs, pid) {
        var i :| 0 <= i < |bs| && bs[i].pid == pid;
        assert bs'[i].pid == pid;
      }
    }
  }

  datatype Received = NoCapability | NoMailbox | Empty | Got(from: nat, kind: nat, data: seq<Byte>)

  class Post {
    const boxes: array<Box>
    ghost var accepted: map<nat, seq<Message>>  // all messages ever queued for a pid, in order
    ghost var received: map<nat, seq<Message>>  // all messages it ever took

    ghost predicate Valid()
      reads this, boxes
    {
      boxes.Length == BOXES && Conserved(boxes[..], accepted, received)
    }

    // ipc_init.
    constructor ()
      ensures Valid() && fresh(boxes) && accepted == received == map[] && forall i | 0 <= i < BOXES :: boxes[i].pid == 0
    {
      accepted, received := map[], map[];
      boxes := new Box[BOXES](_ => Box(0, seq(QUEUE, _ => Message(0, 0, 0, [])), 0, 0));
      new;
      assert forall i | 0 <= i < BOXES :: BoxOk(boxes[i]);
    }

    // mailbox_for: the mailbox of pid, claimed now if it had none; -1 when all are taken.
    method MailboxFor(pid: nat) returns (i: int)
      requires Valid()
      modifies boxes
      ensures Valid()
      ensures i == -1 <==> !Owns(old(boxes[..]), pid) && !Owns(old(boxes[..]), 0)
      ensures i == -1 ==> boxes[..] == old(boxes[..])
      ensures i != -1 ==> 0 <= i < BOXES && boxes[i].pid == pid
      ensures Owns(old(boxes[..]), pid) ==> boxes[..] == old(boxes[..])
      ensures i != -1 && !Owns(old(boxes[..]), pid) ==> boxes[i].count == 0
    {
      hide Conserved;
      assert |boxes[..]| == BOXES;
      i := 0;
      while i < BOXES
        invariant 0 <= i <= BOXES && forall k | 0 <= k < i :: boxes[k].pid != pid
      {
        if boxes[i].pid == pid {
          assert boxes[..][i].pid == pid;
          return;
        }
        i := i + 1;
      }
      assert !Owns(boxes[..], pid);
      i := 0;
      while i < BOXES
        invariant 0 <= i <= BOXES && forall k | 0 <= k < i :: boxes[k].pid != 0
      {
        if boxes[i].pid == 0 {
          assert boxes[..][i].pid == 0;
          Claim(boxes[..], accepted, received, i, pid);
          boxes[i] := boxes[i].(pid := pid, head := 0, count := 0);
          return;
        }
        i := i + 1;
      }
      i := -1;
    }

    // do_send by process 'me': 0 when the message was queued or dropped, -1 without the capability, -2 without
    // a mailbox.
    method Send(me: nat, capable: bool, to: nat, kind: nat, data: seq<Byte>, size: nat) returns (r: int)
      requires Valid() && size <= |data|
      modifies this, boxes
      ensures Valid() && received == old(received)
      ensures r == -1 <==> !capable
      ensures r == -2 <==> capable && !Owns(old(boxes[..]), to) && !Owns(old(boxes[..]), 0)
      ensures r != -1 && r != -2 ==> r == 0
      ensures r != 0 ==> boxes[..] == old(boxes[..]) && accepted == old(accepted)
      ensures var m := Message(me, to, kind, data[..if size > MSG_MAX then MSG_MAX else size]);
              r == 0 && to != 0 ==>
                accepted == if |History(old(accepted), to)| - |History(received, to)| < QUEUE
                            then old(accepted)[to := History(old(accepted), to) + [m]] else old(accepted)
      ensures to == 0 ==> accepted == old(accepted)
    {
      if !capable { return -1; }
      hide Conserved, Pushed;
      var i := MailboxFor(to);
      if i == -1 { return -2; }
      var m := Message(me, to, kind, data[..if size > MSG_MAX then MSG_MAX else size]);
      BoxHistory(boxes[..], accepted, received, i);
      SendStep(boxes[..], accepted, received, i, m);
      accepted := if boxes[i].pid == 0 || boxes[i].count >= QUEUE then accepted
                  else accepted[boxes[i].pid := History(accepted, boxes[i].pid) + [m]];
      boxes[i] := Pushed(boxes[i], m);
      return 0;
    }

    // ipc_try_receive by process 'me' (ipc_receive blocks and tries again while the answer is Empty): the oldest
    // message not yet taken, cut to max bytes.
    method TryReceive(me: nat, capable: bool, max: nat) returns (r: Received)
      requires Valid() && me != 0
      modifies this, boxes
      ensures Valid() && accepted == old(accepted)
      ensures r == NoCapability <==> !capable
      ensures r == NoMailbox <==> capable && !Owns(old(boxes[..]), me) && !Owns(old(boxes[..]), 0)
      ensures r == Empty ==> History(accepted, me) == History(received, me)
      ensures !r.Got? ==> received == old(received)
      ensures r.Got? ==>
                var k := |History(old(received), me)|;
                k < |History(accepted, me)|
                && (var m := History(accepted, me)[k];
                    received == old(received)[me := History(old(received), me) + [m]]
                    && r == Got(m.sender, m.kind, m.payload[..if |m.payload| > max then max else |m.payload|]))
    {
      if !capable { return NoCapability; }
      hide Conserved, Popped;
      var i := MailboxFor(me);
      if i == -1 { return NoMailbox; }
      BoxHistory(boxes[..], accepted, received, i);
      if boxes[i].count == 0 { return Empty; }
      TakeStep(boxes[..], accepted, received, i);
      var m := boxes[i].msgs[boxes[i].head];
      received := received[me := History(received, me) + [m]];
      boxes[i] := Popped(boxes[i]);
      return Got(m.sender, m.kind, m.payload[..if |m.payload| > max then max else |m.payload|]);
    }
  }

  lemma BoxHistory(bs: seq<Box>, accepted: map<nat, seq<Message>>, received: map<nat, seq<Message>>, i: nat)
    requires Conserved(bs, accepted, received) && i < BOXES
    ensures BoxOk(bs[i])
    ensures bs[i].pid != 0 ==> History(accepted, bs[i].pid) == History(received, bs[i].pid) + Waiting(bs[i])
  {
  }
}
