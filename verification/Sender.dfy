/** The command queue between a handler and its connection (src/sender.rs): a bounded FIFO
    whose `send_message` never waits. */
module Sender {
  import opened Bytes
  import opened Protocol

  datatype SendResult = Sent | SendFull(msg: Message) | SendClosed(msg: Message)

  /** What the run loop's receive comes to: a command, the end because no sender is left, or
      nothing yet. */
  datatype Receipt = Got(msg: Message) | AllGone | NotYet

  /** One channel with its two ends. `closed` tells that the receiver was dropped, `gone` that
      all senders were; `accepted` and `taken` are history. */
  datatype Mailbox = Mailbox(
    capacity: nat,
    queue: seq<Message>,
    closed: bool,
    gone: bool,
    accepted: seq<Message>,
    taken: seq<Message>)

  function NewMailbox(capacity: nat): Mailbox {
    Mailbox(capacity, [], false, false, [], [])
  }

  /** What was accepted is what was taken, followed by what is queued, in order. */
  ghost predicate InOrder(b: Mailbox) {
    |b.queue| <= b.capacity && b.accepted == b.taken + b.queue
  }

  function Put(b: Mailbox, m: Message): Mailbox {
    if b.closed || |b.queue| >= b.capacity then b
    else b.(queue := b.queue + [m], accepted := b.accepted + [m])
  }

  function Take(b: Mailbox): Mailbox
    requires b.queue != []
  {
    b.(queue := b.queue[1..], taken := b.taken + [b.queue[0]])
  }

  lemma PutInOrder(b: Mailbox, m: Message)
    requires InOrder(b)
    ensures InOrder(Put(b, m))
  {
    assert b.taken + b.queue + [m] == b.taken + (b.queue + [m]);
  }

  lemma TakeInOrder(b: Mailbox)
    requires InOrder(b) && b.queue != []
    ensures InOrder(Take(b))
  {
    assert b.queue == [b.queue[0]] + b.queue[1..];
    assert b.taken + b.queue == b.taken + [b.queue[0]] + b.queue[1..];
  }

  class NetSender {
    const capacity: nat
    var id: u64
    var queue: seq<Message>
    var closed: bool
    var gone: bool
    ghost var accepted: seq<Message>
    ghost var taken: seq<Message>

    ghost function Box(): Mailbox
      reads this
    {
      Mailbox(capacity, queue, closed, gone, accepted, taken)
    }

    ghost predicate Valid()
      reads this
    {
      InOrder(Box())
    }

    /** The channel itself rejects a capacity of 0. */
    constructor (capacity: nat, id: u64)
      requires 0 < capacity <= USIZE_MAX
      ensures Valid() && this.id == id
      ensures Box() == NewMailbox(if capacity <= USIZE_MAX / 8 then capacity else USIZE_MAX / 8)
    {
      this.capacity := if capacity <= USIZE_MAX / 8 then capacity else USIZE_MAX / 8;
      this.id := id;
      queue, closed, gone := [], false, false;
      accepted, taken := [], [];
    }

    /** Gives the message back when the receiver is gone or the queue is full. */
    method SendMessage(msg: Message) returns (r: SendResult)
      requires Valid()
      modifies this`queue, this`accepted
      ensures Valid() && Box() == Put(old(Box()), msg)
      ensures r == if closed then SendClosed(msg) else if |old(queue)| >= capacity then SendFull(msg) else Sent
      ensures accepted == old(accepted) + (if r.Sent? then [msg] else [])
    {
      PutInOrder(Box(), msg);
      if closed {
        return SendClosed(msg);
      }
      if |queue| >= capacity {
        return SendFull(msg);
      }
      queue := queue + [msg];
      accepted := accepted + [msg];
      return Sent;
    }

    method CloseWithReason(code: CloseCode, reason: Str) returns (r: SendResult)
      requires Valid()
      modifies this`queue, this`accepted
      ensures Valid() && Box() == Put(old(Box()), Close(code, reason))
      ensures r.Sent? <==> !closed && |old(queue)| < capacity
    {
      r := SendMessage(Close(code, reason));
    }

    /** The run loop's receive: the oldest command; or the end, when no sender is left and
        every command was taken. */
    method Receive() returns (r: Receipt)
      requires Valid()
      modifies this`queue, this`taken
      ensures Valid()
      ensures match r
              case Got(m) => old(queue) != [] && m == old(queue)[0] && Box() == Take(old(Box()))
              case AllGone => queue == [] && gone && Box() == old(Box())
              case NotYet => queue == [] && !gone && Box() == old(Box())
    {
      if |queue| == 0 {
        return if gone then AllGone else NotYet;
      }
      TakeInOrder(Box());
      r := Got(queue[0]);
      taken := taken + [queue[0]];
      queue := queue[1..];
    }

    /** The run loop returns and drops its end. */
    method DropReceiver()
      requires Valid()
      modifies this`closed
      ensures Valid() && Box() == old(Box()).(closed := true)
    {
      closed := true;
    }

    /** The last sender is dropped. */
    method DropSenders()
      requires Valid()
      modifies this`gone
      ensures Valid() && Box() == old(Box()).(gone := true)
    {
      gone := true;
    }
  }
}
