/** The send side of a session: handlers on its strand enqueue buffers, start one write at a
    time, and react to completions. The writes the socket was handed and what it delivered are
    part of the state. */
module SendQueue {
  import opened Machine
  import opened WireFormat

  type Buffer = Bytes

  const MAX_SEND_QUEUE: nat := 4096

  /** A write handed to the socket, and whether the socket was open then: on a closed one it fails. */
  datatype Write = Write(data: Buffer, open: bool)

  datatype Sender = Sender(
    queue: seq<Buffer>, writing: bool, closed: bool,
    outstanding: seq<Write>, delivered: seq<Buffer>, accepted: seq<Buffer>)

  const NEW_SENDER := Sender([], false, false, [], [], [])

  /** None stands for taking the front of an empty queue, which the language leaves undefined. */
  function StartWrite(s: Sender): Option<Sender> {
    if s.queue == [] then None
    else Some(s.(writing := true, outstanding := s.outstanding + [Write(s.queue[0], !s.closed)]))
  }

  function Closing(s: Sender): Sender {
    s.(closed := true)
  }

  function Enqueue(s: Sender, data: Buffer): Option<Sender> {
    if |s.queue| >= MAX_SEND_QUEUE then Some(Closing(s.(queue := [], writing := false)))
    else
      var t := s.(queue := s.queue + [data], accepted := s.accepted + [data]);
      if t.writing then Some(t) else StartWrite(t)
  }

  function WriteDone(s: Sender, error: bool): Option<Sender> {
    if error then Some(Closing(s.(queue := [], writing := false)))
    else if s.queue == [] then None
    else
      var t := s.(queue := s.queue[1..]);
      if t.queue == [] then Some(t.(writing := false)) else StartWrite(t)
  }

  // ---------------------------------------------------------------------------------------
  //  Runs
  // ---------------------------------------------------------------------------------------

  /** A buffer is enqueued; write number `i` completes; or the session is closed for another reason. */
  datatype Action =
    | Send(data: Buffer)
    | Complete(i: nat, error: bool)
    | CloseOutside

  /** A write can succeed only if the socket was open when it began. */
  predicate Possible(s: Sender, a: Action) {
    match a
    case Complete(i, error) => i < |s.outstanding| && (error || s.outstanding[i].open)
    case _ => true
  }

  function Next(s: Sender, a: Action): Option<Sender>
    requires Possible(s, a)
  {
    match a
    case Send(data) => Enqueue(s, data)
    case Complete(i, error) =>
      var w := s.outstanding[i];
      var t := s.(outstanding := s.outstanding[..i] + s.outstanding[i + 1..],
                  delivered := if error then s.delivered else s.delivered + [w.data]);
      WriteDone(t, error)
    case CloseOutside => Some(Closing(s))
  }

  /** Each action is possible when its turn comes, and none enqueues on a full queue. */
  predicate UpToOverflow(s: Sender, actions: seq<Action>)
    decreases |actions|
  {
    actions == [] ||
      (&& Possible(s, actions[0])
       && !(actions[0].Send? && |s.queue| >= MAX_SEND_QUEUE)
       && (Next(s, actions[0]).Some? ==> UpToOverflow(Next(s, actions[0]).value, actions[1..])))
  }

  /** Where the actions lead; None if one of them is undefined. */
  function Run(s: Sender, actions: seq<Action>): Option<Sender>
    requires UpToOverflow(s, actions)
    decreases |actions|
  {
    if actions == [] then Some(s)
    else match Next(s, actions[0])
      case None => None
      case Some(t) => Run(t, actions[1..])
  }

  /** What was enqueued: the data of the `Send` actions, in order. */
  function Sent(actions: seq<Action>): seq<Buffer> {
    if actions == [] then []
    else (if actions[0].Send? then [actions[0].data] else []) + Sent(actions[1..])
  }

  /** At most one write is outstanding; `writing` says whether one is; its buffer is the front
      of the queue; the queue is within its bound. */
  predicate SingleWriter(s: Sender) {
    && |s.queue| <= MAX_SEND_QUEUE
    && |s.outstanding| == (if s.writing then 1 else 0)
    && (s.writing <==> s.queue != [])
    && (s.writing ==> s.outstanding[0].data == s.queue[0])
  }

  /** What was delivered is a prefix of what was accepted; while the session is open, the queue
      is all the rest; once it is closed, at most the write begun before can still add to it. */
  predicate InOrder(s: Sender) {
    && s.delivered <= s.accepted
    && (!s.closed ==> s.delivered + s.queue == s.accepted && forall w <- s.outstanding :: w.open)
    && (s.closed && s.outstanding != [] && s.outstanding[0].open ==>
          |s.delivered| < |s.accepted| && s.outstanding[0].data == s.accepted[|s.delivered|])
  }

  predicate Inv(s: Sender) {
    SingleWriter(s) && InOrder(s)
  }

  lemma SendKeeps(s: Sender, data: Buffer)
    requires Inv(s) && |s.queue| < MAX_SEND_QUEUE
    ensures Enqueue(s, data).Some? && Inv(Enqueue(s, data).value)
  {
    assert (s.queue + [data])[0] == if s.queue == [] then data else s.queue[0];
    assert s.delivered + (s.queue + [data]) == s.delivered + s.queue + [data];
    assert s.delivered <= s.accepted <= s.accepted + [data];
  }

  lemma CompleteKeeps(s: Sender, i: nat, error: bool)
    requires Inv(s) && Possible(s, Complete(i, error))
    ensures Next(s, Complete(i, error)).Some? && Inv(Next(s, Complete(i, error)).value)
  {
    assert i == 0 && s.outstanding[..0] + s.outstanding[1..] == [];
    var w := s.outstanding[0];
    assert s.queue == [w.data] + s.queue[1..];
    if !s.closed {
      assert s.delivered + s.queue == (s.delivered + [w.data]) + s.queue[1..];
    }
  }

  /** A step is safe exactly up to the overflow branch: enqueueing on a full queue, which is
      being written, leaves a write outstanding that the flags deny. */
  lemma SafeExactlyBeforeOverflow(s: Sender, a: Action)
    requires Inv(s) && Possible(s, a)
    ensures Next(s, a).Some?
    ensures Inv(Next(s, a).value) <==> !(a.Send? && |s.queue| >= MAX_SEND_QUEUE)
  {
    match a {
      case Send(data) =>
        if |s.queue| < MAX_SEND_QUEUE { SendKeeps(s, data); }
      case Complete(i, error) => CompleteKeeps(s, i, error);
      case CloseOutside =>
        if !s.closed && s.queue != [] {
          assert (s.delivered + s.queue)[|s.delivered|] == s.queue[0];
        }
    }
  }

  /** Every run up to an overflow is safe, and nothing it does is undefined. */
  lemma {:induction false} RunIsSafe(s: Sender, actions: seq<Action>)
    requires Inv(s) && UpToOverflow(s, actions)
    ensures Run(s, actions).Some? && Inv(Run(s, actions).value)
    decreases |actions|
  {
    if actions != [] {
      SafeExactlyBeforeOverflow(s, actions[0]);
      RunIsSafe(Next(s, actions[0]).value, actions[1..]);
    }
  }

  /** What a session has accepted is what was enqueued. */
  lemma {:induction false} AcceptedIsSent(s: Sender, actions: seq<Action>)
    requires Inv(s) && UpToOverflow(s, actions)
    ensures Run(s, actions).Some? && Run(s, actions).value.accepted == s.accepted + Sent(actions)
    decreases |actions|
  {
    hide Next;
    hide Inv;
    if actions == [] {
      assert s.accepted + [] == s.accepted;
    } else {
      SafeExactlyBeforeOverflow(s, actions[0]);
      AcceptsWhatIsSent(s, actions[0]);
      var t := Next(s, actions[0]).value;
      AcceptedIsSent(t, actions[1..]);
      assert t.accepted + Sent(actions[1..]) == s.accepted + Sent(actions);
    }
  }

  lemma AcceptsWhatIsSent(s: Sender, a: Action)
    requires Inv(s) && Possible(s, a) && !(a.Send? && |s.queue| >= MAX_SEND_QUEUE)
    ensures Next(s, a).Some?
    ensures Next(s, a).value.accepted == s.accepted + if a.Send? then [a.data] else []
  {
    SafeExactlyBeforeOverflow(s, a);
  }

  /** From a new session on: no handler is undefined, at most one write outstanding, of the
      queue's front, exactly when writing; what was delivered is what was enqueued, in order,
      and before the first close the queue is all the rest. */
  lemma SendQueueSafe(actions: seq<Action>)
    requires UpToOverflow(NEW_SENDER, actions)
    ensures Run(NEW_SENDER, actions).Some?
    ensures var r := Run(NEW_SENDER, actions).value;
      && |r.queue| <= 4096
      && |r.outstanding| == (if r.writing then 1 else 0)
      && (r.writing ==> r.queue != [] && r.outstanding[0].data == r.queue[0])
      && r.delivered <= Sent(actions)
      && (!r.closed ==> r.delivered + r.queue == Sent(actions))
  {
    RunIsSafe(NEW_SENDER, actions);
    AcceptedIsSent(NEW_SENDER, actions);
    assert [] + Sent(actions) == Sent(actions);
  }

  // ---------------------------------------------------------------------------------------
  //  The overflow
  // ---------------------------------------------------------------------------------------

  /** After an overflow, the outstanding write's success makes its handler take the front of an
      empty queue. */
  lemma OverflowLeadsToEmptyPop(s: Sender, data: Buffer)
    requires Inv(s) && |s.queue| == MAX_SEND_QUEUE && s.outstanding[0].open
    ensures Next(s, Send(data)).Some?
    ensures var r := Next(s, Send(data)).value;
      Possible(r, Complete(0, false)) && Next(r, Complete(0, false)).None?
  {
  }

  /** The overflow branch closes the session and drops the queue and the new buffer. */
  lemma OverflowCloses(s: Sender, data: Buffer)
    requires |s.queue| >= 4096
    ensures Next(s, Send(data)) == Some(s.(queue := [], writing := false, closed := true))
  {
  }

  /** Sending `k` buffers more on an open session that is writing. */
  lemma {:induction false} SendsQueueUp(s: Sender, data: Buffer, k: nat)
    requires Inv(s) && !s.closed && s.queue != [] && |s.queue| + k <= MAX_SEND_QUEUE
    ensures var sends := seq(k, _ => Send(data));
      && UpToOverflow(s, sends) && Run(s, sends).Some?
      && var r := Run(s, sends).value;
         Inv(r) && |r.queue| == |s.queue| + k && r.outstanding == s.outstanding && !r.closed
    decreases k
  {
    if k > 0 {
      SendKeeps(s, data);
      var t := Next(s, Send(data)).value;
      SendsQueueUp(t, data, k - 1);
      assert seq(k, _ => Send(data))[1..] == seq(k - 1, _ => Send(data));
    }
  }

  /** A new session gets there: one buffer too many while nothing is delivered, and then the
      write under way succeeds. */
  lemma NewSessionCanOverflow(data: Buffer)
    ensures var sends := seq(MAX_SEND_QUEUE, _ => Send(data));
      && UpToOverflow(NEW_SENDER, sends) && Run(NEW_SENDER, sends).Some?
      && var full := Run(NEW_SENDER, sends).value;
         && Inv(full) && Next(full, Send(data)).Some?
         && var r := Next(full, Send(data)).value;
            Possible(r, Complete(0, false)) && Next(r, Complete(0, false)).None?
  {
    var s := Next(NEW_SENDER, Send(data)).value;
    SendKeeps(NEW_SENDER, data);
    SendsQueueUp(s, data, MAX_SEND_QUEUE - 1);
    var sends := seq(MAX_SEND_QUEUE, _ => Send(data));
    assert sends[0] == Send(data) && sends[1..] == seq(MAX_SEND_QUEUE - 1, _ => Send(data));
    assert s.outstanding == [Write(data, true)];
    OverflowLeadsToEmptyPop(Run(NEW_SENDER, sends).value, data);
  }

  // ---------------------------------------------------------------------------------------
  //  The session object
  // ---------------------------------------------------------------------------------------

  class Session {
    var sendQueue: seq<Buffer>
    var writing: bool
    var closed: bool
    /** Writes the socket is working on. */
    var socket: seq<Write>
    ghost var delivered: seq<Buffer>
    ghost var accepted: seq<Buffer>

    ghost function View(): Sender
      reads this
    {
      Sender(sendQueue, writing, closed, socket, delivered, accepted)
    }

    constructor ()
      ensures View() == NEW_SENDER
    {
      sendQueue, writing, closed, socket := [], false, false, [];
      delivered, accepted := [], [];
    }

    /** True the first time only. */
    method Close() returns (first: bool)
      modifies this
      ensures View() == Closing(old(View())) && first == !old(closed)
    {
      first := !closed;
      closed := true;
    }

    method EnqueueSend(data: Buffer)
      modifies this
      ensures Some(View()) == Enqueue(old(View()), data)
      ensures sendQueue == if old(|sendQueue|) >= 4096 then [] else old(sendQueue) + [data]
      ensures old(Inv(View()) && |sendQueue| < MAX_SEND_QUEUE) ==> Inv(View())
    {
      if |sendQueue| >= MAX_SEND_QUEUE {
        sendQueue := [];
        writing := false;
        var first := Close();
        return;
      }
      if Inv(View()) { SendKeeps(View(), data); }
      sendQueue := sendQueue + [data];
      accepted := accepted + [data];
      if !writing {
        DoWrite();
      }
    }

    method DoWrite()
      requires sendQueue != []
      modifies this
      ensures Some(View()) == StartWrite(old(View()))
    {
      writing := true;
      socket := socket + [Write(sendQueue[0], !closed)];
    }

    /** The handler of write `i`, already taken off the socket's hands. */
    method OnWrite(error: bool)
      requires !error ==> sendQueue != []
      modifies this
      ensures Some(View()) == WriteDone(old(View()), error)
    {
      if error {
        sendQueue := [];
        writing := false;
        var first := Close();
        return;
      }
      sendQueue := sendQueue[1..];
      if sendQueue == [] {
        writing := false;
      } else {
        DoWrite();
      }
    }
  }
}
