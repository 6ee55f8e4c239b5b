/** The invariant of the transition system. Most of it is said of one operation at a time, through a
    view of the state that holds only what concerns that operation; within the bound on the number
    of operations no event of one operation changes the view of another. */
module Invariant {
  import opened Bytes
  import opened Frame
  import opened RpcMessage
  import opened Messages
  import opened System
  import D = Demux

  /** So many operations have distinct stream-ids, none of them 0. */
  const ID_BOUND := 0x1_0000_0000

  predicate Bounded(s: State) {
    |s.ops| < ID_BOUND
  }

  lemma StreamIdsDistinct(i: nat, j: nat)
    requires i < ID_BOUND && j < ID_BOUND && StreamIdOf(i) == StreamIdOf(j)
    ensures i == j
  {
  }

  // ---- One operation's view ----

  /** The frames operation k has put on the wire. */
  function ByOp(k: nat, sent: seq<Outgoing>): seq<Outgoing> {
    if sent == [] then []
    else
      var r, o := ByOp(k, sent[..|sent| - 1]), sent[|sent| - 1];
      if o.who == Activator(k) || o.who == Terminator(k) then r + [o] else r
  }

  lemma ByOpSnoc(k: nat, sent: seq<Outgoing>, o: Outgoing)
    ensures ByOp(k, sent + [o]) ==
            if o.who == Activator(k) || o.who == Terminator(k) then ByOp(k, sent) + [o] else ByOp(k, sent)
  {
    assert (sent + [o])[..|sent|] == sent;
  }

  /** The messages on the operation's stream from its registration up to its removal, or to now. */
  function Seen(op: Op, sid: int32, inbound: seq<Rpc>): seq<Rpc> {
    var end := if op.upto.Some? then op.upto.value else |inbound|;
    if op.from.Some? && op.from.value <= end <= |inbound| then D.Project(sid, inbound[op.from.value..end]) else []
  }

  datatype View = View(
    k: nat, op: Op, channel: D.Channel, live: bool, seen: seq<Rpc>, now: nat,
    wire: seq<Outgoing>, holding: Option<Outgoing>, cut: Option<Outgoing>, torn: bool)

  function Holding(k: nat, holder: Option<Hold>): Option<Outgoing> {
    if holder.Some? && (holder.value.frame.who == Activator(k) || holder.value.frame.who == Terminator(k))
    then Some(holder.value.frame) else None
  }

  function ViewOf(s: State, k: nat): View
    requires k < |s.ops| == |s.demux.channels|
  {
    View(k, s.ops[k], s.demux.channels[k], Live(s, k), Seen(s.ops[k], StreamIdOf(k), s.inbound), |s.inbound|,
         ByOp(k, s.socket.sent), Holding(k, s.socket.holder), Holding(k, s.socket.cut), TornDown(s))
  }

  function Activate(v: View): Outgoing {
    Outgoing(Activator(v.k), ActivateOf(v.k, v.op.call))
  }

  function Terminate(v: View): Outgoing {
    Outgoing(Terminator(v.k), TerminateMessage(StreamIdOf(v.k)))
  }

  // ---- What holds of one operation ----

  /** The refinement: what was ever sent to the sink is the delivery of the messages seen, and the
      error of the teardown if that found the sink still open. */
  ghost predicate DeliveryOk(v: View) {
    v.channel.history ==
      D.Delivery(v.op.call.kind, v.seen) + if v.op.failed then [Err(ConnectionClosed)] else []
  }

  /** When the sink is registered, and what teardown did to it. */
  ghost predicate SinkOk(v: View) {
    var op := v.op;
    && (op.from.Some? <==> !op.phase.Allocated?)
    && (op.from.Some? ==>
          op.from.value <= v.now && (op.upto.Some? ==> op.from.value <= op.upto.value <= v.now))
    && (v.live <==> op.from.Some? && op.upto.None? && !op.failed && !D.Finished(op.call.kind, v.seen))
    && (op.failed ==> v.torn && !op.late && !D.Finished(op.call.kind, v.seen))
    && (op.late ==> v.torn && v.seen == [])
    && (v.torn && v.live ==> op.late)
    && (op.phase.Allocated? ==> v.seen == [] && !op.failed && !op.late && op.upto.None?)
  }

  /** Where a decided outcome comes from. */
  ghost predicate OutcomeOk(v: View, o: D.Item) {
    var h, request := v.channel.history, v.op.call.kind.Request?;
    match o
    case Ok(rpc) => request && h == [o] && v.wire == [Activate(v)]
    case Err(Service(_, _)) => h != [] && h[0] == o && v.wire == [Activate(v)]
    case Err(ConnectionClosed) => h != [] && h[0] == o && v.wire == [Activate(v)]
    case Err(Timeout(operation)) => request && operation == v.op.call.operation && v.wire == [Activate(v)]
    case Err(Io) => v.wire == []
    case Err(Framing(fault)) => fault.Unencodable? && v.wire == []
    case Err(Payload) => v.op.call.body.None? && v.wire == []
    case Err(Handshake(_)) => false
  }

  /** The outcomes that are returned without taking the sink out first. */
  predicate ReturnedInPlace(kind: D.Kind, o: D.Item) {
    o.Ok? || o.error.Payload? || (kind.Request? && (o.error.Service? || o.error.ConnectionClosed?))
  }

  ghost predicate Unread(v: View) {
    v.channel.open && v.channel.queue == v.channel.history && v.op.ack.None? && v.op.received == []
  }

  /** The receiving end: what is queued is exactly what was sent and not yet consumed. */
  ghost predicate PhaseOk(v: View) {
    var op, c := v.op, v.channel;
    && (op.upto.Some? ==> op.phase in {Closing, ClosingWrite, Closed} || op.phase.Returned?)
    && match op.phase
       case Allocated => c == D.FRESH && op.ack.None? && op.received == []
       case Inserted => Unread(v)
       case Queued => Unread(v)
       case Writing => Unread(v)
       case Waiting => Unread(v)
       case Removing(o) => OutcomeOk(v, o) && !ReturnedInPlace(op.call.kind, o)
       case Returned(o) => OutcomeOk(v, o) && (op.upto.Some? <==> !ReturnedInPlace(op.call.kind, o))
       case Abandoned => true
       case Streaming =>
         && op.call.kind.Subscription? && op.ack.Some? && op.ack.value.Ok?
         && c.open && c.history == [op.ack.value] + op.received + c.queue
       case _ =>
         && op.call.kind.Subscription? && op.ack.Some? && op.ack.value.Ok?
         && [op.ack.value] + op.received <= c.history
         && (op.upto.Some? <==> !op.phase.Dropped?)
  }

  /** The call has failed, or is about to, because its write did. */
  predicate WriteFailed(phase: Phase) {
    (phase.Removing? || phase.Returned?) && phase.outcome == Err(Io)
  }

  /** The sending end of the socket: what the operation has on the wire in every phase. */
  ghost predicate WireOk(v: View) {
    var op := v.op;
    && (op.phase.Writing? <==> v.holding == Some(Activate(v)))
    && (op.phase.ClosingWrite? <==> v.holding == Some(Terminate(v)))
    && (v.holding.Some? ==> op.phase.Writing? || op.phase.ClosingWrite?)
    && (v.wire != [] ==> op.call.body.Some?)
    && (v.cut.Some? ==>
          || (v.cut == Some(Activate(v)) && WriteFailed(op.phase))
          || (v.cut == Some(Terminate(v)) && op.phase.Closed? && v.wire == [Activate(v)]))
    && match op.phase
       case Allocated => v.wire == []
       case Inserted => v.wire == []
       case Queued => v.wire == [] && op.call.body.Some? && Encodable(ActivateOf(v.k, op.call))
       case Writing => v.wire == [] && op.call.body.Some?
       case Removing(_) => true
       case Returned(_) => true
       case Abandoned => v.wire == [] || v.wire == [Activate(v)]
       case Closed => v.wire == [Activate(v)] || v.wire == [Activate(v), Terminate(v)]
       case _ => v.wire == [Activate(v)]
  }

  ghost predicate OpOk(v: View) {
    DeliveryOk(v) && SinkOk(v) && PhaseOk(v) && WireOk(v)
  }

  ghost predicate OpsOk(s: State)
    requires |s.demux.channels| == |s.ops|
  {
    forall k | 0 <= k < |s.ops| :: OpOk(ViewOf(s, k))
  }

  // ---- Lemmas on one view ----

  /** Nothing has been delivered only if nothing has been seen; then the sink is still waiting. */
  lemma NothingQueuedMeansLive(v: View)
    requires OpOk(v) && v.channel.history == [] && v.op.from.Some? && v.op.upto.None?
    ensures v.live && v.seen == [] && !v.op.failed
  {
    D.DeliveryShape(v.op.call.kind, v.seen);
    hide PhaseOk, WireOk;
  }

  /** A request's sink has been sent nothing as long as it is registered. */
  lemma LiveRequestIsUnanswered(v: View)
    requires OpOk(v) && v.live && v.op.call.kind.Request?
    ensures v.channel.history == []
  {
    D.DeliveryShape(v.op.call.kind, v.seen);
    hide PhaseOk, WireOk, D.Delivery;
  }

  /** What may stand at the head of a channel. */
  lemma HeadItem(v: View)
    requires OpOk(v) && v.channel.history != []
    ensures v.channel.history[0].Ok? ==> !v.channel.history[0].value.messageType.ApplicationError?
    ensures v.channel.history[0].Err? ==>
              v.channel.history[0].error.Service? || v.channel.history[0].error.ConnectionClosed?
    ensures v.op.call.kind.Request? ==> v.channel.history == [v.channel.history[0]]
  {
    D.DeliveryShape(v.op.call.kind, v.seen);
    hide D.FirstClosing, PhaseOk, WireOk, D.CutOff, D.Items;
    var d := D.Delivery(v.op.call.kind, v.seen);
    assert v.op.call.kind.Request? && d != [] ==> !v.op.failed;
  }

  // ---- The operation's own acts, seen locally ----

  lemma RegisterLocal(v: View)
    requires OpOk(v) && v.op.phase.Allocated?
    ensures OpOk(v.(op := v.op.(phase := Inserted, from := Some(v.now), late := v.torn), live := true))
  {
  }

  lemma PrepareLocal(v: View, phase: Phase, channel: D.Channel)
    requires OpOk(v) && v.op.phase.Inserted?
    requires if v.op.call.body.None? then phase == Returned(Err(Payload)) && channel == v.channel.Close()
             else (phase == Removing(Err(Framing(Unencodable))) && channel == v.channel.Close())
                  || (phase == Queued && channel == v.channel && Encodable(ActivateOf(v.k, v.op.call)))
    ensures OpOk(v.(op := v.op.(phase := phase), channel := channel))
  {
    hide D.Delivery, D.Finished, Encodable, ActivateOf, TerminateMessage;
  }

  lemma AcquireLocal(v: View)
    requires OpOk(v) && v.op.phase.Queued?
    ensures OpOk(v.(op := v.op.(phase := Writing), holding := Some(Activate(v))))
  {
    hide D.Delivery, D.Finished, Encodable, ActivateOf, TerminateMessage;
  }

  lemma ReplyLocal(v: View)
    requires OpOk(v) && v.op.phase.Waiting? && v.op.call.kind.Request? && v.channel.queue != []
    ensures OpOk(v.(op := v.op.(phase := Returned(v.channel.queue[0])), channel := v.channel.Close()))
  {
    HeadItem(v);
    hide D.Delivery, D.Finished, Encodable, ActivateOf, TerminateMessage;
  }

  lemma ElapseLocal(v: View)
    requires OpOk(v) && v.op.phase.Waiting? && v.op.call.kind.Request?
    ensures OpOk(v.(op := v.op.(phase := Removing(Err(Timeout(v.op.call.operation)))), channel := v.channel.Close()))
  {
    hide D.Delivery, D.Finished, Encodable, ActivateOf, TerminateMessage;
  }

  lemma AckLocal(v: View)
    requires OpOk(v) && v.op.phase.Waiting? && v.op.call.kind.Subscription? && v.channel.queue != []
    ensures var x := v.channel.queue[0];
            if AckPhase(x).Streaming?
            then OpOk(v.(op := v.op.(phase := Streaming, ack := Some(x)), channel := v.channel.Receive()))
            else OpOk(v.(op := v.op.(phase := AckPhase(x)), channel := v.channel.Close()))
  {
    HeadItem(v);
    hide D.Delivery, D.Finished, Encodable, ActivateOf, TerminateMessage;
    var x, q := v.channel.queue[0], v.channel.queue[1..];
    assert [x] + [] + q == v.channel.queue;
  }

  lemma DeregisterLocal(v: View)
    requires OpOk(v) && v.op.phase.Removing?
    ensures OpOk(v.(op := v.op.(phase := Returned(v.op.phase.outcome), upto := Some(v.now)), live := false))
  {
    hide D.Delivery, D.Finished, Encodable, ActivateOf, TerminateMessage;
  }

  lemma AbandonLocal(v: View)
    requires OpOk(v) && (v.op.phase.Queued? || v.op.phase.Waiting?)
    ensures OpOk(v.(op := v.op.(phase := Abandoned), channel := v.channel.Close()))
  {
    hide D.Delivery, D.Finished, Encodable, ActivateOf, TerminateMessage;
  }

  lemma PollLocal(v: View)
    requires OpOk(v) && v.op.phase.Streaming? && v.channel.queue != []
    ensures OpOk(v.(op := v.op.(received := v.op.received + [v.channel.queue[0]]), channel := v.channel.Receive()))
  {
    hide D.Delivery, D.Finished, Encodable, ActivateOf, TerminateMessage;
    var x, q := v.channel.queue[0], v.channel.queue[1..];
    assert [v.op.ack.value] + (v.op.received + [x]) + q == [v.op.ack.value] + v.op.received + v.channel.queue;
  }

  lemma DropLocal(v: View)
    requires OpOk(v) && v.op.phase.Streaming?
    ensures OpOk(v.(op := v.op.(phase := Dropped), channel := v.channel.Close()))
  {
    hide D.Delivery, D.Finished, Encodable, ActivateOf, TerminateMessage;
  }

  lemma CloseRemoveLocal(v: View)
    requires OpOk(v) && v.op.phase.Dropped?
    ensures OpOk(v.(op := v.op.(phase := Closing, upto := Some(v.now)), live := false))
  {
    hide D.Delivery, D.Finished, Encodable, ActivateOf, TerminateMessage;
  }

  lemma AcquireCloseLocal(v: View)
    requires OpOk(v) && v.op.phase.Closing?
    ensures OpOk(v.(op := v.op.(phase := ClosingWrite), holding := Some(Terminate(v))))
  {
    hide D.Delivery, D.Finished, Encodable, ActivateOf, TerminateMessage;
  }

  lemma FinishLocal(v: View)
    requires OpOk(v) && v.holding.Some?
    ensures var phase := if v.op.phase.Writing? then Waiting else Closed;
            OpOk(v.(op := v.op.(phase := phase), holding := None, wire := v.wire + [v.holding.value]))
  {
    hide D.Delivery, D.Finished, Encodable, ActivateOf, TerminateMessage;
  }

  lemma WriteErrorLocal(v: View, first: bool)
    requires OpOk(v) && v.holding.Some?
    ensures var cut := if first then v.holding else v.cut;
            if v.op.phase.Writing?
            then OpOk(v.(op := v.op.(phase := Removing(Err(Io))), channel := v.channel.Close(),
                         holding := None, cut := cut))
            else OpOk(v.(op := v.op.(phase := Closed), holding := None, cut := cut))
  {
    hide D.Delivery, D.Finished, Encodable, ActivateOf, TerminateMessage;
  }

  /** A message dispatched on the operation's stream: it reaches a live sink, and is discarded
      otherwise. */
  lemma ReceiveLocal(v: View, x: Rpc)
    requires OpOk(v) && !v.torn && v.op.from.Some? && v.op.upto.None?
    ensures var seen, kind := v.seen + [x], v.op.call.kind;
            OpOk(if v.live then v.(channel := v.channel.Send(D.ItemOf(x)), seen := seen, now := v.now + 1,
                                   live := !D.Closes(kind, x))
                 else v.(seen := seen, now := v.now + 1))
  {
    D.DeliverySnoc(v.op.call.kind, v.seen, x);
    hide D.Delivery, D.Finished, D.Closes, D.ItemOf, Encodable, ActivateOf, TerminateMessage;
    if v.live {
      SendGrows(v, D.ItemOf(x));
    }
  }

  /** Sending keeps every phase's account of the channel, as long as nothing was decided from an
      empty one. */
  lemma SendGrows(v: View, x: D.Item)
    requires OpOk(v) && v.live
    ensures PhaseOk(v.(channel := v.channel.Send(x)))
  {
    if v.op.call.kind.Request? {
      LiveRequestIsUnanswered(v);
    }
    hide D.Delivery, D.Finished, Encodable, ActivateOf, TerminateMessage;
  }

  /** Teardown: an open sink gets the error, the others notice nothing. */
  lemma FailLocal(v: View)
    requires OpOk(v) && !v.torn
    ensures OpOk(if v.live then v.(op := v.op.(failed := true), channel := v.channel.Send(Err(ConnectionClosed)),
                                   live := false, torn := true)
                 else v.(torn := true))
  {
    hide D.Delivery, D.Finished, Encodable, ActivateOf, TerminateMessage;
    if v.live {
      SendGrows(v, Err(ConnectionClosed));
    }
  }

  /** Time passing elsewhere changes nothing. */
  lemma LaterLocal(v: View, now: nat)
    requires OpOk(v) && v.now <= now
    ensures OpOk(v.(now := now))
  {
    hide D.Delivery, D.Finished, Encodable, ActivateOf, TerminateMessage;
  }
}
