/** The consumer's end of a subscription. */
module Client {
  import opened Bytes
  import opened Connection
  import opened Frame
  import opened Messages
  import opened RpcMessage
  import opened Transport
  import Demux

  datatype Poll = Pending | Ready(item: Option<Demux.Item>)

  /** The consumer's account of its channel: what it was given, the acknowledgement first, and then what
      is queued, is everything ever sent; once it is dropped, nothing is queued and what it was given is
      a prefix of that. */
  ghost predicate AccountOk(d: Demux.State, op: nat, closed: bool, given: seq<Demux.Item>) {
    && op < |d.channels|
    && (!closed ==> d.channels[op].open && d.channels[op].history == given + d.channels[op].queue)
    && (closed ==> !d.channels[op].open && d.channels[op].queue == [] && given <= d.channels[op].history)
  }

  /** Nothing that anyone else does to the connection upsets a consumer's account. */
  lemma AccountsSurvive(
      d: Demux.State, op: nat, closed: bool, given: seq<Demux.Item>, rpc: Rpc, e: Error, sid: int32, sink: Demux.Sink,
      other: nat)
    requires Demux.Valid(d) && AccountOk(d, op, closed, given) && other < |d.channels| && other != op
    ensures AccountOk(Demux.Dispatch(d, rpc), op, closed, given)
    ensures AccountOk(Demux.FailAll(d, e), op, closed, given)
    ensures AccountOk(d.(closed := true), op, closed, given)
    ensures AccountOk(Demux.Alloc(d), op, closed, given)
    ensures AccountOk(Demux.Register(d, sid, sink), op, closed, given)
    ensures AccountOk(Demux.Remove(d, sid), op, closed, given)
    ensures AccountOk(Demux.Close(d, other), op, closed, given)
    ensures d.channels[other].queue != [] ==>
              AccountOk(d.(channels := d.channels[other := d.channels[other].Receive()]), op, closed, given)
  {
    hide Demux.ItemOf, Demux.Closes, Demux.Registered, Wrap32;
    SendKeepsAccount(d.channels[op], given, Demux.ItemOf(rpc));
    SendKeepsAccount(d.channels[op], given, Err(e));
  }

  lemma SendKeepsAccount(c: Demux.Channel, given: seq<Demux.Item>, x: Demux.Item)
    ensures c.open && c.history == given + c.queue ==> c.Send(x).history == given + c.Send(x).queue
    ensures given <= c.history ==> given <= c.Send(x).history
  {
    assert given + c.queue + [x] == given + (c.queue + [x]);
  }

  /** A subscription that has been acknowledged. It shares the connection and owns the receiving end
      of its operation's channel; `received` is the items it has yielded. */
  class EventStream {
    const conn: Connection
    const streamId: int32
    const op: nat
    ghost const ack: Demux.Item
    var closed: bool
    ghost var received: seq<Demux.Item>

    ghost predicate Valid()
      reads this, conn
    {
      AccountOk(conn.State(), op, closed, [ack] + received)
    }

    constructor (conn: Connection, streamId: int32, op: nat, ghost ack: Demux.Item)
      requires op < |conn.channels| && conn.channels[op].open
      requires conn.channels[op].history == [ack] + conn.channels[op].queue
      ensures Valid() && this.conn == conn && this.streamId == streamId && this.op == op && this.ack == ack
      ensures !closed && received == []
    {
      this.conn, this.streamId, this.op, this.ack := conn, streamId, op, ack;
      closed, received := false, [];
      new;
      assert [ack] + [] == [ack];
    }

    /** Yields the next item; the stream ends once the channel is empty and its sender is gone. */
    method PollNext() returns (r: Poll)
      requires Valid() && !closed
      modifies this, conn`channels
      ensures Valid() && !closed
      ensures old(conn.channels[op].queue) != [] ==>
                var x := old(conn.channels[op].queue[0]);
                && r == Ready(Some(x)) && received == old(received) + [x]
                && conn.channels == old(conn.channels)[op := old(conn.channels[op]).Receive()]
      ensures old(conn.channels[op].queue) == [] ==>
                && received == old(received) && conn.channels == old(conn.channels)
                && r == if conn.HasSender(streamId, op) then Pending else Ready(None)
    {
      var queue := conn.channels[op].queue;
      if queue == [] {
        return if conn.HasSender(streamId, op) then Pending else Ready(None);
      }
      conn.channels := conn.channels[op := conn.channels[op].Receive()];
      received := received + [queue[0]];
      assert queue == [queue[0]] + queue[1..];
      return Ready(Some(queue[0]));
    }

    /** Drops the receiving end; whether a close task has to be spawned, which it is only once. */
    method Drop() returns (spawnClose: bool)
      requires Valid()
      modifies this`closed, conn`channels
      ensures Valid() && closed && received == old(received)
      ensures spawnClose <==> !old(closed)
      ensures conn.channels == if spawnClose then old(conn.channels)[op := old(conn.channels[op]).Close()]
                               else old(conn.channels)
    {
      spawnClose := !closed;
      if spawnClose {
        closed := true;
        conn.channels := conn.channels[op := conn.channels[op].Close()];
      }
    }
  }

  /** What `subscribe` does once the first item has come in, or cannot come any more: an acknowledgement
      turns into an EventStream for everything sent after it, anything else into an error. */
  method FinishSubscribe(conn: Connection, sid: int32, op: nat) returns (r: Result<EventStream, Error>)
    requires conn.Valid() && op < |conn.channels|
    requires conn.channels[op].open && conn.channels[op].queue == conn.channels[op].history
    requires conn.channels[op].queue != [] || !conn.HasSender(sid, op)
    modifies conn
    ensures conn.Valid()
    ensures var queue := old(conn.channels[op].queue);
            && (r.Ok? <==> queue != [] && queue[0].Ok? && !queue[0].value.messageType.ApplicationError?)
            && (queue == [] ==> r == Err(ConnectionClosed))
            && (queue != [] && queue[0].Err? ==> r == Err(queue[0].error))
            && (queue != [] && queue[0].Ok? && queue[0].value.messageType.ApplicationError? ==>
                  r.Err? && Demux.Reports(Err(r.error), queue[0].value))
    ensures conn.channels == old(conn.channels)[op := if r.Ok? then old(conn.channels[op]).Receive()
                                                      else old(conn.channels[op]).Close()]
    ensures conn.registry == (if r.Ok? then old(conn.registry) else old(conn.registry) - {sid})
    ensures conn.nextStreamId == old(conn.nextStreamId) && conn.closed == old(conn.closed)
    ensures r.Ok? ==>
              && fresh(r.value) && r.value.Valid() && !r.value.closed && r.value.conn == conn
              && r.value.streamId == sid && r.value.op == op
              && r.value.ack == old(conn.channels[op].queue[0]) && r.value.received == []
  {
    if conn.channels[op].queue != [] && conn.channels[op].queue[0].Ok? {
      Demux.ItemReports(conn.channels[op].queue[0].value);
    }
    hide Demux.Reports, Demux.ServiceErrorFrom;
    var ack := TakeAck(conn, sid, op);
    match ack {
      case Err(e) => return Err(e);
      case Ok(_) =>
        var stream := new EventStream(conn, sid, op, ack);
        return Ok(stream);
    }
  }

  /** Dropping an EventStream and running the close task it spawns: the sink is gone and, the first
      time, exactly one terminate frame has been written. */
  method DropAndClose(stream: EventStream, out: WriteHalf)
    requires stream.Valid() && stream.conn.Valid()
    modifies stream, stream.conn, out
    ensures stream.Valid() && stream.closed && stream.conn.Valid()
    ensures old(stream.closed) ==>
              && out.written == old(out.written) && out.capacity == old(out.capacity)
              && stream.conn.State() == old(stream.conn.State())
    ensures !old(stream.closed) ==>
              && stream.op < |old(stream.conn.channels)|
              && stream.conn.State() == Demux.Remove(Demux.Close(old(stream.conn.State()), stream.op), stream.streamId)
              && Encodable(TerminateMessage(stream.streamId))
              && var b := Encode(TerminateMessage(stream.streamId));
                 && out.written == old(out.written) + Take(b, old(out.capacity))
                 && out.capacity == Left(|b|, old(out.capacity))
                 && (!old(out.Accepts(|b|)) ==> out.shut && out.Broken())
  {
    hide Encode, Encodable, TerminateMessage;
    TerminateEncodable(stream.streamId);
    var spawn := stream.Drop();
    if spawn {
      CloseStream(stream.conn, stream.streamId, out);
    }
  }
}
