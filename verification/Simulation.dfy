/** The methods of the connection and of the event stream, as runs of the transition system: each ends
    in the very state that its events lead to, and returns what the operation's phase says. */
module Simulation {
  import opened Bytes
  import opened Frame
  import opened RpcMessage
  import opened Messages
  import opened Transport
  import opened System
  import opened Invariant
  import opened Preservation
  import opened Runs
  import Connection
  import Client
  import D = Demux
  import ReadLoop

  /** The objects are in the state of the transition system, and nobody is in the middle of a write;
      `base` is what was written before, in the handshake. Only what writes needs this; everything else
      needs `conn.State() == s.demux` alone, and leaves the socket as it is, held or not. */
  ghost predicate Linked(conn: Connection.Connection, out: WriteHalf, base: bytes, s: State)
    reads conn, out
  {
    conn.State() == s.demux && WriterLinked(out, base, s)
  }

  ghost predicate WriterLinked(out: WriteHalf, base: bytes, s: State)
    reads out
  {
    && out.written == base + s.socket.out && s.socket.holder.None? && CapacityOk(s.socket, out.capacity)
  }

  /** A successful handshake leaves a new connection in the initial state. */
  method Connect(payload: Option<bytes>, reader: FramedReader, out: WriteHalf)
      returns (r: Result<Connection.Connection, Error>)
    requires reader.Valid() && reader.Held() == []
    modifies reader, reader.readHalf, out
    ensures r.Ok? ==>
              && fresh(r.value) && reader.Valid() && payload.Some? && Encodable(ConnectMessage(payload.value))
              && Linked(r.value, out, old(out.written) + Encode(ConnectMessage(payload.value)), INITIAL)
    ensures WellFormed(INITIAL) && INITIAL.reader.Reading?
  {
    hide Encode, Encodable, ConnectMessage, FirstFrame, Connection.HandshakeVerdict, StreamIdOf, WellFormed;
    InitialWellFormed();
    r := Connection.Connect(payload, reader, out);
    assert out.written + [] == out.written;
  }

  lemma InitialWellFormed()
    ensures WellFormed(INITIAL)
  {
  }

  // ---- Opening a stream ----

  /** Taking a stream-id and inserting the sink. */
  lemma StartRuns(s: State, call: Call) returns (t: State)
    requires WellFormed(s) && |s.demux.channels| == |s.ops|
    ensures var k := |s.ops|;
            && Execute(s, [Alloc(call)] + [Own(k, Register)]) == Some(t) && WellFormed(t)
            && t.ops == s.ops + [Op(call, Inserted, None, [], Some(|s.inbound|), None, false, TornDown(s))]
            && t.demux == D.Register(D.Alloc(s.demux), StreamIdOf(k), D.Sink(call.kind, k))
            && t == s.(ops := t.ops, demux := t.demux)
  {
    hide WellFormed, StreamIdOf, Wrap32;
    var k := |s.ops|;
    NoEvents(s);
    var u := ThenStep(s, [], s, Alloc(call));
    assert [] + [Alloc(call)] == [Alloc(call)];
    t := ThenAct(s, [Alloc(call)], u, k, Register);
    assert t.ops == s.ops + [Op(call, Inserted, None, [], Some(|s.inbound|), None, false, TornDown(s))];
  }

  /** From waiting for the write lock to the end of the write, and out again if it failed. */
  function SendEvents(k: nat, m: Message, capacity: Option<nat>): seq<Event>
    requires Encodable(m)
  {
    [Own(k, Acquire)] + WriteEvents(m, capacity) + if Fits(m, capacity) then [] else [Own(k, Deregister)]
  }

  lemma SendRuns(s: State, k: nat, capacity: Option<nat>) returns (t: State)
    requires WellFormed(s) && |s.demux.channels| == |s.ops| && k < |s.ops| && s.ops[k].phase.Queued?
    requires s.socket.holder.None? && CapacityOk(s.socket, capacity) && Encodable(ActivateOf(k, s.ops[k].call))
    ensures var m := ActivateOf(k, s.ops[k].call);
            var fits := Fits(m, capacity);
            && Execute(s, SendEvents(k, m, capacity)) == Some(t) && WellFormed(t)
            && t.socket == SocketAfter(s.socket, Outgoing(Activator(k), m), capacity)
            && CapacityOk(t.socket, Left(|Encode(m)|, capacity))
            && t.demux == (if fits then s.demux else D.Close(D.Remove(s.demux, StreamIdOf(k)), k))
            && t.ops == s.ops[k := s.ops[k].(phase := if fits then Waiting else Returned(Err(Io)),
                                             upto := if fits then s.ops[k].upto else Some(|s.inbound|))]
            && t == s.(ops := t.ops, demux := t.demux, socket := t.socket)
  {
    hide WellFormed, StreamIdOf, Encode, Encodable, ActivateOf, Execute, Live, WriteEvents, SocketAfter, Fits;
    var m := ActivateOf(k, s.ops[k].call);
    var o := Outgoing(Activator(k), m);
    NoEvents(s);
    var u := ThenAct(s, [], s, k, Acquire);
    assert [] + [Own(k, Acquire)] == [Own(k, Acquire)];
    var v := WriteRuns(u, o, capacity);
    ThenRun(s, [Own(k, Acquire)], u, WriteEvents(m, capacity));
    var run := [Own(k, Acquire)] + WriteEvents(m, capacity);
    HolderIrrelevant(s.socket, o, capacity);
    SameLength(v);
    if Fits(m, capacity) {
      t := v;
      assert run + [] == run;
      assert t.ops == s.ops[k := s.ops[k].(phase := Waiting)];
      assert t.demux.channels == s.demux.channels;
    } else {
      t := ThenAct(s, run, v, k, Deregister);
      assert t.ops == s.ops[k := s.ops[k].(phase := Returned(Err(Io)), upto := Some(|s.inbound|))];
      assert t.demux.channels == s.demux.channels[k := s.demux.channels[k].Close()];
    }
  }

  lemma HolderIrrelevant(socket: Socket, o: Outgoing, capacity: Option<nat>)
    requires Encodable(o.message)
    ensures SocketAfter(socket.(holder := Some(Hold(o, 0))), o, capacity) == SocketAfter(socket, o, capacity)
  {
    hide Encode, Encodable;
  }

  /** The first half of a call. */
  function OpenEvents(k: nat, call: Call, capacity: Option<nat>): seq<Event> {
    [Alloc(call)] + [Own(k, Register)] + [Own(k, Prepare)] +
    if call.body.None? then []
    else if !Encodable(ActivateOf(k, call)) then [Own(k, Deregister)]
    else SendEvents(k, ActivateOf(k, call), capacity)
  }

  /** What the first half of a call comes to. */
  function OpenOutcome(k: nat, call: Call, capacity: Option<nat>): Result<(), Error> {
    if call.body.None? then Err(Payload)
    else if !Encodable(ActivateOf(k, call)) then Err(Framing(Unencodable))
    else if Fits(ActivateOf(k, call), capacity) then Ok(())
    else Err(Io)
  }

  lemma OpenRuns(s: State, call: Call, capacity: Option<nat>) returns (t: State)
    requires WellFormed(s) && |s.demux.channels| == |s.ops|
    requires s.socket.holder.None? && CapacityOk(s.socket, capacity)
    ensures var k, m, r := |s.ops|, ActivateOf(|s.ops|, call), OpenOutcome(|s.ops|, call, capacity);
            var inserted := D.Register(D.Alloc(s.demux), StreamIdOf(k), D.Sink(call.kind, k));
            var written := call.body.Some? && Encodable(m);
            && Execute(s, OpenEvents(k, call, capacity)) == Some(t) && WellFormed(t)
            && t.demux == (if r.Ok? then inserted else if r.error.Payload? then D.Close(inserted, k)
                           else D.Close(D.Remove(inserted, StreamIdOf(k)), k))
            && t.socket == (if written then SocketAfter(s.socket, Outgoing(Activator(k), m), capacity) else s.socket)
            && CapacityOk(t.socket, if written then Left(|Encode(m)|, capacity) else capacity)
            && |t.ops| == k + 1 && s.ops <= t.ops
            && t.ops[k].phase == (if r.Ok? then Waiting else Returned(Err(r.error)))
            && t == s.(ops := t.ops, demux := t.demux, socket := t.socket)
  {
    hide WellFormed, StreamIdOf, Encode, Encodable, ActivateOf, Execute, Live, SendEvents, SocketAfter, Fits, D.Alloc;
    var k, m := |s.ops|, ActivateOf(|s.ops|, call);
    var u := StartRuns(s, call);
    SameLength(u);
    var start := [Alloc(call)] + [Own(k, Register)];
    var v := ThenAct(s, start, u, k, Prepare);
    var run := start + [Own(k, Prepare)];
    if call.body.None? {
      t := v;
      assert run + [] == run;
    } else if !Encodable(m) {
      t := ThenAct(s, run, v, k, Deregister);
    } else {
      assert v.ops[k].call == call;
      t := SendRuns(v, k, capacity);
      ThenRun(s, run, v, SendEvents(k, m, capacity));
    }
  }

  /** The first half of `request` and `subscribe`, run undisturbed, is the run `OpenEvents`. */
  method Open(conn: Connection.Connection, call: Call, out: WriteHalf, ghost base: bytes, ghost s: State)
      returns (r: Result<(), Error>, sid: int32, op: nat, ghost t: State)
    requires WellFormed(s) && Linked(conn, out, base, s)
    modifies conn, out
    ensures op == |s.ops| && sid == StreamIdOf(op) && r == OpenOutcome(op, call, old(out.capacity))
    ensures Execute(s, OpenEvents(op, call, old(out.capacity))) == Some(t)
    ensures WellFormed(t) && Linked(conn, out, base, t)
    ensures |t.ops| == op + 1 && t.ops[op].phase == if r.Ok? then Waiting else Returned(Err(r.error))
  {
    hide WellFormed, StreamIdOf, Encode, Encodable, Execute, OpenEvents, ActivateMessage;
    SameLength(s);
    NextIdOf(s);
    t := OpenRuns(s, call, out.capacity);
    SocketAfterOut(s.socket, Outgoing(Activator(|s.ops|), ActivateOf(|s.ops|, call)), out.capacity, base);
    r, sid, op := Connection.Open(conn, call.kind, call.operation, call.model, call.body, out);
  }

  lemma NextIdOf(s: State)
    requires WellFormed(s)
    ensures D.Valid(s.demux) && s.demux.nextId == StreamIdOf(|s.ops|)
  {
    hide StreamIdOf;
    WellFormedIsValid(s);
  }

  lemma SocketAfterOut(socket: Socket, o: Outgoing, capacity: Option<nat>, base: bytes)
    ensures Encodable(o.message) ==>
              var after := SocketAfter(socket, o, capacity);
              && after.out == socket.out + Take(Encode(o.message), capacity) && after.holder.None?
              && base + after.out == base + socket.out + Take(Encode(o.message), capacity)
  {
    hide Encode, Encodable, Take;
  }

  // ---- The second halves ----

  function AwaitEvents(s: State, k: nat): seq<Event>
    requires k < |s.demux.channels|
  {
    if s.demux.channels[k].queue != [] then [Own(k, Reply)]
    else if Live(s, k) then [Own(k, Elapse)] + [Own(k, Deregister)]
    else [Own(k, SenderGone)]
  }

  lemma AwaitRuns(s: State, k: nat) returns (t: State)
    requires WellFormed(s) && |s.demux.channels| == |s.ops| && k < |s.ops|
    requires s.ops[k].phase.Waiting? && s.ops[k].call.kind.Request?
    ensures var queue := s.demux.channels[k].queue;
            && Execute(s, AwaitEvents(s, k)) == Some(t) && WellFormed(t) && |t.ops| == |s.ops|
            && t.demux == (if queue == [] && Live(s, k) then D.Close(D.Remove(s.demux, StreamIdOf(k)), k)
                           else D.Close(s.demux, k))
            && t.ops[k].phase == Returned(if queue != [] then queue[0]
                                          else if Live(s, k) then Err(Timeout(s.ops[k].call.operation))
                                          else Err(ConnectionClosed))
            && t == s.(ops := t.ops, demux := t.demux)
  {
    hide WellFormed, StreamIdOf, Encodable, ActivateOf, Execute;
    NoEvents(s);
    var act := if s.demux.channels[k].queue != [] then Reply else if Live(s, k) then Elapse else SenderGone;
    var u := ThenAct(s, [], s, k, act);
    assert [] + [Own(k, act)] == [Own(k, act)];
    if act.Elapse? {
      t := ThenAct(s, [Own(k, act)], u, k, Deregister);
    } else {
      t := u;
    }
  }

  /** The second half of `request` is a reply, or the timeout and the removal, or the report that the
      sender is gone; and it returns what the operation then has as its outcome. */
  method AwaitReply(conn: Connection.Connection, k: nat, operation: bytes, sid: int32, ghost s: State)
      returns (r: D.Item, ghost t: State)
    requires WellFormed(s) && conn.State() == s.demux && |s.demux.channels| == |s.ops| && k < |s.ops|
    requires s.ops[k].phase.Waiting? && s.ops[k].call.kind.Request?
    requires sid == StreamIdOf(k) && operation == s.ops[k].call.operation
    modifies conn
    ensures Execute(s, AwaitEvents(s, k)) == Some(t) && WellFormed(t)
    ensures conn.State() == t.demux && t.socket == s.socket && t.reader == s.reader
    ensures |t.ops| == |s.ops| && t.ops[k].phase == Returned(r)
  {
    hide WellFormed, StreamIdOf, Execute, AwaitEvents;
    NextIdOf(s);
    t := AwaitRuns(s, k);
    r := Connection.AwaitReply(conn, sid, k, operation);
  }

  function AckEvents(s: State, k: nat): seq<Event>
    requires k < |s.demux.channels|
  {
    var queue := s.demux.channels[k].queue;
    if queue == [] then [Own(k, SenderGone)] + [Own(k, Deregister)]
    else if AckPhase(queue[0]).Streaming? then [Own(k, Ack)]
    else [Own(k, Ack)] + [Own(k, Deregister)]
  }

  lemma AckRuns(s: State, k: nat) returns (t: State)
    requires WellFormed(s) && |s.demux.channels| == |s.ops| && k < |s.ops|
    requires s.ops[k].phase.Waiting? && s.ops[k].call.kind.Subscription?
    requires s.demux.channels[k].queue != [] || !Live(s, k)
    ensures var queue := s.demux.channels[k].queue;
            var phase := if queue == [] then Removing(Err(ConnectionClosed)) else AckPhase(queue[0]);
            && Execute(s, AckEvents(s, k)) == Some(t) && WellFormed(t) && |t.ops| == |s.ops|
            && (phase.Streaming? ==>
                  && t.demux == s.demux.(channels := s.demux.channels[k := s.demux.channels[k].Receive()])
                  && t.ops[k] == s.ops[k].(phase := Streaming, ack := Some(queue[0])))
            && (phase.Removing? ==>
                  && t.demux == D.Close(D.Remove(s.demux, StreamIdOf(k)), k)
                  && t.ops[k].phase == Returned(phase.outcome))
            && t == s.(ops := t.ops, demux := t.demux)
  {
    hide WellFormed, StreamIdOf, Encodable, ActivateOf, Execute, D.ServiceErrorFrom;
    NoEvents(s);
    var act := if s.demux.channels[k].queue == [] then SenderGone else Ack;
    var u := ThenAct(s, [], s, k, act);
    assert [] + [Own(k, act)] == [Own(k, act)];
    if u.ops[k].phase.Removing? {
      t := ThenAct(s, [Own(k, act)], u, k, Deregister);
    } else {
      t := u;
    }
  }

  /** The second half of `subscribe`: an acknowledgement is consumed and the operation streams; anything
      else takes the sink out and is returned. */
  method TakeAck(conn: Connection.Connection, k: nat, sid: int32, ghost s: State)
      returns (r: D.Item, ghost t: State)
    requires WellFormed(s) && conn.State() == s.demux && |s.demux.channels| == |s.ops| && k < |s.ops|
    requires s.ops[k].phase.Waiting? && s.ops[k].call.kind.Subscription?
    requires s.demux.channels[k].queue != [] || !Live(s, k)
    requires sid == StreamIdOf(k)
    modifies conn
    ensures Execute(s, AckEvents(s, k)) == Some(t) && WellFormed(t)
    ensures conn.State() == t.demux && t.socket == s.socket && t.reader == s.reader
    ensures |t.ops| == |s.ops|
    ensures if r.Ok? then t.ops[k].phase.Streaming? && t.ops[k].ack == Some(r) else t.ops[k].phase == Returned(r)
  {
    hide WellFormed, StreamIdOf, Execute, AckEvents, D.ServiceErrorFrom;
    NextIdOf(s);
    t := AckRuns(s, k);
    r := Connection.TakeAck(conn, sid, k);
  }

  // ---- Closing a stream ----

  function CloseEvents(k: nat, capacity: Option<nat>): seq<Event> {
    TerminateEncodable(StreamIdOf(k));
    [Own(k, CloseRemove)] + [Own(k, AcquireClose)] + WriteEvents(TerminateMessage(StreamIdOf(k)), capacity)
  }

  lemma CloseRuns(s: State, k: nat, capacity: Option<nat>) returns (t: State)
    requires WellFormed(s) && |s.demux.channels| == |s.ops| && k < |s.ops| && s.ops[k].phase.Dropped?
    requires s.socket.holder.None? && CapacityOk(s.socket, capacity)
    ensures var m := TerminateMessage(StreamIdOf(k));
            && Execute(s, CloseEvents(k, capacity)) == Some(t) && WellFormed(t)
            && Encodable(m) && t.socket == SocketAfter(s.socket, Outgoing(Terminator(k), m), capacity)
            && CapacityOk(t.socket, Left(|Encode(m)|, capacity))
            && t.demux == D.Remove(s.demux, StreamIdOf(k))
            && t.ops == s.ops[k := s.ops[k].(phase := Closed, upto := Some(|s.inbound|))]
            && t == s.(ops := t.ops, demux := t.demux, socket := t.socket)
  {
    hide WellFormed, StreamIdOf, Encode, Encodable, TerminateMessage, Execute, Live, WriteEvents, SocketAfter, Fits;
    TerminateEncodable(StreamIdOf(k));
    var m := TerminateMessage(StreamIdOf(k));
    var o := Outgoing(Terminator(k), m);
    NoEvents(s);
    var u := ThenAct(s, [], s, k, CloseRemove);
    assert [] + [Own(k, CloseRemove)] == [Own(k, CloseRemove)];
    var v := ThenAct(s, [Own(k, CloseRemove)], u, k, AcquireClose);
    t := WriteRuns(v, o, capacity);
    ThenRun(s, [Own(k, CloseRemove)] + [Own(k, AcquireClose)], v, WriteEvents(m, capacity));
    HolderIrrelevant(s.socket, o, capacity);
    assert t.ops == s.ops[k := s.ops[k].(phase := Closed, upto := Some(|s.inbound|))];
    assert t.demux.channels == s.demux.channels;
  }

  /** The close task: the sink goes, and a terminate frame, or what the socket takes of it, comes out. */
  method CloseStream(conn: Connection.Connection, k: nat, sid: int32, out: WriteHalf, ghost base: bytes, ghost s: State)
      returns (ghost t: State)
    requires WellFormed(s) && Linked(conn, out, base, s) && |s.demux.channels| == |s.ops| && k < |s.ops|
    requires s.ops[k].phase.Dropped? && sid == StreamIdOf(k)
    modifies conn, out
    ensures Execute(s, CloseEvents(k, old(out.capacity))) == Some(t) && WellFormed(t) && Linked(conn, out, base, t)
    ensures |t.ops| == |s.ops| && t.ops[k].phase.Closed?
  {
    hide WellFormed, StreamIdOf, Encode, Encodable, Execute, CloseEvents, TerminateMessage;
    NextIdOf(s);
    t := CloseRuns(s, k, out.capacity);
    SocketAfterOut(s.socket, Outgoing(Terminator(k), TerminateMessage(StreamIdOf(k))), out.capacity, base);
    Connection.CloseStream(conn, sid, out);
  }

  // ---- The event stream ----

  /** The event stream is that of operation k, which has been given the same items. */
  ghost predicate SameStream(stream: Client.EventStream, s: State, k: nat)
    reads stream
  {
    && stream.op == k && stream.streamId == StreamIdOf(k) && k < |s.ops|
    && s.ops[k].ack == Some(stream.ack) && s.ops[k].received == stream.received
    && (stream.closed <==> !s.ops[k].phase.Streaming?)
  }

  /** Finishing `subscribe` is the same run as taking the acknowledgement: it yields the event stream of an
      operation that streams, or the error the operation has as its outcome. */
  method FinishSubscribe(conn: Connection.Connection, k: nat, sid: int32, ghost s: State)
      returns (r: Result<Client.EventStream, Error>, ghost t: State)
    requires WellFormed(s) && conn.State() == s.demux && |s.demux.channels| == |s.ops| && k < |s.ops|
    requires s.ops[k].phase.Waiting? && s.ops[k].call.kind.Subscription? && s.ops[k].received == []
    requires s.demux.channels[k].open && s.demux.channels[k].queue == s.demux.channels[k].history
    requires s.demux.channels[k].queue != [] || !Live(s, k)
    requires sid == StreamIdOf(k)
    modifies conn
    ensures Execute(s, AckEvents(s, k)) == Some(t) && WellFormed(t)
    ensures conn.State() == t.demux && t.socket == s.socket && t.reader == s.reader && |t.ops| == |s.ops|
    ensures r.Ok? ==> fresh(r.value) && r.value.Valid() && t.ops[k].phase.Streaming? && SameStream(r.value, t, k)
    ensures r.Err? ==> t.ops[k].phase == Returned(Err(r.error))
  {
    hide WellFormed, StreamIdOf, Execute, AckEvents, D.Reports;
    NextIdOf(s);
    t := AckRuns(s, k);
    var queue := s.demux.channels[k].queue;
    r := Client.FinishSubscribe(conn, sid, k);
    if queue != [] && queue[0].Ok? && queue[0].value.messageType.ApplicationError? {
      ReportedError(queue[0].value, r.error);
    }
  }

  /** A service error is determined by what it reports. */
  lemma ReportedError(rpc: Rpc, e: Error)
    requires rpc.messageType.ApplicationError? && D.Reports(Err(e), rpc)
    ensures e == D.ServiceErrorFrom(rpc)
  {
    D.ItemReports(rpc);
    hide Ascii;
    if rpc.model.None? {
      assert Spells(DEFAULT_ERROR_MODEL, "aws.greengrass#ServiceError") by { ProtocolTexts(); }
      assert e.model == DEFAULT_ERROR_MODEL;
    }
  }

  /** Polling takes the next item off the channel, or is no event at all. */
  method PollNext(stream: Client.EventStream, k: nat, ghost s: State)
      returns (r: Client.Poll, ghost t: State)
    requires WellFormed(s) && stream.conn.State() == s.demux && |s.demux.channels| == |s.ops|
    requires stream.Valid() && !stream.closed && SameStream(stream, s, k)
    modifies stream, stream.conn`channels
    ensures var queue := s.demux.channels[k].queue;
            && Execute(s, if queue != [] then [Own(k, Poll)] else []) == Some(t)
            && r == (if queue != [] then Client.Ready(Some(queue[0])) else if Live(s, k) then Client.Pending
                     else Client.Ready(None))
    ensures WellFormed(t) && stream.conn.State() == t.demux && t.socket == s.socket && t.reader == s.reader
    ensures stream.Valid() && !stream.closed && SameStream(stream, t, k)
  {
    hide WellFormed, StreamIdOf, Execute, Encodable, ActivateOf, Encode;
    NoEvents(s);
    t := s;
    if s.demux.channels[k].queue != [] {
      t := ThenAct(s, [], s, k, Poll);
      assert [] + [Own(k, Poll)] == [Own(k, Poll)];
    }
    r := stream.PollNext();
  }

  /** Dropping the event stream is the operation's `Drop`, the first time. */
  method Drop(stream: Client.EventStream, k: nat, ghost s: State)
      returns (spawnClose: bool, ghost t: State)
    requires WellFormed(s) && stream.conn.State() == s.demux && |s.demux.channels| == |s.ops|
    requires stream.Valid() && SameStream(stream, s, k)
    modifies stream, stream.conn`channels
    ensures Execute(s, if old(stream.closed) then [] else [Own(k, Act.Drop)]) == Some(t)
    ensures WellFormed(t) && stream.conn.State() == t.demux && t.socket == s.socket && t.reader == s.reader
    ensures spawnClose == !old(stream.closed) && stream.Valid() && SameStream(stream, t, k)
    ensures spawnClose ==> t.ops[k].phase.Dropped?
  {
    hide WellFormed, StreamIdOf, Execute, Encodable, ActivateOf, Encode;
    NoEvents(s);
    t := s;
    if !stream.closed {
      t := ThenAct(s, [], s, k, Act.Drop);
      assert [] + [Own(k, Act.Drop)] == [Own(k, Act.Drop)];
    }
    spawnClose := stream.Drop();
  }

  // ---- The read loop ----

  /** One frame read and, for a ping, answered. */
  function ReadEvents(m: Message, capacity: Option<nat>): seq<Event> {
    if ReadLoop.ReplyMessages(m) == [] then [Read(m)]
    else [Read(m)] + [AcquirePong] + WriteEvents(ReadLoop.ReplyMessages(m)[0], capacity)
  }

  /** The reader and the socket have moved on by the frames in between. */
  ghost predicate Served(s: State, t: State, d: D.State, replies: seq<Message>, broken: bool, capacity: Option<nat>)
    requires AllEncodable(replies)
  {
    && t.demux == d && t.ops == s.ops && t.reader == (if broken then Stopping else Reading)
    && t.socket.out == s.socket.out + Take(EncodeAll(replies), capacity) && t.socket.holder.None?
    && CapacityOk(t.socket, Left(|EncodeAll(replies)|, capacity))
  }

  lemma ReadRuns(s: State, m: Message, capacity: Option<nat>) returns (t: State)
    requires WellFormed(s) && |s.demux.channels| == |s.ops| && s.reader.Reading?
    requires ReadLoop.ReplyMessages(m) != [] ==> s.socket.holder.None? && CapacityOk(s.socket, capacity)
    ensures D.Valid(s.demux)
    ensures Execute(s, ReadEvents(m, capacity)) == Some(t) && WellFormed(t)
    ensures t.demux == ReadLoop.AfterFrame(s.demux, m) && t.ops == s.ops
    ensures t.reader == if ReadLoop.ReactionTo(m).Break? then Stopping else Reading
    ensures ReadLoop.ReplyMessages(m) == [] ==> t.socket == s.socket
    ensures s.socket.holder.None? && CapacityOk(s.socket, capacity) ==>
              Served(s, t, ReadLoop.AfterFrame(s.demux, m), ReadLoop.ReplyMessages(m),
                     ReadLoop.ReactionTo(m).Break?, capacity)
    ensures t.frames == s.frames + [m] && t.fates == s.fates + [ReadLoop.FateOf(s.demux, m)]
  {
    hide WellFormed, Encode, Encodable, PingResponseMessage, Execute, ReadLoop.AfterFrame, ReadLoop.FateOf,
      ReadLoop.Routed, ReadLoop.ReactionTo, WriteEvents, SocketAfter, Fits, D.Valid;
    WellFormedIsValid(s);
    NoEvents(s);
    var u := ThenStep(s, [], s, Read(m));
    assert [] + [Read(m)] == [Read(m)];
    var replies := ReadLoop.ReplyMessages(m);
    if replies == [] {
      t := u;
      NothingToReply(s.socket.out, capacity);
    } else {
      var pong := replies[0];
      var o := Outgoing(Ponger(u.reader.payload), pong);
      var v := ThenStep(s, [Read(m)], u, AcquirePong);
      t := WriteRuns(v, o, capacity);
      ThenRun(s, [Read(m)] + [AcquirePong], v, WriteEvents(pong, capacity));
      HolderIrrelevant(s.socket, o, capacity);
      OneReply(pong);
      assert replies == [pong];
      SocketAfterOut(s.socket, o, capacity, []);
    }
  }

  lemma NothingToReply(out: bytes, capacity: Option<nat>)
    ensures EncodeAll([]) == [] && out + Take(EncodeAll([]), capacity) == out
    ensures Left(|EncodeAll([])|, capacity) == capacity
  {
  }

  lemma OneReply(m: Message)
    requires Encodable(m)
    ensures EncodeAll([m]) == Encode(m)
  {
    hide Encode, Encodable;
    assert [m][..0] == [] && EncodeAll([]) == [];
    assert [] + Encode(m) == Encode(m);
  }

  /** Nothing in the run is done by a caller. */
  predicate ReaderOnly(es: seq<Event>) {
    forall i | 0 <= i < |es| :: !es[i].Alloc? && !es[i].Own?
  }

  lemma ReadEventsAreReaderOnly(m: Message, capacity: Option<nat>)
    ensures ReaderOnly(ReadEvents(m, capacity))
  {
    hide ReadLoop.ReplyMessages, Encode, Encodable;
  }

  lemma ServedOn(s: State, t: State, u: State, d: D.State, replies: seq<Message>, m: Message, capacity: Option<nat>)
    requires AllEncodable(replies) && D.Valid(d) && Served(s, t, d, replies, false, capacity)
    requires Served(t, u, ReadLoop.AfterFrame(d, m), ReadLoop.ReplyMessages(m), ReadLoop.ReactionTo(m).Break?,
                    Left(|EncodeAll(replies)|, capacity))
    ensures AllEncodable(replies + ReadLoop.ReplyMessages(m))
    ensures Served(s, u, ReadLoop.AfterFrame(d, m), replies + ReadLoop.ReplyMessages(m),
                   ReadLoop.ReactionTo(m).Break?, capacity)
  {
    hide Encode, Encodable, EncodeAll, ReadLoop.ReactionTo, ReadLoop.AfterFrame, Take, Left, D.Valid,
      PingResponseMessage;
    var more := ReadLoop.ReplyMessages(m);
    Connection.EncodeUpToOne(replies, more);
    TakeConcat(EncodeAll(replies), EncodeAll(more), capacity);
    Associative(s.socket.out, Take(EncodeAll(replies), capacity),
                Take(EncodeAll(more), Left(|EncodeAll(replies)|, capacity)));
  }

  /** Reading any frames, up to the first that breaks the loop, is a run. */
  lemma {:induction false} ServeRuns(s: State, ms: seq<Message>, capacity: Option<nat>)
      returns (es: seq<Event>, t: State)
    requires WellFormed(s) && |s.demux.channels| == |s.ops| && s.reader.Reading?
    requires s.socket.holder.None? && CapacityOk(s.socket, capacity)
    ensures D.Valid(s.demux) && Execute(s, es) == Some(t) && WellFormed(t) && ReaderOnly(es)
    ensures var run := ReadLoop.RunOver(s.demux, ms);
            && Served(s, t, run.state, run.replies, run.broken, capacity)
            && |run.fates| <= |ms| && (!run.broken ==> |run.fates| == |ms|)
            && t.frames == s.frames + ms[..|run.fates|] && t.fates == s.fates + run.fates
    decreases |ms|
  {
    hide WellFormed, Encode, EncodeAll, Encodable, Execute, ReadLoop.AfterFrame, ReadLoop.FateOf,
      ReadLoop.ReactionTo, ReadLoop.ReplyMessages, ReadEvents, D.Valid, Take, Left, CapacityOk;
    WellFormedIsValid(s);
    if ms == [] {
      NoEvents(s);
      NothingToReply(s.socket.out, capacity);
      es, t := [], s;
      assert s.frames + [] == s.frames && s.fates + [] == s.fates;
    } else {
      var p, m := ms[..|ms| - 1], ms[|ms| - 1];
      assert forall i | 0 <= i <= |p| :: ms[..i] == p[..i];
      assert s.frames + ms == s.frames + p + [m];
      es, t := ServeRuns(s, p, capacity);
      var run := ReadLoop.RunOver(s.demux, p);
      if !run.broken {
        SameLength(t);
        var left := Left(|EncodeAll(run.replies)|, capacity);
        var u := ReadRuns(t, m, left);
        ServedOn(s, t, u, run.state, run.replies, m, capacity);
        ThenRun(s, es, t, ReadEvents(m, left));
        ReadEventsAreReaderOnly(m, left);
        BothReaderOnly(es, ReadEvents(m, left));
        es, t := es + ReadEvents(m, left), u;
      }
    }
  }

  lemma BothReaderOnly(es: seq<Event>, more: seq<Event>)
    requires ReaderOnly(es) && ReaderOnly(more)
    ensures ReaderOnly(es + more)
  {
  }

  /** The end of the loop. */
  function EndEvents(r: Reader): seq<Event> {
    (if r.Reading? then [ReadEnd] else []) + [Event.Drain] + [Publish]
  }

  lemma EndRuns(s: State) returns (t: State)
    requires WellFormed(s) && |s.demux.channels| == |s.ops| && (s.reader.Reading? || s.reader.Stopping?)
    ensures Execute(s, EndEvents(s.reader)) == Some(t) && WellFormed(t)
    ensures t.demux == D.FailAll(s.demux, ConnectionClosed).(closed := true) && t.reader.Done?
    ensures t.socket == s.socket && t.frames == s.frames && t.fates == s.fates
  {
    hide WellFormed, Execute, D.FailAll, Live;
    NoEvents(s);
    var u := s;
    if s.reader.Reading? {
      u := ThenStep(s, [], s, ReadEnd);
    }
    var start := if s.reader.Reading? then [ReadEnd] else [];
    assert [] + start == start;
    var v := ThenStep(s, start, u, Event.Drain);
    t := ThenStep(s, start + [Event.Drain], v, Publish);
  }

  lemma EndIsReaderOnly(r: Reader)
    ensures ReaderOnly(EndEvents(r))
  {
  }

  /** One turn of the loop is a frame read and, for a ping, the write of the reply. Only the reply needs
      the write lock; any other frame is handled while somebody else is writing, too. */
  method HandleFrame(m: Message, conn: Connection.Connection, out: WriteHalf, ghost base: bytes, ghost s: State)
      returns (broken: bool, ghost t: State)
    requires WellFormed(s) && conn.State() == s.demux && s.reader.Reading?
    requires ReadLoop.ReplyMessages(m) != [] ==> WriterLinked(out, base, s)
    modifies conn, out
    ensures Execute(s, ReadEvents(m, old(out.capacity))) == Some(t) && WellFormed(t) && conn.State() == t.demux
    ensures t.reader == (if broken then Stopping else Reading) && t.ops == s.ops && t.frames == s.frames + [m]
    ensures if ReadLoop.ReplyMessages(m) != [] then WriterLinked(out, base, t)
            else t.socket == s.socket && out.written == old(out.written) && out.capacity == old(out.capacity)
  {
    hide WellFormed, Execute, ReadEvents, EncodeAll, Encode, ReadLoop.AfterFrame, ReadLoop.ReactionTo,
      PingResponseMessage, Encodable, D.Valid, Take, Left;
    SameLength(s);
    t := ReadRuns(s, m, out.capacity);
    Associative(base, s.socket.out, Take(EncodeAll(ReadLoop.ReplyMessages(m)), out.capacity));
    NothingToReply(out.written, out.capacity);
    broken := Connection.HandleFrame(m, conn, out);
  }

  /** The whole loop, run without callers in between, is a run of reader events that reads the frames on
      the wire in order, stops at the end of input or at the first error report, and tears down. */
  method Serve(reader: FramedReader, conn: Connection.Connection, out: WriteHalf, ghost base: bytes, ghost s: State)
      returns (ghost es: seq<Event>, ghost t: State)
    requires reader.Valid() && WellFormed(s) && Linked(conn, out, base, s) && s.reader.Reading?
    modifies reader, reader.readHalf, conn, out
    ensures Execute(s, es) == Some(t) && WellFormed(t) && Linked(conn, out, base, t)
    ensures ReaderOnly(es) && t.reader.Done?
    ensures var ms := Frames(old(reader.Unread())).frames;
            var run := ReadLoop.RunOver(s.demux, ms);
            && |run.fates| <= |ms| && (!run.broken ==> |run.fates| == |ms|)
            && t.frames == s.frames + ms[..|run.fates|] && t.fates == s.fates + run.fates
  {
    hide WellFormed, Execute, EncodeAll, Encode, ReadLoop.RunOver, D.FailAll, D.Valid, Take, Left, CapacityOk,
      ReaderOnly, Frames, FirstFrame;
    SameLength(s);
    ghost var ms := Frames(reader.Unread()).frames;
    ghost var run, u := ServeRuns(s, ms, out.capacity);
    SameLength(u);
    t := EndRuns(u);
    ThenRun(s, run, u, EndEvents(u.reader));
    EndIsReaderOnly(u.reader);
    BothReaderOnly(run, EndEvents(u.reader));
    es := run + EndEvents(u.reader);
    Associative(base, s.socket.out, Take(EncodeAll(ReadLoop.RunOver(s.demux, ms).replies), out.capacity));
    Connection.Loop(reader, conn, out);
  }
}
