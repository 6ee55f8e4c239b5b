/** The whole client as a transition system: any number of callers, the read loop and the socket.
    One event is one atomic step of one of them: a region under the registry lock, taking or
    releasing the write lock, one partial write, one channel operation, one frame read. */
module System {
  import opened Bytes
  import opened Frame
  import opened RpcMessage
  import opened Messages
  import D = Demux
  import ReadLoop

  // ---- Operations ----

  /** A call of `request` or `subscribe`; `body` is None if its payload does not serialize. */
  datatype Call = Call(kind: D.Kind, operation: bytes, model: bytes, body: Option<bytes>)

  /** Where an operation stands. */
  datatype Phase =
    | Allocated                      // has a stream-id, its sink is not inserted yet
    | Inserted                       // sink inserted, request not serialized yet
    | Queued                         // waits for the write lock with its activate frame
    | Writing                        // holds the write lock
    | Waiting                        // waits on its channel
    | Removing(outcome: D.Item)      // decided to fail; takes its sink out, then returns
    | Returned(outcome: D.Item)
    | Abandoned                      // the caller's future was dropped at an await
    | Streaming                      // `subscribe` returned Ok; its EventStream is alive
    | Dropped                        // EventStream dropped, close task spawned
    | Closing                        // sink removed, waits for the write lock
    | ClosingWrite                   // holds the write lock for its terminate frame
    | Closed

  /** An operation and its history: the acknowledgement it consumed, the items its EventStream was
      given, the stretch [from, upto) of dispatched messages during which its sink was its own to
      remove, whether teardown failed it, and whether it was inserted only after teardown. */
  datatype Op = Op(
    call: Call, phase: Phase, ack: Option<D.Item>, received: seq<D.Item>,
    from: Option<nat>, upto: Option<nat>, failed: bool, late: bool)

  /** The stream-id of the k-th allocation, counting from 0. */
  function StreamIdOf(k: int): int32 {
    Wrap32(1 + k)
  }

  function ActivateOf(k: nat, call: Call): Message {
    ActivateMessage(StreamIdOf(k), call.operation, call.model, if call.body.Some? then call.body.value else [])
  }

  // ---- The socket's write half ----

  datatype Writer = Activator(op: nat) | Terminator(op: nat) | Ponger(payload: bytes)

  datatype Outgoing = Outgoing(who: Writer, message: Message)

  /** A holder of the write lock, and how many bytes of its frame it has written. */
  datatype Hold = Hold(frame: Outgoing, done: nat)

  /** `sent` is the frames written completely, in order; `cut` the write during which the socket
      broke, after which no byte follows. */
  datatype Socket = Socket(out: bytes, sent: seq<Outgoing>, holder: Option<Hold>, cut: Option<Hold>)

  // ---- The state ----

  datatype Reader =
    | Reading
    | PongQueued(payload: bytes)
    | PongWriting(payload: bytes)
    | Stopping
    | Drained
    | Done

  /** `frames`, `fates`, `inbound` and `pings` are histories: the frames read, what became of each,
      the messages dispatched, and the payloads of the pings whose answer fits a frame. */
  datatype State = State(
    demux: D.State, ops: seq<Op>, socket: Socket, reader: Reader,
    frames: seq<Message>, fates: seq<ReadLoop.Fate>, inbound: seq<Rpc>, pings: seq<bytes>)

  /** Right after a successful handshake. */
  const INITIAL := State(D.INITIAL, [], Socket([], [], None, None), Reading, [], [], [], [])

  predicate TornDown(s: State) {
    s.reader.Drained? || s.reader.Done?
  }

  /** Whether operation k's own sink is registered. */
  predicate Live(s: State, k: nat) {
    StreamIdOf(k) in s.demux.registry && s.demux.registry[StreamIdOf(k)].op == k
  }

  /** What every reachable state satisfies, without any bound on the number of operations. */
  ghost predicate WellFormed(s: State) {
    && |s.demux.channels| == |s.ops|
    && s.demux.nextId == StreamIdOf(|s.ops|)
    && (forall sid | sid in s.demux.registry ::
          var sink := s.demux.registry[sid];
          && sink.op < |s.ops| && StreamIdOf(sink.op) == sid
          && sink.kind == s.ops[sink.op].call.kind && !s.ops[sink.op].phase.Allocated?)
  }

  lemma WellFormedIsValid(s: State)
    requires WellFormed(s)
    ensures D.Valid(s.demux)
  {
    hide Wrap32;
  }

  // ---- Events ----

  /** A step of one operation's caller, its EventStream or its close task. */
  datatype Act =
    | Register | Prepare | Acquire | Reply | Elapse | Ack | SenderGone | Deregister | Abandon
    | Poll | Drop | CloseRemove | AcquireClose

  datatype Event =
    | Alloc(call: Call)
    | Own(k: nat, act: Act)
    | Emit(n: nat)
    | Finish
    | WriteError
    | AcquirePong
    | Read(m: Message)
    | ReadEnd
    | Drain
    | Publish

  predicate ActEnabled(s: State, k: nat, act: Act)
    requires k < |s.ops| == |s.demux.channels|
  {
    var op, queue := s.ops[k], s.demux.channels[k].queue;
    match act
    case Register => op.phase.Allocated?
    case Prepare => op.phase.Inserted?
    case Acquire => op.phase.Queued? && s.socket.holder.None?
    case Reply => op.phase.Waiting? && op.call.kind.Request? && queue != []
    case Elapse => op.phase.Waiting? && op.call.kind.Request? && queue == []
    case Ack => op.phase.Waiting? && op.call.kind.Subscription? && queue != []
    case SenderGone => op.phase.Waiting? && queue == [] && !Live(s, k)
    case Deregister => op.phase.Removing?
    case Abandon => op.phase.Queued? || op.phase.Waiting?
    case Poll => op.phase.Streaming? && queue != []
    case Drop => op.phase.Streaming?
    case CloseRemove => op.phase.Dropped?
    case AcquireClose => op.phase.Closing? && s.socket.holder.None?
  }

  predicate Enabled(s: State, e: Event)
    requires |s.demux.channels| == |s.ops|
  {
    match e
    case Alloc(_) => true
    case Own(k, act) => k < |s.ops| && ActEnabled(s, k, act)
    case Emit(n) =>
      && s.socket.holder.Some? && s.socket.cut.None? && n > 0
      && Encodable(s.socket.holder.value.frame.message)
      && s.socket.holder.value.done + n <= |Encode(s.socket.holder.value.frame.message)|
    case Finish =>
      && s.socket.holder.Some? && s.socket.cut.None?
      && Encodable(s.socket.holder.value.frame.message)
      && s.socket.holder.value.done == |Encode(s.socket.holder.value.frame.message)|
      && HolderPresent(s)
    case WriteError => s.socket.holder.Some? && HolderPresent(s)
    case AcquirePong => s.reader.PongQueued? && s.socket.holder.None?
    case Read(_) => s.reader.Reading?
    case ReadEnd => s.reader.Reading?
    case Drain => s.reader.Stopping?
    case Publish => s.reader.Drained?
  }

  /** The operation holding the write lock exists. */
  predicate HolderPresent(s: State)
    requires s.socket.holder.Some?
  {
    var who := s.socket.holder.value.frame.who;
    who.Ponger? || who.op < |s.ops|
  }

  // ---- What the events do ----

  function SetOp(s: State, k: nat, op: Op, channel: D.Channel): State
    requires k < |s.ops| == |s.demux.channels|
  {
    s.(ops := s.ops[k := op], demux := s.demux.(channels := s.demux.channels[k := channel]))
  }

  /** Takes the stream's entry out of the registry, whoever it belongs to. */
  function TakeOut(s: State, k: nat): State {
    s.(demux := D.Remove(s.demux, StreamIdOf(k)))
  }

  function SetPhase(s: State, k: nat, phase: Phase): State
    requires k < |s.ops| == |s.demux.channels|
  {
    SetOp(s, k, s.ops[k].(phase := phase), s.demux.channels[k])
  }

  /** Inserts the operation's sink under its stream-id. */
  function PutIn(s: State, k: nat): State
    requires k < |s.ops|
  {
    s.(demux := D.Register(s.demux, StreamIdOf(k), D.Sink(s.ops[k].call.kind, k)))
  }

  function Hand(s: State, frame: Outgoing): State {
    s.(socket := s.socket.(holder := Some(Hold(frame, 0))))
  }

  /** What `subscribe` makes of the first item on its channel. */
  function AckPhase(item: D.Item): Phase {
    match item
    case Ok(ack) =>
      if ack.messageType.ApplicationError? then Removing(Err(D.ServiceErrorFrom(ack))) else Streaming
    case Err(e) => Removing(Err(e))
  }

  /** What an act makes of its operation and the operation's channel. */
  function OpAfter(k: nat, op: Op, c: D.Channel, now: nat, torn: bool, act: Act): (r: (Op, D.Channel))
    requires act in {Reply, Ack, Poll} ==> c.queue != []
    requires act.Deregister? ==> op.phase.Removing?
  {
    match act
    case Register => (op.(phase := Inserted, from := Some(now), late := torn), c)
    case Prepare =>
      if op.call.body.None? then (op.(phase := Returned(Err(Payload))), c.Close())
      else if !Encodable(ActivateOf(k, op.call)) then
        (op.(phase := Removing(Err(Framing(Unencodable)))), c.Close())
      else (op.(phase := Queued), c)
    case Acquire => (op.(phase := Writing), c)
    case Reply => (op.(phase := Returned(c.queue[0])), c.Close())
    case Elapse => (op.(phase := Removing(Err(Timeout(op.call.operation)))), c.Close())
    case Ack =>
      if AckPhase(c.queue[0]).Streaming? then (op.(phase := Streaming, ack := Some(c.queue[0])), c.Receive())
      else (op.(phase := AckPhase(c.queue[0])), c.Close())
    case SenderGone =>
      if op.call.kind.Request? then (op.(phase := Returned(Err(ConnectionClosed))), c.Close())
      else (op.(phase := Removing(Err(ConnectionClosed))), c.Close())
    case Deregister => (op.(phase := Returned(op.phase.outcome), upto := Some(now)), c)
    case Abandon => (op.(phase := Abandoned), c.Close())
    case Poll => (op.(received := op.received + [c.queue[0]]), c.Receive())
    case Drop => (op.(phase := Dropped), c.Close())
    case CloseRemove => (op.(phase := Closing, upto := Some(now)), c)
    case AcquireClose => (op.(phase := ClosingWrite), c)
  }

  /** The act: the operation moves on, and the registry or the write lock with it. */
  function ApplyAct(s: State, k: nat, act: Act): State
    requires k < |s.ops| == |s.demux.channels| && ActEnabled(s, k, act)
  {
    var (op, c) := OpAfter(k, s.ops[k], s.demux.channels[k], |s.inbound|, TornDown(s), act);
    var t := SetOp(s, k, op, c);
    match act
    case Register => PutIn(t, k)
    case Deregister => TakeOut(t, k)
    case CloseRemove => TakeOut(t, k)
    case Acquire => Hand(t, Outgoing(Activator(k), ActivateOf(k, op.call)))
    case AcquireClose => Hand(t, Outgoing(Terminator(k), TerminateMessage(StreamIdOf(k))))
    case _ => t
  }

  /** How the holder of the write lock goes on once its write is over. */
  function AfterWrite(s: State, who: Writer, failed: bool): State
    requires who.Ponger? || who.op < |s.ops| == |s.demux.channels|
  {
    match who
    case Activator(k) =>
      if failed then SetOp(s, k, s.ops[k].(phase := Removing(Err(Io))), s.demux.channels[k].Close())
      else SetPhase(s, k, Waiting)
    case Terminator(k) => SetPhase(s, k, Closed)
    case Ponger(_) => s.(reader := Reading)
  }

  function ReaderAfter(m: Message): Reader {
    match ReadLoop.ReactionTo(m)
    case Continue => Reading
    case Reply(payload) => if Encodable(PingResponseMessage(payload)) then PongQueued(payload) else Reading
    case Break => Stopping
  }

  function ApplyAlloc(s: State, call: Call): State {
    s.(demux := D.Alloc(s.demux),
       ops := s.ops + [Op(call, Allocated, None, [], None, None, false, false)])
  }

  function ApplyEmit(s: State, n: nat): State
    requires |s.demux.channels| == |s.ops| && Enabled(s, Emit(n))
  {
    var h := s.socket.holder.value;
    var b := Encode(h.frame.message);
    s.(socket := s.socket.(out := s.socket.out + b[h.done..h.done + n], holder := Some(h.(done := h.done + n))))
  }

  /** The write is over: the whole frame is out, and the lock is released. */
  function ApplyFinish(s: State): State
    requires |s.demux.channels| == |s.ops| && s.socket.holder.Some? && HolderPresent(s)
  {
    var frame := s.socket.holder.value.frame;
    AfterWrite(s.(socket := s.socket.(sent := s.socket.sent + [frame], holder := None)), frame.who, false)
  }

  /** The write failed; from the first failure on the socket is broken. */
  function ApplyWriteError(s: State): State
    requires |s.demux.channels| == |s.ops| && s.socket.holder.Some? && HolderPresent(s)
  {
    var h := s.socket.holder.value;
    AfterWrite(s.(socket := s.socket.(holder := None, cut := if s.socket.cut.Some? then s.socket.cut else Some(h))),
               h.frame.who, true)
  }

  function ApplyPong(s: State): State
    requires s.reader.PongQueued?
  {
    var p := s.reader.payload;
    Hand(s.(reader := PongWriting(p)), Outgoing(Ponger(p), PingResponseMessage(p)))
  }

  function ApplyRead(s: State, m: Message): State
    requires D.Valid(s.demux)
  {
    var routed := ReadLoop.Routed(m);
    s.(demux := ReadLoop.AfterFrame(s.demux, m),
       reader := ReaderAfter(m),
       frames := s.frames + [m],
       fates := s.fates + [ReadLoop.FateOf(s.demux, m)],
       inbound := if routed.Some? then s.inbound + [routed.value] else s.inbound,
       pings := if ReaderAfter(m).PongQueued? then s.pings + [ReaderAfter(m).payload] else s.pings)
  }

  function ApplyDrain(s: State): State {
    s.(demux := D.FailAll(s.demux, ConnectionClosed),
       ops := seq(|s.ops|, k requires 0 <= k < |s.ops| =>
                    if Live(s, k) then s.ops[k].(failed := true) else s.ops[k]),
       reader := Drained)
  }

  function Apply(s: State, e: Event): State
    requires WellFormed(s) && Enabled(s, e)
  {
    match e
    case Alloc(call) => ApplyAlloc(s, call)
    case Own(k, act) => ApplyAct(s, k, act)
    case Emit(n) => ApplyEmit(s, n)
    case Finish => ApplyFinish(s)
    case WriteError => ApplyWriteError(s)
    case AcquirePong => ApplyPong(s)
    case Read(m) => WellFormedIsValid(s); ApplyRead(s, m)
    case ReadEnd => s.(reader := Stopping)
    case Drain => ApplyDrain(s)
    case Publish => s.(demux := s.demux.(closed := true), reader := Done)
  }
}
