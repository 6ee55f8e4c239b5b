/** Who waits for how long. What becomes of an operation that inserts its sink after the read loop has
    drained the registry: the documented promise that whatever ends the read loop fails every operation
    in flight does not cover it, and `subscribe`, whose wait for the acknowledgement has no timeout, then
    never returns. And exactly when an operation goes on by itself. */
module AfterTeardown {
  import opened Bytes
  import opened Frame
  import opened RpcMessage
  import opened Messages
  import opened System
  import opened Invariant
  import opened Preservation
  import opened Theorems
  import opened Runs
  import D = Demux

  /** Operation k waits on its channel although its sink was inserted after teardown. */
  ghost predicate WaitsTooLate(s: State, k: nat) {
    TornDown(s) && k < |s.ops| && s.ops[k].phase.Waiting? && s.ops[k].late
  }

  /** The two ways out: the timeout of a request, and the caller giving up. */
  predicate WayOut(e: Event, k: nat) {
    e == Own(k, Elapse) || e == Own(k, Abandon)
  }

  lemma LateStep(s: State, e: Event, k: nat)
    requires Inv(s) && WellFormed(s) && Enabled(s, e) && WaitsTooLate(s, k) && !WayOut(e, k)
    ensures WaitsTooLate(Apply(s, e), k) && Apply(s, e).ops[k].call == s.ops[k].call
  {
    hide Inv, WellFormed, Apply, ViewOf, OpOk, ActEnabled;
    TornDownStays(s, e);
    InvView(s, k);
    NotHeldOutsideWrites(s, k);
    if e.Own? && e.k == k {
      NoActForLateWaiters(s, e.act, k);
    }
    OnlyOwnEventsMove(s, e, k);
  }

  lemma InvView(s: State, k: nat)
    requires Inv(s) && k < |s.ops|
    ensures |s.demux.channels| == |s.ops| && OpOk(ViewOf(s, k))
  {
    hide WellFormed, OpOk, ViewOf, SocketOk, ReaderOk, HistoryOk;
    InvIsWellFormed(s);
  }

  lemma NoActForLateWaiters(s: State, act: Act, k: nat)
    requires Inv(s) && WaitsTooLate(s, k) && !WayOut(Own(k, act), k)
    ensures k < |s.ops| == |s.demux.channels| && !ActEnabled(s, k, act)
  {
    hide Inv, WellFormed, WireOk, Seen, ByOp, StreamIdOf, D.Finished, D.CutOff, D.Items, Encodable, ActivateOf;
    InvView(s, k);
    var v := ViewOf(s, k);
    assert DeliveryOk(v) && SinkOk(v) && PhaseOk(v);
    D.DeliveryShape(v.op.call.kind, v.seen);
    SenderNeverGone(v);
  }

  /** Over every continuation without a way out, an operation that waits too late keeps waiting. A
      subscription has no timeout, so only its caller giving up ends it. */
  lemma LateWaiterNeverReturns(s: State, es: seq<Event>, k: nat)
    requires Reachable(s) && WellFormed(s) && WaitsTooLate(s, k)
    requires Execute(s, es).Some? && Bounded(Execute(s, es).value)
    requires forall i | 0 <= i < |es| :: !WayOut(es[i], k)
    ensures WaitsTooLate(Execute(s, es).value, k)
    ensures Execute(s, es).value.ops[k].call == s.ops[k].call
  {
    hide Reachable, WellFormed, Enabled, Apply, WaitsTooLate, Inv;
    BoundedBefore(s, es);
    ReachableInv(s);
    LateRun(s, es, k);
  }

  lemma {:induction false} BoundedBefore(s: State, es: seq<Event>)
    requires WellFormed(s) && Execute(s, es).Some?
    ensures |s.ops| <= |Execute(s, es).value.ops|
    decreases |es|
  {
    hide WellFormed, Enabled, Apply;
    if es != [] {
      var p, e := es[..|es| - 1], es[|es| - 1];
      BoundedBefore(s, p);
      WellFormedStep(Execute(s, p).value, e);
    }
  }

  lemma {:induction false} LateRun(s: State, es: seq<Event>, k: nat)
    requires Inv(s) && WellFormed(s) && WaitsTooLate(s, k)
    requires Execute(s, es).Some? && Bounded(Execute(s, es).value)
    requires forall i | 0 <= i < |es| :: !WayOut(es[i], k)
    ensures WaitsTooLate(Execute(s, es).value, k)
    ensures Execute(s, es).value.ops[k].call == s.ops[k].call
    decreases |es|
  {
    hide Inv, WellFormed, Enabled, Apply, WayOut;
    if es != [] {
      var p, e := es[..|es| - 1], es[|es| - 1];
      var t := Execute(s, p).value;
      WellFormedStep(t, e);
      assert !WayOut(e, k);
      LateRun(s, p, k);
      InvExecute(s, p);
      LateStep(t, e, k);
    }
  }

  // ---- The wait for an acknowledgement ----

  /** `subscribe` is not bounded by the request timeout: while its channel is empty, nothing but its
      caller giving up ends its wait. */
  lemma OnlyAnItemEndsTheAckWait(s: State, e: Event, k: nat)
    requires Reachable(s) && Bounded(s) && WellFormed(s) && Enabled(s, e)
    requires k < |s.ops| && s.ops[k].phase.Waiting? && s.ops[k].call.kind.Subscription?
    requires |s.demux.channels| == |s.ops| && s.demux.channels[k].queue == []
    ensures |Apply(s, e).ops| >= |s.ops|
    ensures Apply(s, e).ops[k].phase.Waiting? || e == Own(k, Abandon)
  {
    hide Reachable, WellFormed, Apply, OpOk, ViewOf, Encodable, ActivateOf, Encode;
    ReachableOp(s, k);
    NotHeldOutsideWrites(s, k);
    if e.Own? && e.k == k {
      WellFormedStep(s, e);
      SenderPresent(s, k);
    } else {
      OnlyOwnEventsMove(s, e, k);
    }
  }

  lemma SenderPresent(s: State, k: nat)
    requires k < |s.ops| == |s.demux.channels| && OpOk(ViewOf(s, k))
    ensures !(s.ops[k].phase.Waiting? && s.demux.channels[k].queue == [] && !Live(s, k))
  {
    hide OpOk, Live, Seen, ByOp, StreamIdOf;
    SenderNeverGone(ViewOf(s, k));
  }

  /** An operation goes on by itself, other than by its caller giving up. */
  ghost predicate CanGoOn(s: State, k: nat)
    requires k < |s.ops| == |s.demux.channels|
  {
    exists act: Act :: act != Abandon && ActEnabled(s, k, act)
  }

  /** The exact condition for a wait to be bounded, by an item or by the timeout: a request's always is,
      a subscription's only while an item is queued. */
  lemma WaitEndsExactlyWhen(s: State, k: nat)
    requires Reachable(s) && Bounded(s) && k < |s.ops| && s.ops[k].phase.Waiting?
    ensures |s.demux.channels| == |s.ops|
    ensures CanGoOn(s, k) <==> s.ops[k].call.kind.Request? || s.demux.channels[k].queue != []
  {
    hide Reachable, WellFormed, OpOk, ViewOf, Live;
    ReachableOp(s, k);
    SenderPresent(s, k);
    var op, queue := s.ops[k], s.demux.channels[k].queue;
    if op.call.kind.Request? {
      assert ActEnabled(s, k, if queue != [] then Reply else Elapse);
    } else if queue != [] {
      assert ActEnabled(s, k, Ack);
    }
  }

  /** With the write lock free, the operations that do not go on by themselves are exactly those that
      are over and the subscriptions waiting for an acknowledgement with nothing queued. */
  lemma StuckExactlyWhen(s: State, k: nat)
    requires Reachable(s) && Bounded(s) && k < |s.ops| && s.socket.holder.None?
    ensures |s.demux.channels| == |s.ops|
    ensures var op := s.ops[k];
            !CanGoOn(s, k) <==>
              || op.phase.Returned? || op.phase.Abandoned? || op.phase.Closed?
              || (op.phase.Waiting? && op.call.kind.Subscription? && s.demux.channels[k].queue == [])
  {
    hide Reachable, WellFormed, OpOk, ViewOf, CanGoOn, ActEnabled;
    ReachableOp(s, k);
    NobodyWrites(s, k);
    if s.ops[k].phase.Waiting? {
      WaitEndsExactlyWhen(s, k);
    } else {
      GoesOnByPhase(s, k);
    }
  }

  lemma NobodyWrites(s: State, k: nat)
    requires k < |s.ops| == |s.demux.channels| && OpOk(ViewOf(s, k)) && s.socket.holder.None?
    ensures !s.ops[k].phase.Writing? && !s.ops[k].phase.ClosingWrite?
  {
    hide DeliveryOk, SinkOk, PhaseOk, Seen, ByOp, StreamIdOf, Encodable, ActivateOf, TerminateMessage, Live;
  }

  lemma GoesOnByPhase(s: State, k: nat)
    requires k < |s.ops| == |s.demux.channels| && s.socket.holder.None?
    requires var p := s.ops[k].phase; !p.Waiting? && !p.Writing? && !p.ClosingWrite?
    ensures CanGoOn(s, k) <==> !(s.ops[k].phase.Returned? || s.ops[k].phase.Abandoned? || s.ops[k].phase.Closed?)
  {
    hide Live;
    match s.ops[k].phase
    case Allocated => assert ActEnabled(s, k, Register);
    case Inserted => assert ActEnabled(s, k, Prepare);
    case Queued => assert ActEnabled(s, k, Acquire);
    case Removing(_) => assert ActEnabled(s, k, Deregister);
    case Streaming => assert ActEnabled(s, k, Drop);
    case Dropped => assert ActEnabled(s, k, CloseRemove);
    case Closing => assert ActEnabled(s, k, AcquireClose);
    case _ =>
  }

  /** A held write lock can always be released by its holder alone: by the rest of the frame going out
      as long as the socket works, by a write error once it is broken. */
  lemma HeldLockIsReleased(s: State) returns (es: seq<Event>, t: State)
    requires Reachable(s) && Bounded(s) && s.socket.holder.Some?
    ensures WellFormed(s) && Execute(s, es) == Some(t) && t.socket.holder.None?
    ensures forall i | 0 <= i < |es| :: es[i].Emit? || es[i].Finish? || es[i].WriteError?
    ensures t.socket.sent == if s.socket.cut.None? then s.socket.sent + [s.socket.holder.value.frame] else s.socket.sent
  {
    hide Reachable, WellFormed, Encode, Encodable, EncodeAll, HistoryOk, ReaderOk, FrameOk, StreamIdOf, AfterWrite;
    HistoriesHold(s);
    NoEvents(s);
    var h := s.socket.holder.value;
    HolderExists(s.ops, h.frame);
    if s.socket.cut.Some? {
      t := ThenStep(s, [], s, WriteError);
      es := [] + [WriteError];
      FinishSocket(s);
    } else if h.done < |Encode(h.frame.message)| {
      var n := |Encode(h.frame.message)| - h.done;
      var u := ThenStep(s, [], s, Emit(n));
      t := ThenStep(s, [] + [Emit(n)], u, Finish);
      es := [] + [Emit(n)] + [Finish];
      FinishSocket(u);
    } else {
      t := ThenStep(s, [], s, Finish);
      es := [] + [Finish];
      FinishSocket(s);
    }
  }

  lemma HolderExists(ops: seq<Op>, o: Outgoing)
    requires FrameOk(ops, o)
    ensures o.who.Ponger? || o.who.op < |ops|
  {
    hide ActivateOf, TerminateMessage, PingResponseMessage;
  }

  // ---- Such operations exist ----

  lemma Extend(es: seq<Event>, s: State, e: Event) returns (t: State)
    requires RunFromStart(es) == Some(s) && WellFormed(s) && Enabled(s, e)
    ensures t == Apply(s, e) && WellFormed(t) && RunFromStart(es + [e]) == Some(t)
  {
    hide WellFormed, Enabled, Apply, INITIAL;
    assert (es + [e])[..|es|] == es;
    WellFormedStep(s, e);
    t := Apply(s, e);
  }

  /** From any reachable state with an idle, unbroken socket, a new call can get as far as waiting
      for its answer, torn down or not. */
  lemma CallsReachWaiting(es: seq<Event>, s: State, call: Call) returns (run: seq<Event>, t: State)
    requires RunFromStart(es) == Some(s) && s.socket.holder.None? && s.socket.cut.None?
    requires call.body.Some? && Encodable(ActivateOf(|s.ops|, call))
    ensures RunFromStart(run) == Some(t)
    ensures t.ops == s.ops + [Op(call, Waiting, None, [], Some(|s.inbound|), None, false, TornDown(s))]
    ensures t.demux.channels == s.demux.channels + [D.FRESH]
    ensures StreamIdOf(|s.ops|) in t.demux.registry
            && t.demux.registry[StreamIdOf(|s.ops|)] == D.Sink(call.kind, |s.ops|)
    ensures t.reader == s.reader && t.demux.closed == s.demux.closed && t.inbound == s.inbound
  {
    hide WellFormed, Encode, Encodable, ActivateOf, StreamIdOf, RunFromStart, Live, D.FRESH;
    var k := |s.ops|;
    SameLength(s);
    var s1 := Extend(es, s, Alloc(call));
    SameLength(s1);
    var s2 := ActStep(es + [Alloc(call)], s1, k, Register);
    var s3 := ActStep(es + [Alloc(call)] + [Own(k, Register)], s2, k, Prepare);
    var s4 := ActStep(es + [Alloc(call)] + [Own(k, Register)] + [Own(k, Prepare)], s3, k, Acquire);
    run := es + [Alloc(call)] + [Own(k, Register)] + [Own(k, Prepare)] + [Own(k, Acquire)];
    run, t := WriteOut(run, s4, k);
  }

  lemma ActStep(es: seq<Event>, s: State, k: nat, act: Act) returns (t: State)
    requires RunFromStart(es) == Some(s) && |s.demux.channels| == |s.ops|
    requires k < |s.ops| && ActEnabled(s, k, act)
    ensures RunFromStart(es + [Own(k, act)]) == Some(t) && |t.demux.channels| == |t.ops| == |s.ops|
    ensures var (op, c) := OpAfter(k, s.ops[k], s.demux.channels[k], |s.inbound|, TornDown(s), act);
            && t.ops == s.ops[k := op] && t.demux.channels == s.demux.channels[k := c]
            && t.demux.registry == (if act.Register? then s.demux.registry[StreamIdOf(k) := D.Sink(op.call.kind, k)]
                                    else if act in {Deregister, CloseRemove} then s.demux.registry - {StreamIdOf(k)}
                                    else s.demux.registry)
    ensures t.reader == s.reader && t.demux.closed == s.demux.closed && t.socket.cut == s.socket.cut
    ensures t.inbound == s.inbound
    ensures !act.AcquireClose? ==>
              t.socket.holder ==
              if act.Acquire? then Some(Hold(Outgoing(Activator(k), ActivateOf(k, t.ops[k].call)), 0))
              else s.socket.holder
  {
    hide WellFormed, ApplyAct, OpAfter, Encodable, ActivateOf, StreamIdOf, RunFromStart, Live;
    t := Extend(es, s, Own(k, act));
    ActTouches(s, k, act);
    OpAfterMovesOn(k, s.ops[k], s.demux.channels[k], |s.inbound|, TornDown(s), act);
    SameLength(t);
  }

  /** An undisturbed write. */
  lemma WriteOut(es: seq<Event>, s: State, k: nat) returns (run: seq<Event>, t: State)
    requires RunFromStart(es) == Some(s) && |s.demux.channels| == |s.ops| && k < |s.ops|
    requires s.socket.cut.None? && Encodable(ActivateOf(k, s.ops[k].call))
    requires s.socket.holder == Some(Hold(Outgoing(Activator(k), ActivateOf(k, s.ops[k].call)), 0))
    ensures RunFromStart(run) == Some(t)
    ensures t.ops == s.ops[k := s.ops[k].(phase := Waiting)]
    ensures t.reader == s.reader && t.demux == s.demux && t.inbound == s.inbound
  {
    hide WellFormed, EncodeHeaders, Encodable, ActivateOf, StreamIdOf, RunFromStart, Prelude, Crc32, Be32;
    var n := |Encode(ActivateOf(k, s.ops[k].call))|;
    var s1 := Extend(es, s, Emit(n));
    t := Extend(es + [Emit(n)], s1, Finish);
    run := es + [Emit(n)] + [Finish];
  }

  /** The nucleus reports an internal error: the loop ends, drains, and publishes `closed`; the write
      half stays open. */
  lemma InternalErrorTearsDown() returns (es: seq<Event>, s: State)
    ensures RunFromStart(es) == Some(s) && s.reader == Done && s.demux.closed && s.ops == []
    ensures s.socket == INITIAL.socket
  {
    hide WellFormed, RunFromStart, Parsed, Preamble, Encodable, StreamIdOf;
    var m := Message(Preamble(InternalError, NONE, 0) + [], []);
    InternalErrorParses();
    NothingRun();
    var s1 := Extend([], INITIAL, Read(m));
    var s2 := Extend([] + [Read(m)], s1, Drain);
    s := Extend([] + [Read(m)] + [Drain], s2, Publish);
    es := [] + [Read(m)] + [Drain] + [Publish];
  }

  lemma InternalErrorParses()
    ensures Parsed(Message(Preamble(InternalError, NONE, 0) + [], [])) == Ok(Rpc(InternalError, NONE, 0, None, []))
  {
    hide Parsed, Preamble;
    NothingRead();
    PreambleParses(InternalError, NONE, 0, [], []);
  }

  lemma NothingRun()
    ensures RunFromStart([]) == Some(INITIAL)
  {
  }

  /** So a subscription made after teardown can hang: there is a reachable state in which the
      connection is published as closed and a subscription waits too late. */
  lemma SubscribeAfterTeardownHangs()
    ensures exists s :: Reachable(s) && s.demux.closed && WaitsTooLate(s, 0) && s.ops[0].call.kind.Subscription?
  {
    hide RunFromStart, Encodable, ActivateMessage, StreamIdOf;
    var es, s := InternalErrorTearsDown();
    var call := Call(D.Subscription, [], [], Some([]));
    ActivateEncodable(StreamIdOf(0), [], [], []);
    var run, t := CallsReachWaiting(es, s, call);
    assert RunFromStart(run) == Some(t);
    assert Reachable(t) && WaitsTooLate(t, 0);
  }
}
