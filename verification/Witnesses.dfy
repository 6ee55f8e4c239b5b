/** Reachable states in which the client does what its documentation does not say: sinks nobody waits
    for, and a live sink replaced once the stream-ids have wrapped around. */
module Witnesses {
  import opened Bytes
  import opened Frame
  import opened RpcMessage
  import opened Messages
  import opened System
  import opened Invariant
  import opened Preservation
  import opened Theorems
  import opened AfterTeardown
  import D = Demux

  // ---- Orphans ----

  /** A call whose payload does not serialize has returned, and its sink is still registered. */
  lemma SerializationOrphanExists()
    ensures exists s :: Reachable(s) && |s.ops| == 1 && s.ops[0].phase == Returned(Err(Payload)) && Live(s, 0)
  {
    hide RunFromStart, WellFormed, Encodable, ActivateOf, Live;
    var es, s := RegisteredCall(Call(D.Request, [], [], None));
    var t := ActStep(es, s, 0, Prepare);
    assert RunFromStart(es + [Own(0, Prepare)]) == Some(t);
    ReachableIfRun(es + [Own(0, Prepare)], t);
    StillRegistered(t);
  }

  /** A call whose future was dropped while it waited for the write lock, and its sink is still
      registered. */
  lemma AbandonedOrphanExists()
    ensures exists s :: Reachable(s) && |s.ops| == 1 && s.ops[0].phase == Abandoned && Live(s, 0)
  {
    hide RunFromStart, WellFormed, Encodable, ActivateMessage, Live, StreamIdOf;
    var call := Call(D.Request, [], [], Some([]));
    ActivateEncodable(StreamIdOf(0), [], [], []);
    var es, s := RegisteredCall(call);
    var t := ActStep(es, s, 0, Prepare);
    var u := ActStep(es + [Own(0, Prepare)], t, 0, Abandon);
    ReachableIfRun(es + [Own(0, Prepare)] + [Own(0, Abandon)], u);
    StillRegistered(u);
  }

  lemma RegisteredCall(call: Call) returns (es: seq<Event>, s: State)
    ensures RunFromStart(es) == Some(s) && |s.demux.channels| == |s.ops| == 1
    ensures s.ops[0] == Op(call, Inserted, None, [], Some(0), None, false, false)
    ensures s.inbound == [] && s.reader == Reading && s.socket == INITIAL.socket
  {
    hide RunFromStart, WellFormed, StreamIdOf, Live;
    NothingRun();
    var s1 := Extend([], INITIAL, Alloc(call));
    s := Extend([] + [Alloc(call)], s1, Own(0, Register));
    es := [] + [Alloc(call)] + [Own(0, Register)];
  }

  lemma ReachableIfRun(es: seq<Event>, s: State)
    requires RunFromStart(es) == Some(s)
    ensures Reachable(s)
  {
    hide RunFromStart;
  }

  /** By the exact condition, an operation that is over is registered as long as nothing came for it. */
  lemma StillRegistered(s: State)
    requires Reachable(s) && |s.ops| == 1 && Over(s, 0) && !s.ops[0].failed && s.inbound == []
    requires s.ops[0].phase.Returned? ==> s.ops[0].phase == Returned(Err(Payload))
    ensures Live(s, 0)
  {
    hide Reachable, Live, StreamIdOf;
    RegisteredExactlyWhen(s, 0);
  }

  // ---- Collisions ----

  /** Any number of operations may take a stream-id before any of them does anything else. */
  lemma {:induction false} ManyAllocs(es: seq<Event>, s: State, call: Call, n: nat) returns (run: seq<Event>, t: State)
    requires RunFromStart(es) == Some(s) && |s.demux.channels| == |s.ops|
    ensures RunFromStart(run) == Some(t) && |t.ops| == |t.demux.channels| == |s.ops| + n
    ensures s.ops <= t.ops && s.demux.channels <= t.demux.channels && t.demux.registry == s.demux.registry
    ensures n > 0 ==> t.ops[|s.ops| + n - 1].phase.Allocated?
    ensures t.reader == s.reader && t.demux.closed == s.demux.closed
    decreases n
  {
    hide RunFromStart, WellFormed, StreamIdOf;
    if n == 0 {
      run, t := es, s;
    } else {
      var before, u := ManyAllocs(es, s, call, n - 1);
      t := Extend(before, u, Alloc(call));
      run := before + [Alloc(call)];
    }
  }

  /** The id bound is reached by real runs: a request waits for its answer, 2^32 further operations
      take stream-ids, and when the last of them inserts its sink, the request's sink is replaced and
      its wait ends with `ConnectionClosed`, while the read loop reads on. */
  lemma CollisionIsReachable() returns (s: State)
    ensures Reachable(s) && WellFormed(s) && |s.ops| == |s.demux.channels| == ID_BOUND + 1
    ensures s.ops[0].phase.Waiting? && Live(s, 0) && s.reader.Reading?
    ensures Enabled(s, Own(ID_BOUND, Register))
    ensures var t := Apply(s, Own(ID_BOUND, Register));
            && !Live(t, 0) && Live(t, ID_BOUND) && t.reader.Reading?
            && |t.demux.channels| == |t.ops| && Enabled(t, Own(0, SenderGone))
  {
    hide RunFromStart, WellFormed, Encodable, ActivateMessage, StreamIdOf;
    var call := Call(D.Request, [], [], Some([]));
    ActivateEncodable(StreamIdOf(0), [], [], []);
    NothingRun();
    var es, waiting := CallsReachWaiting([], INITIAL, call);
    var run, last := ManyAllocs(es, waiting, call, ID_BOUND);
    s := last;
    ReachableIfRun(run, s);
    assert s.ops[0] == waiting.ops[0] && s.demux.channels[0] == D.FRESH;
    CollisionDropsTheOlderSink(s, 0, ID_BOUND);
    ActTouches(s, ID_BOUND, Register);
  }
}
