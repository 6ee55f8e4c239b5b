/** The demultiplexer: the registry of waiting sinks, the channels behind them, and the steps that
    happen under one registry lock. Operations are numbered in the order they allocate stream-ids. */
module Demux {
  import opened Bytes
  import opened RpcMessage

  datatype Kind = Request | Subscription

  /** The registered sending end of operation `op`'s channel. */
  datatype Sink = Sink(kind: Kind, op: nat)

  type Item = Result<Rpc, Error>

  /** A channel: what is queued, everything ever sent, and whether the receiving end still exists.
      What is sent after the receiver is gone is lost. */
  datatype Channel = Channel(queue: seq<Item>, history: seq<Item>, open: bool) {
    function Send(x: Item): Channel {
      Channel(if open then queue + [x] else queue, history + [x], open)
    }

    function Receive(): Channel
      requires queue != []
    {
      this.(queue := queue[1..])
    }

    function Close(): Channel {
      Channel([], history, false)
    }
  }

  const FRESH := Channel([], [], true)

  datatype State = State(registry: map<int32, Sink>, channels: seq<Channel>, nextId: int32, closed: bool)

  const INITIAL := State(map[], [], 1, false)

  /** The operations with a registered sink. */
  function Registered(d: State): set<nat> {
    set sid | sid in d.registry :: d.registry[sid].op
  }

  /** Every sink has a channel, and no channel has two registered senders. */
  ghost predicate Valid(d: State) {
    && (forall sid | sid in d.registry :: d.registry[sid].op < |d.channels|)
    && (forall sid, sid' | sid in d.registry && sid' in d.registry ::
          d.registry[sid].op == d.registry[sid'].op ==> sid == sid')
  }

  // ---- Steps ----

  /** `fetch_add` on the 32-bit counter, and the caller's fresh channel. */
  function Alloc(d: State): State {
    d.(nextId := Wrap32(d.nextId + 1), channels := d.channels + [FRESH])
  }

  function Register(d: State, sid: int32, sink: Sink): State {
    d.(registry := d.registry[sid := sink])
  }

  function Remove(d: State, sid: int32): State {
    d.(registry := d.registry - {sid})
  }

  function Send(d: State, op: nat, x: Item): State
    requires op < |d.channels|
  {
    d.(channels := d.channels[op := d.channels[op].Send(x)])
  }

  /** The receiving end of an operation's channel goes away. */
  function Close(d: State, op: nat): State
    requires op < |d.channels|
  {
    d.(channels := d.channels[op := d.channels[op].Close()])
  }

  function ServiceErrorFrom(rpc: Rpc): Error {
    Service(if rpc.model.Some? then rpc.model.value else DEFAULT_ERROR_MODEL, rpc.payload)
  }

  /** What a sink is sent for an incoming message. */
  function ItemOf(rpc: Rpc): Item {
    if rpc.messageType.ApplicationError? then Err(ServiceErrorFrom(rpc)) else Ok(rpc)
  }

  /** The item reports the message: as it is, or, if it is an application error, as a service error with
      its model, or the protocol's default one, and its payload. */
  predicate Reports(item: Item, rpc: Rpc) {
    if !rpc.messageType.ApplicationError? then item == Ok(rpc)
    else
      && item.Err? && item.error.Service? && item.error.body == rpc.payload
      && (if rpc.model.Some? then item.error.model == rpc.model.value
          else Spells(item.error.model, "aws.greengrass#ServiceError"))
  }

  lemma ItemReports(rpc: Rpc)
    ensures Reports(ItemOf(rpc), rpc)
    ensures rpc.messageType.ApplicationError? ==> Reports(Err(ServiceErrorFrom(rpc)), rpc)
  {
    hide Ascii, Spells;
    ProtocolTexts();
  }

  /** Whether the message is the last one its sink gets. */
  predicate Closes(kind: Kind, rpc: Rpc) {
    kind.Request? || rpc.TerminatesStream() || rpc.messageType.ApplicationError?
  }

  function Dispatch(d: State, rpc: Rpc): (r: State)
    requires Valid(d)
    ensures Valid(r) && |r.channels| == |d.channels|
  {
    var sid := rpc.streamId;
    if sid !in d.registry then d
    else
      var sink := d.registry[sid];
      var sent := Send(d, sink.op, ItemOf(rpc));
      if Closes(sink.kind, rpc) then Remove(sent, sid) else sent
  }

  /** Teardown: every registered sink gets the error, and the registry is empty. */
  function FailAll(d: State, e: Error): State {
    d.(registry := map[],
       channels := seq(|d.channels|, k requires 0 <= k < |d.channels| =>
                         if k in Registered(d) then d.channels[k].Send(Err(e)) else d.channels[k]))
  }

  /** Failing one sink now and the others later is failing them all. */
  lemma DrainStep(d: State, sid: int32, e: Error)
    requires Valid(d) && sid in d.registry
    ensures var r := Send(Remove(d, sid), d.registry[sid].op, Err(e));
            Valid(r) && FailAll(r, e) == FailAll(d, e)
  {
    var op := d.registry[sid].op;
    var r := Send(Remove(d, sid), op, Err(e));
    forall k: nat
      ensures k in Registered(r) <==> k in Registered(d) && k != op
    {
      if k in Registered(d) && k != op {
        var s :| s in d.registry && d.registry[s].op == k;
        assert s in r.registry;
      }
    }
    assert op in Registered(d);
    hide Registered;
    assert FailAll(r, e).channels == FailAll(d, e).channels;
  }

  lemma FreshIsUnregistered(before: State, after: State)
    requires Valid(before) && after == Alloc(before)
    ensures |before.channels| !in Registered(after)
  {
  }

  lemma ClosingKeepsValid(d: State)
    requires Valid(d)
    ensures Valid(d.(closed := true))
  {
  }

  // ---- Per-stream projection ----

  /** The messages for one stream-id, in order. */
  function Project(sid: int32, xs: seq<Rpc>): seq<Rpc> {
    if xs == [] then []
    else
      var p := Project(sid, xs[..|xs| - 1]);
      if xs[|xs| - 1].streamId == sid then p + [xs[|xs| - 1]] else p
  }

  /** The position of the first closing message, or the number of messages if there is none. */
  function FirstClosing(kind: Kind, xs: seq<Rpc>): (n: nat)
    ensures n <= |xs|
    ensures forall i | 0 <= i < n :: !Closes(kind, xs[i])
    ensures n < |xs| ==> Closes(kind, xs[n])
  {
    if xs == [] || Closes(kind, xs[0]) then 0 else 1 + FirstClosing(kind, xs[1..])
  }

  predicate Finished(kind: Kind, xs: seq<Rpc>) {
    FirstClosing(kind, xs) < |xs|
  }

  /** Everything up to and including the first closing message. */
  function CutOff(kind: Kind, xs: seq<Rpc>): seq<Rpc> {
    if Finished(kind, xs) then xs[..FirstClosing(kind, xs) + 1] else xs
  }

  function Items(xs: seq<Rpc>): seq<Item> {
    seq(|xs|, i requires 0 <= i < |xs| => ItemOf(xs[i]))
  }

  /** What a sink is sent over its life, when xs are the messages on its stream since it was
      registered. */
  function Delivery(kind: Kind, xs: seq<Rpc>): seq<Item> {
    Items(CutOff(kind, xs))
  }

  lemma ProjectSnoc(sid: int32, xs: seq<Rpc>, x: Rpc)
    ensures Project(sid, xs + [x]) ==
            if x.streamId == sid then Project(sid, xs) + [x] else Project(sid, xs)
  {
    assert (xs + [x])[..|xs|] == xs;
  }

  /** A projection picks messages of its stream, and only from the sequence it projects. */
  lemma {:induction false} ProjectOnly(sid: int32, xs: seq<Rpc>, x: Rpc)
    requires x in Project(sid, xs)
    ensures x.streamId == sid && x in xs
    decreases |xs|
  {
    if x in Project(sid, xs[..|xs| - 1]) {
      ProjectOnly(sid, xs[..|xs| - 1], x);
    }
  }

  /** The first closing message is the only position with that property. */
  lemma FirstClosingUnique(kind: Kind, xs: seq<Rpc>, n: nat)
    requires n <= |xs| && forall i | 0 <= i < n :: !Closes(kind, xs[i])
    requires n < |xs| ==> Closes(kind, xs[n])
    ensures n == FirstClosing(kind, xs)
  {
    var m := FirstClosing(kind, xs);
    if m < n {
    } else if n < m {
    }
  }

  /** One more message either reaches the sink, as the last one if it closes, or comes too late. */
  lemma DeliverySnoc(kind: Kind, xs: seq<Rpc>, x: Rpc)
    ensures Finished(kind, xs + [x]) <==> Finished(kind, xs) || Closes(kind, x)
    ensures Delivery(kind, xs + [x]) ==
            if Finished(kind, xs) then Delivery(kind, xs) else Delivery(kind, xs) + [ItemOf(x)]
  {
    hide Closes, FirstClosing;
    var n, ys := FirstClosing(kind, xs), xs + [x];
    assert forall i | 0 <= i < |xs| :: ys[i] == xs[i];
    if Finished(kind, xs) {
      FirstClosingUnique(kind, ys, n);
      assert ys[..n + 1] == xs[..n + 1];
    } else if Closes(kind, x) {
      FirstClosingUnique(kind, ys, |xs|);
      assert ys[..|xs| + 1] == ys;
      assert Items(ys) == Items(xs) + [ItemOf(x)];
    } else {
      FirstClosingUnique(kind, ys, |ys|);
      assert Items(ys) == Items(xs) + [ItemOf(x)];
    }
  }

  /** The shape of every channel: non-terminating messages, then at most one final item, which for a
      subscription is terminating or an error; and an Ok item is never an application error. */
  lemma DeliveryShape(kind: Kind, xs: seq<Rpc>)
    ensures var d := Delivery(kind, xs);
            && (forall i | 0 <= i < |d| - 1 ::
                  kind.Subscription? && d[i].Ok? && !d[i].value.TerminatesStream())
            && (d != [] && Finished(kind, xs) && kind.Subscription? ==>
                  d[|d| - 1].Err? || d[|d| - 1].value.TerminatesStream())
            && (d != [] && !Finished(kind, xs) ==>
                  kind.Subscription? && d[|d| - 1].Ok? && !d[|d| - 1].value.TerminatesStream())
            && (forall i | 0 <= i < |d| && d[i].Ok? :: !d[i].value.messageType.ApplicationError?)
            && (forall i | 0 <= i < |d| && d[i].Err? :: d[i].error.Service?)
            && (kind.Request? ==> |d| <= 1 && (Finished(kind, xs) <==> xs != []))
            && (d == [] <==> xs == [])
  {
    hide HasFlag, FirstClosing;
    var n, d := FirstClosing(kind, xs), Delivery(kind, xs);
    forall i | 0 <= i < |d|
      ensures d[i] == ItemOf(xs[i]) && (i < n ==> !Closes(kind, xs[i]))
    {
    }
    if kind.Request? && |xs| > 0 {
      assert Closes(kind, xs[0]);
    }
  }

  /** Item by item, a delivery reports the messages in order, and it ends with the first one that
      terminates the stream or is an application error, for a request with the first of all. */
  lemma DeliveryReports(kind: Kind, xs: seq<Rpc>)
    ensures var d := Delivery(kind, xs);
            && |d| <= |xs|
            && (forall i | 0 <= i < |d| :: Reports(d[i], xs[i]))
            && (forall i | 0 <= i < |d| - 1 :: !Final(kind, xs[i]))
            && (|d| < |xs| ==> |d| > 0 && Final(kind, xs[|d| - 1]))
            && (Finished(kind, xs) <==> |d| > 0 && Final(kind, xs[|d| - 1]))
  {
    hide FirstClosing, ItemOf, Reports, HasFlag;
    var d := Delivery(kind, xs);
    forall x: Rpc
      ensures Closes(kind, x) <==> Final(kind, x)
    {
      RpcFlags(x);
    }
    forall i | 0 <= i < |d|
      ensures Reports(d[i], xs[i])
    {
      ItemReports(xs[i]);
    }
  }

  /** A message after which its sink gets nothing: any for a request; for a subscription one that is an
      application error or has bit 1 of its flags set. */
  predicate Final(kind: Kind, rpc: Rpc) {
    kind == Request || rpc.messageType == ApplicationError || rpc.flags % 4 >= 2
  }

  // ---- Runs of dispatches ----

  function DispatchAll(d: State, xs: seq<Rpc>): (r: State)
    requires Valid(d)
    ensures Valid(r) && |r.channels| == |d.channels|
  {
    if xs == [] then d else Dispatch(DispatchAll(d, xs[..|xs| - 1]), xs[|xs| - 1])
  }

  /** r is d after some sinks have been removed and some registered channels have been sent to. */
  ghost predicate Descends(d: State, r: State) {
    && |r.channels| == |d.channels| && r.nextId == d.nextId && r.closed == d.closed
    && (forall sid | sid in r.registry :: sid in d.registry && r.registry[sid] == d.registry[sid])
    && (forall k: nat | k < |d.channels| && k !in Registered(d) :: r.channels[k] == d.channels[k])
  }

  /** What sending xs does to a channel. */
  function SendAll(c: Channel, xs: seq<Item>): Channel {
    Channel(if c.open then c.queue + xs else c.queue, c.history + xs, c.open)
  }

  /** r is d after the messages ys have come in on stream sid. */
  ghost predicate Tracks(d: State, r: State, sid: int32, ys: seq<Rpc>)
    requires Valid(d) && |r.channels| == |d.channels|
  {
    if sid !in d.registry then sid !in r.registry
    else
      var sink := d.registry[sid];
      && (sid in r.registry <==> !Finished(sink.kind, ys))
      && r.channels[sink.op] == SendAll(d.channels[sink.op], Delivery(sink.kind, ys))
  }

  lemma DispatchDescends(d: State, r: State, x: Rpc)
    requires Valid(d) && Valid(r) && Descends(d, r)
    ensures Descends(d, Dispatch(r, x))
  {
    hide Closes, ItemOf;
    var sid := x.streamId;
    if sid in r.registry {
      assert r.registry[sid].op in Registered(d);
    }
  }

  lemma DispatchTracks(d: State, r: State, x: Rpc, sid: int32, ys: seq<Rpc>)
    requires Valid(d) && Valid(r) && Descends(d, r) && Tracks(d, r, sid, ys)
    ensures Tracks(d, Dispatch(r, x), sid, if x.streamId == sid then ys + [x] else ys)
  {
    hide Closes, ItemOf, Delivery, Finished;
    if sid in d.registry && x.streamId == sid {
      DeliverySnoc(d.registry[sid].kind, ys, x);
    }
  }

  lemma NothingDelivered(d: State, sid: int32)
    requires Valid(d)
    ensures Descends(d, d) && Tracks(d, d, sid, [])
  {
    assert Delivery(Request, []) == [] && Delivery(Subscription, []) == [];
    if sid in d.registry {
      var c := d.channels[d.registry[sid].op];
      assert c.queue + [] == c.queue && c.history + [] == c.history;
    }
  }

  /** A run of dispatches refines the per-stream projection: the channel of every registered sink
      gets the delivery of the messages on its stream, the sink stays exactly as long as that is
      unfinished, and nothing else changes. */
  lemma {:induction false} DispatchAllByStream(d: State, xs: seq<Rpc>, sid: int32)
    requires Valid(d)
    ensures Descends(d, DispatchAll(d, xs))
    ensures Tracks(d, DispatchAll(d, xs), sid, Project(sid, xs))
    decreases |xs|
  {
    hide Dispatch, Valid, Descends, Tracks;
    if xs == [] {
      NothingDelivered(d, sid);
    } else {
      var n := |xs| - 1;
      DispatchAllByStream(d, xs[..n], sid);
      DispatchDescends(d, DispatchAll(d, xs[..n]), xs[n]);
      DispatchTracks(d, DispatchAll(d, xs[..n]), xs[n], sid, Project(sid, xs[..n]));
    }
  }

  /** Two states that track the same messages on every stream are the same. */
  lemma TracksDetermines(d: State, r: State, s: State, ys: map<int32, seq<Rpc>>)
    requires Valid(d) && Descends(d, r) && Descends(d, s)
    requires forall sid | sid in d.registry ::
               sid in ys && Tracks(d, r, sid, ys[sid]) && Tracks(d, s, sid, ys[sid])
    ensures r == s
  {
    hide Delivery, Finished, SendAll;
    assert r.registry == s.registry;
    forall k: nat | k < |d.channels|
      ensures r.channels[k] == s.channels[k]
    {
      if k in Registered(d) {
        var sid :| sid in d.registry && d.registry[sid].op == k;
        assert Tracks(d, r, sid, ys[sid]) && Tracks(d, s, sid, ys[sid]);
      }
    }
    assert r.channels == s.channels;
  }

  /** Interleaving independence: inbound sequences that agree on every stream leave the same
      registry and the same channel contents, and so does a teardown after them. */
  lemma InterleavingIndependence(d: State, xs: seq<Rpc>, ys: seq<Rpc>, e: Error)
    requires Valid(d)
    requires forall sid: int32 :: Project(sid, xs) == Project(sid, ys)
    ensures DispatchAll(d, xs) == DispatchAll(d, ys)
    ensures FailAll(DispatchAll(d, xs), e) == FailAll(DispatchAll(d, ys), e)
  {
    hide Tracks, Descends, DispatchAll, Project, FailAll;
    DispatchAllByStream(d, xs, 0);
    DispatchAllByStream(d, ys, 0);
    var byStream := map sid | sid in d.registry :: Project(sid, xs);
    forall sid | sid in d.registry
      ensures Tracks(d, DispatchAll(d, xs), sid, byStream[sid]) && Tracks(d, DispatchAll(d, ys), sid, byStream[sid])
    {
      DispatchAllByStream(d, xs, sid);
      DispatchAllByStream(d, ys, sid);
    }
    TracksDetermines(d, DispatchAll(d, xs), DispatchAll(d, ys), byStream);
  }

  /** Dispatches on different streams commute. */
  lemma DispatchesCommute(d: State, x: Rpc, y: Rpc)
    requires Valid(d) && x.streamId != y.streamId
    ensures Dispatch(Dispatch(d, x), y) == Dispatch(Dispatch(d, y), x)
  {
    forall sid: int32
      ensures Project(sid, [x, y]) == Project(sid, [y, x])
    {
      ProjectSnoc(sid, [x], y);
      ProjectSnoc(sid, [y], x);
      assert [x] + [y] == [x, y] && [y] + [x] == [y, x];
      ProjectSnoc(sid, [], x);
      ProjectSnoc(sid, [], y);
      assert [] + [x] == [x] && [] + [y] == [y];
    }
    InterleavingIndependence(d, [x, y], [y, x], ConnectionClosed);
    TwoDispatches(d, x, y);
    TwoDispatches(d, y, x);
  }

  lemma TwoDispatches(d: State, x: Rpc, y: Rpc)
    requires Valid(d)
    ensures DispatchAll(d, [x, y]) == Dispatch(Dispatch(d, x), y)
  {
    hide Dispatch, Valid;
    assert [x, y][..1] == [x] && [x][..0] == [];
    assert DispatchAll(d, [x]) == Dispatch(DispatchAll(d, []), x);
  }

  /** Frames without a registered sink are dropped without a trace. */
  lemma UnknownStreamIgnored(d: State, x: Rpc)
    requires Valid(d)
    ensures Dispatch(d, x) == d <==> x.streamId !in d.registry
  {
    if x.streamId in d.registry {
      var op := d.registry[x.streamId].op;
      assert |Dispatch(d, x).channels[op].history| == |d.channels[op].history| + 1;
    }
  }
}
