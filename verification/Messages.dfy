/** The messages the client sends, and that the parser reads back what was put into them. */
module Messages {
  import opened Bytes
  import opened Frame
  import opened RpcMessage

  function IntHeader(name: bytes, value: int32): Header { Header(name, Int32(value)) }

  function TextHeader(name: bytes, value: bytes): Header { Header(name, String(value)) }

  /** The three integer headers every message of the client starts with. */
  function Preamble(t: MessageType, flags: int32, streamId: int32): seq<Header> {
    [IntHeader(MESSAGE_TYPE, TypeNumber(t)), IntHeader(MESSAGE_FLAGS, flags), IntHeader(STREAM_ID, streamId)]
  }

  /** Opens the connection; the payload carries the auth token. */
  function ConnectMessage(payload: bytes): Message {
    Message(Preamble(Connect, NONE, 0)
            + [TextHeader(VERSION, PROTOCOL_VERSION), TextHeader(CONTENT_TYPE, CONTENT_TYPE_JSON)],
            payload)
  }

  /** The first application message of an operation stream. */
  function ActivateMessage(streamId: int32, operation: bytes, model: bytes, payload: bytes): Message {
    Message(Preamble(ApplicationMessage, NONE, streamId)
            + [TextHeader(CONTENT_TYPE, CONTENT_TYPE_JSON), TextHeader(OPERATION, operation),
               TextHeader(SERVICE_MODEL_TYPE, model)],
            payload)
  }

  /** Closes an operation stream. */
  function TerminateMessage(streamId: int32): Message {
    Message(Preamble(ApplicationMessage, TERMINATE_STREAM, streamId) + [], [])
  }

  /** Answers a `Ping` with its own payload. */
  function PingResponseMessage(payload: bytes): Message {
    Message(Preamble(PingResponse, NONE, 0) + [], payload)
  }

  /** The header is the pair of this name and this integer. */
  predicate IsInt(h: Header, name: string, n: int) {
    Spells(h.name, name) && h.value.Int32? && h.value.i32 == n
  }

  /** The header is the pair of this name and this text. */
  predicate IsText(h: Header, name: string, text: string) {
    Spells(h.name, name) && h.value.String? && Spells(h.value.text, text)
  }

  predicate IsBytes(h: Header, name: string, text: bytes) {
    Spells(h.name, name) && h.value == String(text)
  }

  /** The header block of every message the client sends, pair by pair as the protocol names them. */
  lemma HeaderBlocks(streamId: int32, operation: bytes, model: bytes, payload: bytes)
    ensures var m := ConnectMessage(payload);
            var hs := m.headers;
            && |hs| == 5 && m.payload == payload
            && IsInt(hs[0], ":message-type", 4) && IsInt(hs[1], ":message-flags", 0)
            && IsInt(hs[2], ":stream-id", 0) && IsText(hs[3], ":version", "0.1.0")
            && IsText(hs[4], ":content-type", "application/json")
    ensures var m := ActivateMessage(streamId, operation, model, payload);
            var hs := m.headers;
            && |hs| == 6 && m.payload == payload
            && IsInt(hs[0], ":message-type", 0) && IsInt(hs[1], ":message-flags", 0)
            && IsInt(hs[2], ":stream-id", streamId) && IsText(hs[3], ":content-type", "application/json")
            && IsBytes(hs[4], "operation", operation) && IsBytes(hs[5], "service-model-type", model)
    ensures var m := TerminateMessage(streamId);
            var hs := m.headers;
            && |hs| == 3 && m.payload == []
            && IsInt(hs[0], ":message-type", 0) && IsInt(hs[1], ":message-flags", 2)
            && IsInt(hs[2], ":stream-id", streamId)
    ensures var m := PingResponseMessage(payload);
            var hs := m.headers;
            && |hs| == 3 && m.payload == payload
            && IsInt(hs[0], ":message-type", 3) && IsInt(hs[1], ":message-flags", 0)
            && IsInt(hs[2], ":stream-id", 0)
  {
    hide Ascii, Spells;
    ProtocolTexts();
  }

  lemma PreambleSets(t: MessageType, flags: int32, streamId: int32, f: Field)
    ensures var p := Preamble(t, flags, streamId);
            Setters(p, f) == if f.TypeField? then [p[0]] else if f.FlagsField? then [p[1]]
                             else if f.StreamField? then [p[2]] else []
  {
    FieldsOfWellKnownHeaders();
    hide FieldOf, Setters;
    var p := Preamble(t, flags, streamId);
    assert p == [] + [p[0]] + [p[1]] + [p[2]];
    SettersSnoc([], p[0], f);
    SettersSnoc([] + [p[0]], p[1], f);
    SettersSnoc([] + [p[0]] + [p[1]], p[2], f);
    NothingSet(f);
  }

  lemma NothingSet(f: Field)
    ensures Setters([], f) == []
  {
  }

  lemma PreambleFaultless(t: MessageType, flags: int32, streamId: int32, rest: seq<Header>)
    requires forall i | 0 <= i < |rest| :: !IsInteger(FieldOf(rest[i].name))
    ensures FirstFault(Preamble(t, flags, streamId) + rest).None?
  {
    hide FirstFault, FieldOf, IsInteger, TypeNumber;
    var hs := Preamble(t, flags, streamId) + rest;
    NoFault(hs);
    forall i | 0 <= i < |hs|
      ensures !Faulty(hs[i])
    {
      if i >= 3 {
        assert hs[i] == rest[i - 3];
      }
    }
  }

  /** Text headers behind the preamble add at most a model to what the preamble says. */
  lemma PreambleParses(t: MessageType, flags: int32, streamId: int32, rest: seq<Header>, payload: bytes)
    requires forall i | 0 <= i < |rest| :: !IsInteger(FieldOf(rest[i].name))
    ensures Parsed(Message(Preamble(t, flags, streamId) + rest, payload)) ==
            Ok(Rpc(t, flags, streamId, ModelOf(rest), payload))
  {
    var p := Preamble(t, flags, streamId);
    PreambleFaultless(t, flags, streamId, rest);
    PreambleField(t, flags, streamId, rest, TypeField);
    PreambleField(t, flags, streamId, rest, FlagsField);
    PreambleField(t, flags, streamId, rest, StreamField);
    PreambleField(t, flags, streamId, rest, ModelField);
    FromI32Inverts(TypeNumber(t), t);
    hide FirstFault, IntegerField, ModelOf, FromI32, TypeNumber, Preamble;
  }

  lemma PreambleField(t: MessageType, flags: int32, streamId: int32, rest: seq<Header>, f: Field)
    requires forall i | 0 <= i < |rest| :: !IsInteger(FieldOf(rest[i].name))
    ensures var hs := Preamble(t, flags, streamId) + rest;
            && (IsInteger(f) ==>
                  IntegerField(hs, f) ==
                  Some(if f.TypeField? then TypeNumber(t) else if f.FlagsField? then flags else streamId))
            && (f.ModelField? ==> ModelOf(hs) == ModelOf(rest))
  {
    hide FieldOf, Setters, TypeNumber;
    var p := Preamble(t, flags, streamId);
    PreambleSets(t, flags, streamId, f);
    SettersConcat(p, rest, f);
    if IsInteger(f) {
      NotSet(rest, f);
      assert Setters(p, f) + [] == Setters(p, f);
    } else {
      assert [] + Setters(rest, f) == Setters(rest, f);
    }
  }

  lemma NotSet(hs: seq<Header>, f: Field)
    requires IsInteger(f) && forall i | 0 <= i < |hs| :: !IsInteger(FieldOf(hs[i].name))
    ensures Setters(hs, f) == []
  {
    hide FieldOf;
    LastSetterIsLast(hs, f);
  }

  lemma ConnectParses(payload: bytes)
    ensures Parsed(ConnectMessage(payload)) == Ok(Rpc(Connect, NONE, 0, None, payload))
  {
    FieldsOfWellKnownHeaders();
    hide FieldOf, Parsed;
    var rest := [TextHeader(VERSION, PROTOCOL_VERSION), TextHeader(CONTENT_TYPE, CONTENT_TYPE_JSON)];
    LastSetterIsLast(rest, ModelField);
    PreambleParses(Connect, NONE, 0, rest, payload);
  }

  lemma ActivateParses(streamId: int32, operation: bytes, model: bytes, payload: bytes)
    ensures Parsed(ActivateMessage(streamId, operation, model, payload)) ==
            Ok(Rpc(ApplicationMessage, NONE, streamId, Some(model), payload))
  {
    FieldsOfWellKnownHeaders();
    hide FieldOf, Parsed;
    var rest := [TextHeader(CONTENT_TYPE, CONTENT_TYPE_JSON), TextHeader(OPERATION, operation),
                 TextHeader(SERVICE_MODEL_TYPE, model)];
    LastSetterIsLast(rest, ModelField);
    assert IsLastSetter(rest, 2, ModelField);
    PreambleParses(ApplicationMessage, NONE, streamId, rest, payload);
  }

  lemma TerminateParses(streamId: int32)
    ensures Parsed(TerminateMessage(streamId)) ==
            Ok(Rpc(ApplicationMessage, TERMINATE_STREAM, streamId, None, []))
  {
    hide FieldOf, Parsed;
    NothingRead();
    PreambleParses(ApplicationMessage, TERMINATE_STREAM, streamId, [], []);
  }

  lemma PingResponseParses(payload: bytes)
    ensures Parsed(PingResponseMessage(payload)) == Ok(Rpc(PingResponse, NONE, 0, None, payload))
  {
    hide FieldOf, Parsed;
    NothingRead();
    PreambleParses(PingResponse, NONE, 0, [], payload);
  }

  /** The text a header of this name carries, going by the first one. */
  function TextOf(hs: seq<Header>, name: bytes): Option<bytes> {
    if hs == [] then None
    else if hs[0].name == name && hs[0].value.String? then Some(hs[0].value.text)
    else TextOf(hs[1..], name)
  }

  lemma {:induction false} TextBehindIntegers(a: seq<Header>, b: seq<Header>, name: bytes)
    requires forall i | 0 <= i < |a| :: !a[i].value.String?
    ensures TextOf(a + b, name) == TextOf(b, name)
  {
    if a == [] {
      assert a + b == b;
    } else {
      assert (a + b)[1..] == a[1..] + b;
      TextBehindIntegers(a[1..], b, name);
    }
  }

  lemma NamesDiffer()
    ensures OPERATION != CONTENT_TYPE && SERVICE_MODEL_TYPE != CONTENT_TYPE && SERVICE_MODEL_TYPE != OPERATION
    ensures VERSION != CONTENT_TYPE
  {
  }

  /** The headers only the nucleus reads: operation, model and content type of an activate frame,
      protocol version and content type of a Connect. */
  lemma TextHeadersOfRequests(streamId: int32, operation: bytes, model: bytes, payload: bytes)
    ensures var hs := ActivateMessage(streamId, operation, model, payload).headers;
            && TextOf(hs, OPERATION) == Some(operation)
            && TextOf(hs, SERVICE_MODEL_TYPE) == Some(model)
            && TextOf(hs, CONTENT_TYPE) == Some(CONTENT_TYPE_JSON)
    ensures var hs := ConnectMessage(payload).headers;
            && TextOf(hs, VERSION) == Some(PROTOCOL_VERSION)
            && TextOf(hs, CONTENT_TYPE) == Some(CONTENT_TYPE_JSON)
  {
    hide Ascii;
    NamesDiffer();
    forall name: bytes
      ensures TextOf(ActivateMessage(streamId, operation, model, payload).headers, name) ==
              if name == CONTENT_TYPE then Some(CONTENT_TYPE_JSON) else if name == OPERATION then Some(operation)
              else if name == SERVICE_MODEL_TYPE then Some(model) else None
    {
      var b := [TextHeader(CONTENT_TYPE, CONTENT_TYPE_JSON), TextHeader(OPERATION, operation),
                TextHeader(SERVICE_MODEL_TYPE, model)];
      TextBehindIntegers(Preamble(ApplicationMessage, NONE, streamId), b, name);
      ThreeTexts(b[0], b[1], b[2], name);
    }
    forall name: bytes
      ensures TextOf(ConnectMessage(payload).headers, name) ==
              if name == VERSION then Some(PROTOCOL_VERSION) else if name == CONTENT_TYPE then Some(CONTENT_TYPE_JSON)
              else None
    {
      var b := [TextHeader(VERSION, PROTOCOL_VERSION), TextHeader(CONTENT_TYPE, CONTENT_TYPE_JSON)];
      TextBehindIntegers(Preamble(Connect, NONE, 0), b, name);
      TwoTexts(b[0], b[1], name);
    }
  }

  lemma TwoTexts(a: Header, b: Header, name: bytes)
    requires a.value.String? && b.value.String?
    ensures TextOf([a, b], name) ==
            if name == a.name then Some(a.value.text) else if name == b.name then Some(b.value.text) else None
  {
    assert [a, b][1..] == [b] && [b][1..] == [];
    assert TextOf([b], name) == if name == b.name then Some(b.value.text) else TextOf([], name);
  }

  lemma ThreeTexts(a: Header, b: Header, c: Header, name: bytes)
    requires a.value.String? && b.value.String? && c.value.String?
    ensures TextOf([a, b, c], name) ==
            if name == a.name then Some(a.value.text) else if name == b.name then Some(b.value.text)
            else if name == c.name then Some(c.value.text) else None
  {
    assert [a, b, c][1..] == [b, c];
    TwoTexts(b, c, name);
  }

  // ---- Across the wire ----

  /** What a peer makes of the front of a byte stream: a parsed message and what follows it. */
  function Received(s: bytes): Option<(Rpc, bytes)> {
    match FirstFrame(s)
    case Whole(m, t) => if Parsed(m).Ok? then Some((Parsed(m).value, t)) else None
    case _ => None
  }

  /** Any encodable message the client builds is read back by a peer field by field, whatever
      follows it on the stream. */
  lemma BuiltMessagesSurviveTheWire(
      streamId: int32, operation: bytes, model: bytes, payload: bytes, tail: bytes)
    ensures var m := ConnectMessage(payload);
            Encodable(m) ==>
              Received(Encode(m) + tail) == Some((Rpc(Connect, NONE, 0, None, payload), tail))
    ensures var m := ActivateMessage(streamId, operation, model, payload);
            Encodable(m) ==>
              Received(Encode(m) + tail)
              == Some((Rpc(ApplicationMessage, NONE, streamId, Some(model), payload), tail))
    ensures var m := PingResponseMessage(payload);
            Encodable(m) ==>
              Received(Encode(m) + tail) == Some((Rpc(PingResponse, NONE, 0, None, payload), tail))
    ensures var m := TerminateMessage(streamId);
            && Encodable(m)
            && Received(Encode(m) + tail)
               == Some((Rpc(ApplicationMessage, TERMINATE_STREAM, streamId, None, []), tail))
  {
    hide Encode, FirstFrame, Parsed, Encodable, ConnectMessage, ActivateMessage, TerminateMessage,
      PingResponseMessage;
    ConnectParses(payload);
    ActivateParses(streamId, operation, model, payload);
    PingResponseParses(payload);
    TerminateParses(streamId);
    TerminateEncodable(streamId);
    forall m: Message | Encodable(m)
      ensures FirstFrame(Encode(m) + tail) == Whole(m, tail)
    {
      FirstFrameOfEncoded(m, tail);
    }
  }

  lemma IntHeaderEncodable(name: bytes, v: int32)
    requires |name| < 0x100 && forall i | 0 <= i < |name| :: name[i] < 0x80
    ensures HeaderEncodable(IntHeader(name, v))
    ensures |EncodeHeader(IntHeader(name, v))| == |name| + 6
  {
    hide IsUtf8, Be32;
    AsciiIsUtf8(name);
  }

  lemma ThreeHeaders(a: Header, b: Header, c: Header)
    requires HeaderEncodable(a) && HeaderEncodable(b) && HeaderEncodable(c)
    ensures HeadersEncodable([a, b, c])
    ensures |EncodeHeaders([a, b, c])| == |EncodeHeader(a)| + |EncodeHeader(b)| + |EncodeHeader(c)|
  {
    hide HeaderEncodable, EncodeHeader;
    assert [a, b, c][1..] == [b, c] && [b, c][1..] == [c] && [c][1..] == [];
    assert EncodeHeaders([a, b, c]) == EncodeHeader(a) + EncodeHeaders([b, c]);
    assert EncodeHeaders([b, c]) == EncodeHeader(b) + EncodeHeaders([c]);
    assert EncodeHeaders([c]) == EncodeHeader(c) + EncodeHeaders([]);
  }

  /** A message with nothing but the preamble and a moderate payload fits a frame. */
  lemma PreambleEncodable(t: MessageType, flags: int32, streamId: int32, payload: bytes)
    requires |payload| < 0x8000_0000
    ensures Encodable(Message(Preamble(t, flags, streamId) + [], payload))
  {
    hide EncodeHeader, HeaderEncodable, EncodeHeaders, HeadersEncodable, IntHeader;
    IntHeaderEncodable(MESSAGE_TYPE, TypeNumber(t));
    IntHeaderEncodable(MESSAGE_FLAGS, flags);
    IntHeaderEncodable(STREAM_ID, streamId);
    var hs := Preamble(t, flags, streamId);
    ThreeHeaders(hs[0], hs[1], hs[2]);
    assert hs == [hs[0], hs[1], hs[2]] && hs + [] == hs;
  }

  /** A terminate message always fits a frame, so closing a stream never fails to encode. */
  lemma TerminateEncodable(streamId: int32)
    ensures Encodable(TerminateMessage(streamId))
  {
    hide Encodable, Preamble;
    PreambleEncodable(ApplicationMessage, TERMINATE_STREAM, streamId, []);
  }

  lemma TextHeaderEncodable(name: bytes, text: bytes)
    requires |name| < 0x100 && (forall i | 0 <= i < |name| :: name[i] < 0x80)
    requires |text| < 0x1_0000 && IsUtf8(text)
    ensures HeaderEncodable(TextHeader(name, text))
    ensures |EncodeHeader(TextHeader(name, text))| == |name| + |text| + 4
  {
    hide IsUtf8, Be16;
    AsciiIsUtf8(name);
  }

  lemma {:induction false} EncodeHeadersConcat(a: seq<Header>, b: seq<Header>)
    requires HeadersEncodable(a) && HeadersEncodable(b)
    ensures HeadersEncodable(a + b) && EncodeHeaders(a + b) == EncodeHeaders(a) + EncodeHeaders(b)
  {
    hide HeaderEncodable, EncodeHeader;
    if a == [] {
      assert a + b == b;
    } else {
      EncodeHeadersConcat(a[1..], b);
      assert (a + b)[1..] == a[1..] + b;
      assert EncodeHeaders(a + b) == EncodeHeader(a[0]) + (EncodeHeaders(a[1..]) + EncodeHeaders(b));
    }
  }

  /** An activate frame fits as long as its names fit a header and its payload is below 2 GiB. */
  lemma ActivateEncodable(streamId: int32, operation: bytes, model: bytes, payload: bytes)
    requires |operation| < 0x1_0000 && IsUtf8(operation) && |model| < 0x1_0000 && IsUtf8(model)
    requires |payload| < 0x8000_0000
    ensures Encodable(ActivateMessage(streamId, operation, model, payload))
  {
    hide EncodeHeader, HeaderEncodable, EncodeHeaders, HeadersEncodable, IntHeader, TextHeader, IsUtf8;
    IntHeaderEncodable(MESSAGE_TYPE, TypeNumber(ApplicationMessage));
    IntHeaderEncodable(MESSAGE_FLAGS, NONE);
    IntHeaderEncodable(STREAM_ID, streamId);
    AsciiIsUtf8(CONTENT_TYPE_JSON);
    TextHeaderEncodable(CONTENT_TYPE, CONTENT_TYPE_JSON);
    TextHeaderEncodable(OPERATION, operation);
    TextHeaderEncodable(SERVICE_MODEL_TYPE, model);
    var a := Preamble(ApplicationMessage, NONE, streamId);
    var b := [TextHeader(CONTENT_TYPE, CONTENT_TYPE_JSON), TextHeader(OPERATION, operation),
              TextHeader(SERVICE_MODEL_TYPE, model)];
    ThreeHeaders(a[0], a[1], a[2]);
    ThreeHeaders(b[0], b[1], b[2]);
    EncodeHeadersConcat(a, b);
  }
}
