/** The RPC layer on top of frames: message types, flags, well-known headers, the messages the
    client builds, and the parser that reads the RPC fields out of a decoded frame. */
module RpcMessage {
  import opened Bytes
  import opened Frame

  // ---- Errors ----

  datatype FrameFault =
    | Undecodable
    | Unencodable
    | NotAnInteger(name: bytes)
    | OutOfRange(name: bytes)
    | MissingMessageType
    | UnknownMessageType(raw: int32)

  datatype HandshakeFault = ClosedDuringHandshake | UnexpectedMessage(got: MessageType) | Rejected

  /** `body` of a Service error is the payload its human-readable message is read from. */
  datatype Error =
    | Io
    | Handshake(why: HandshakeFault)
    | Framing(fault: FrameFault)
    | Payload
    | Service(model: bytes, body: bytes)
    | Timeout(operation: bytes)
    | ConnectionClosed

  // ---- Message types and flags ----

  datatype MessageType =
    | ApplicationMessage
    | ApplicationError
    | Ping
    | PingResponse
    | Connect
    | ConnectAck
    | ProtocolError
    | InternalError

  function TypeNumber(t: MessageType): int32 {
    match t
    case ApplicationMessage => 0
    case ApplicationError => 1
    case Ping => 2
    case PingResponse => 3
    case Connect => 4
    case ConnectAck => 5
    case ProtocolError => 6
    case InternalError => 7
  }

  function FromI32(v: int32): Option<MessageType> {
    match v
    case 0 => Some(ApplicationMessage)
    case 1 => Some(ApplicationError)
    case 2 => Some(Ping)
    case 3 => Some(PingResponse)
    case 4 => Some(Connect)
    case 5 => Some(ConnectAck)
    case 6 => Some(ProtocolError)
    case 7 => Some(InternalError)
    case _ => None
  }

  lemma FromI32Inverts(v: int32, t: MessageType)
    ensures FromI32(v) == Some(t) <==> TypeNumber(t) == v
    ensures FromI32(v).Some? <==> 0 <= v <= 7
  {
    match v
    case 0 => case 1 => case 2 => case 3 => case 4 => case 5 => case 6 => case 7 =>
    case _ =>
  }

  /** The numbers of the protocol's message types, and no others. */
  lemma TypeNumbers(v: int32)
    ensures FromI32(v) ==
            if v == 0 then Some(ApplicationMessage) else if v == 1 then Some(ApplicationError)
            else if v == 2 then Some(Ping) else if v == 3 then Some(PingResponse)
            else if v == 4 then Some(Connect) else if v == 5 then Some(ConnectAck)
            else if v == 6 then Some(ProtocolError) else if v == 7 then Some(InternalError)
            else None
  {
  }

  const NONE: int32 := 0x0
  const CONNECTION_ACCEPTED: int32 := 0x1
  const TERMINATE_STREAM: int32 := 0x2

  /** Bitwise `and` of two natural numbers. */
  function BitAnd(a: nat, b: nat): nat
    decreases a
  {
    if a == 0 || b == 0 then 0 else a % 2 * (b % 2) + 2 * BitAnd(a / 2, b / 2)
  }

  /** `flags & mask != 0` on two's complement 32-bit values. */
  predicate HasFlag(flags: int32, mask: int32) {
    BitAnd(Unsigned(flags, 0x1_0000_0000), Unsigned(mask, 0x1_0000_0000)) != 0
  }

  lemma BitAndOne(a: nat)
    ensures BitAnd(a, 1) == a % 2
  {
  }

  lemma BitAndTwo(a: nat)
    ensures BitAnd(a, 2) == 2 * (a / 2 % 2)
  {
    BitAndOne(a / 2);
  }

  /** Bit k of a signed number, counted on its two's complement representation. */
  lemma FlagTests(flags: int32)
    ensures HasFlag(flags, CONNECTION_ACCEPTED) <==> flags % 2 == 1
    ensures HasFlag(flags, TERMINATE_STREAM) <==> flags % 4 >= 2
  {
    BitAndOne(Unsigned(flags, 0x1_0000_0000));
    BitAndTwo(Unsigned(flags, 0x1_0000_0000));
  }

  // ---- Well-known headers ----

  const MESSAGE_TYPE := Ascii(":message-type")
  const MESSAGE_FLAGS := Ascii(":message-flags")
  const STREAM_ID := Ascii(":stream-id")
  const CONTENT_TYPE := Ascii(":content-type")
  const VERSION := Ascii(":version")
  const SERVICE_MODEL_TYPE := Ascii("service-model-type")
  const OPERATION := Ascii("operation")
  const CONTENT_TYPE_JSON := Ascii("application/json")
  const PROTOCOL_VERSION := Ascii("0.1.0")
  const DEFAULT_ERROR_MODEL := Ascii("aws.greengrass#ServiceError")

  /** Which variable of the parser a header name selects. */
  datatype Field = TypeField | FlagsField | StreamField | ModelField | OtherField

  function FieldOf(name: bytes): Field {
    if name == MESSAGE_TYPE then TypeField
    else if name == MESSAGE_FLAGS then FlagsField
    else if name == STREAM_ID then StreamField
    else if name == SERVICE_MODEL_TYPE then ModelField
    else OtherField
  }

  /** The names and texts of the protocol, letter by letter. */
  lemma ProtocolTexts()
    ensures Spells(MESSAGE_TYPE, ":message-type") && Spells(MESSAGE_FLAGS, ":message-flags")
    ensures Spells(STREAM_ID, ":stream-id") && Spells(CONTENT_TYPE, ":content-type")
    ensures Spells(VERSION, ":version") && Spells(SERVICE_MODEL_TYPE, "service-model-type")
    ensures Spells(OPERATION, "operation") && Spells(CONTENT_TYPE_JSON, "application/json")
    ensures Spells(PROTOCOL_VERSION, "0.1.0") && Spells(DEFAULT_ERROR_MODEL, "aws.greengrass#ServiceError")
  {
    hide Ascii, Spells;
    AsciiSpells(":message-type", MESSAGE_TYPE);
    AsciiSpells(":message-flags", MESSAGE_FLAGS);
    AsciiSpells(":stream-id", STREAM_ID);
    AsciiSpells(":content-type", CONTENT_TYPE);
    AsciiSpells(":version", VERSION);
    AsciiSpells("service-model-type", SERVICE_MODEL_TYPE);
    AsciiSpells("operation", OPERATION);
    AsciiSpells("application/json", CONTENT_TYPE_JSON);
    AsciiSpells("0.1.0", PROTOCOL_VERSION);
    AsciiSpells("aws.greengrass#ServiceError", DEFAULT_ERROR_MODEL);
  }

  /** A name selects a variable of the parser exactly if it is spelled like that header's name. */
  lemma FieldOfSpelled(name: bytes)
    ensures FieldOf(name).TypeField? <==> Spells(name, ":message-type")
    ensures FieldOf(name).FlagsField? <==> Spells(name, ":message-flags")
    ensures FieldOf(name).StreamField? <==> Spells(name, ":stream-id")
    ensures FieldOf(name).ModelField? <==> Spells(name, "service-model-type")
  {
    hide Ascii;
    ProtocolTexts();
  }

  lemma FieldsOfWellKnownHeaders()
    ensures FieldOf(MESSAGE_TYPE) == TypeField
    ensures FieldOf(MESSAGE_FLAGS) == FlagsField
    ensures FieldOf(STREAM_ID) == StreamField
    ensures FieldOf(SERVICE_MODEL_TYPE) == ModelField
    ensures FieldOf(CONTENT_TYPE) == FieldOf(VERSION) == FieldOf(OPERATION) == OtherField
  {
    assert MESSAGE_TYPE[1] == 'm' as int && CONTENT_TYPE[1] == 'c' as int;
  }

  // ---- Parsing ----

  /** A parsed view of a frame. */
  datatype Rpc = Rpc(
    messageType: MessageType, flags: int32, streamId: int32, model: Option<bytes>, payload: bytes)
  {
    predicate TerminatesStream() { HasFlag(flags, TERMINATE_STREAM) }
    predicate ConnectionAccepted() { HasFlag(flags, CONNECTION_ACCEPTED) }
  }

  /** What the two questions asked of a message read: bits 1 and 0 of its flags. */
  lemma RpcFlags(rpc: Rpc)
    ensures rpc.TerminatesStream() <==> rpc.flags % 4 >= 2
    ensures rpc.ConnectionAccepted() <==> rpc.flags % 2 == 1
  {
    hide HasFlag;
    FlagTests(rpc.flags);
  }

  function HeaderI32(h: Header): Result<int32, Error> {
    match h.value
    case Int32(v) => Ok(v)
    case Int16(v) => Ok(v)
    case Byte(v) => Ok(v)
    case Int64(v) => if -0x8000_0000 <= v < 0x8000_0000 then Ok(v) else Err(Framing(OutOfRange(h.name)))
    case _ => Err(Framing(NotAnInteger(h.name)))
  }

  /** The header value is the integer n, in one of the four encodings of an integer. */
  predicate Carries(v: HeaderValue, n: int) {
    match v
    case Byte(x) => x == n
    case Int16(x) => x == n
    case Int32(x) => x == n
    case Int64(x) => x == n
    case _ => false
  }

  /** Exactly what reading an integer header gives: the integer it carries in any of the four encodings
      if that is a 32-bit one, and otherwise an error that says whether it was an integer at all. */
  lemma HeaderI32ExactlyWhen(h: Header, n: int32)
    ensures HeaderI32(h) == Ok(n) <==> Carries(h.value, n)
    ensures HeaderI32(h) == Err(Framing(OutOfRange(h.name))) <==>
            h.value.Int64? && !(-0x8000_0000 <= h.value.i64 < 0x8000_0000)
    ensures HeaderI32(h) == Err(Framing(NotAnInteger(h.name))) <==>
            !h.value.Byte? && !h.value.Int16? && !h.value.Int32? && !h.value.Int64?
    ensures HeaderI32(h).Ok? || HeaderI32(h).error in {Framing(OutOfRange(h.name)), Framing(NotAnInteger(h.name))}
  {
  }

  predicate IsInteger(f: Field) { f.TypeField? || f.FlagsField? || f.StreamField? }

  /** A header that makes the parser give up: an integer field whose value is no 32-bit integer. */
  predicate Faulty(h: Header) {
    IsInteger(FieldOf(h.name)) && HeaderI32(h).Err?
  }

  /** The error of the first faulty header. */
  function FirstFault(hs: seq<Header>): Option<Error> {
    if hs == [] then None
    else if Faulty(hs[0]) then Some(HeaderI32(hs[0]).error)
    else FirstFault(hs[1..])
  }

  /** Whether a header sets field f: any header of that name, except that the model is only set by
      headers of type String. */
  predicate Sets(h: Header, f: Field) {
    FieldOf(h.name) == f && (f.ModelField? ==> h.value.String?)
  }

  /** The headers that set f, in order. */
  function Setters(hs: seq<Header>, f: Field): (r: seq<Header>)
    ensures forall i | 0 <= i < |r| :: Sets(r[i], f)
  {
    if hs == [] then []
    else
      var r := Setters(hs[..|hs| - 1], f);
      if Sets(hs[|hs| - 1], f) then r + [hs[|hs| - 1]] else r
  }

  function LastSetter(hs: seq<Header>, f: Field): Option<Header> {
    var r := Setters(hs, f);
    if r == [] then None else Some(r[|r| - 1])
  }

  function IntegerField(hs: seq<Header>, f: Field): (v: Option<int32>)
    requires IsInteger(f)
  {
    match LastSetter(hs, f)
    case None => None
    case Some(h) => if HeaderI32(h).Ok? then Some(HeaderI32(h).value) else None
  }

  function ModelOf(hs: seq<Header>): Option<bytes> {
    match LastSetter(hs, ModelField)
    case None => None
    case Some(h) => Some(h.value.text)
  }

  function OrElse(v: Option<int32>, default: int32): int32 {
    if v.Some? then v.value else default
  }

  /** What parsing a frame yields. */
  function Parsed(m: Message): Result<Rpc, Error> {
    var hs := m.headers;
    if FirstFault(hs).Some? then Err(FirstFault(hs).value)
    else
      match IntegerField(hs, TypeField)
      case None => Err(Framing(MissingMessageType))
      case Some(raw) =>
        match FromI32(raw)
        case None => Err(Framing(UnknownMessageType(raw)))
        case Some(t) =>
          Ok(Rpc(t, OrElse(IntegerField(hs, FlagsField), NONE), OrElse(IntegerField(hs, StreamField), 0),
                 ModelOf(hs), m.payload))
  }

  lemma SettersSnoc(hs: seq<Header>, h: Header, f: Field)
    ensures Setters(hs + [h], f) == if Sets(h, f) then Setters(hs, f) + [h] else Setters(hs, f)
  {
    assert (hs + [h])[..|hs|] == hs;
  }

  lemma {:induction false} FirstFaultSplit(hs: seq<Header>, n: nat)
    requires n <= |hs|
    ensures FirstFault(hs) == if FirstFault(hs[..n]).Some? then FirstFault(hs[..n]) else FirstFault(hs[n..])
  {
    if n == 0 {
      assert hs[..0] == [] && hs[0..] == hs;
    } else {
      FirstFaultSplit(hs[1..], n - 1);
      assert hs[1..][..n - 1] == hs[..n][1..] && hs[1..][n - 1..] == hs[n..];
    }
  }

  lemma FirstFaultConcat(a: seq<Header>, b: seq<Header>)
    ensures FirstFault(a + b) == if FirstFault(a).Some? then FirstFault(a) else FirstFault(b)
  {
    hide Faulty, HeaderI32;
    FirstFaultSplit(a + b, |a|);
    assert (a + b)[..|a|] == a && (a + b)[|a|..] == b;
  }

  lemma {:induction false} NoFault(hs: seq<Header>)
    ensures FirstFault(hs).None? <==> forall i | 0 <= i < |hs| :: !Faulty(hs[i])
  {
    if hs != [] {
      NoFault(hs[1..]);
      assert forall i | 1 <= i < |hs| :: hs[i] == hs[1..][i - 1];
    }
  }

  /** What one more header does to the faults seen so far. */
  lemma OneMoreFault(hs: seq<Header>, i: nat)
    requires i < |hs| && FirstFault(hs[..i]).None?
    ensures FirstFault(hs[..i + 1]).None? <==> !Faulty(hs[i])
    ensures Faulty(hs[i]) ==> FirstFault(hs) == Some(HeaderI32(hs[i]).error)
  {
    hide Faulty, HeaderI32;
    var p := hs[..i + 1];
    assert p[..i] == hs[..i] && p[i..] == [hs[i]];
    FirstFaultSplit(p, i);
    FirstFaultSplit(hs, i + 1);
  }

  /** What one more header does to the fields read so far. */
  lemma OneMoreHeader(hs: seq<Header>, i: nat, f: Field)
    requires i < |hs| && !Faulty(hs[i])
    ensures IsInteger(f) ==>
              IntegerField(hs[..i + 1], f) ==
              if FieldOf(hs[i].name) == f then Some(HeaderI32(hs[i]).value) else IntegerField(hs[..i], f)
    ensures ModelOf(hs[..i + 1]) ==
            if FieldOf(hs[i].name).ModelField? && hs[i].value.String? then Some(hs[i].value.text)
            else ModelOf(hs[..i])
  {
    hide FieldOf, Setters, HeaderI32;
    assert hs[..i + 1] == hs[..i] + [hs[i]];
    SettersSnoc(hs[..i], hs[i], f);
    SettersSnoc(hs[..i], hs[i], ModelField);
  }

  /** Of several faulty headers, the first one's error is reported, whatever else is wrong. */
  lemma FirstFaultIsFirst(hs: seq<Header>, i: nat, payload: bytes)
    requires i < |hs| && BadInteger(hs[i]) && forall j | 0 <= j < i :: !BadInteger(hs[j])
    ensures Parsed(Message(hs, payload)) ==
            Err(Framing(if hs[i].value.Int64? then OutOfRange(hs[i].name) else NotAnInteger(hs[i].name)))
  {
    hide Faulty, HeaderI32, Carries;
    forall h: Header
      ensures Faulty(h) <==> BadInteger(h)
    {
      BadIntegerIsFaulty(h);
    }
    BadIntegerError(hs[i]);
    NoFault(hs[..i]);
    OneMoreFault(hs, i);
  }

  /** The parser of the client: one pass over the headers that stops at the first bad integer. */
  method Parse(m: Message) returns (r: Result<Rpc, Error>)
    ensures r == Parsed(m)
  {
    hide FieldOf, FirstFault, IntegerField, ModelOf, HeaderI32;
    var messageType: Option<int32> := None;
    var flags: int32 := NONE;
    var streamId: int32 := 0;
    var model: Option<bytes> := None;
    var hs := m.headers;
    NothingRead();
    for i := 0 to |hs|
      invariant FirstFault(hs[..i]).None?
      invariant messageType == IntegerField(hs[..i], TypeField)
      invariant flags == OrElse(IntegerField(hs[..i], FlagsField), NONE)
      invariant streamId == OrElse(IntegerField(hs[..i], StreamField), 0)
      invariant model == ModelOf(hs[..i])
    {
      var h := hs[i];
      OneMoreFault(hs, i);
      if !Faulty(h) {
        OneMoreHeader(hs, i, TypeField);
        OneMoreHeader(hs, i, FlagsField);
        OneMoreHeader(hs, i, StreamField);
      }
      match FieldOf(h.name) {
        case TypeField =>
          var v := HeaderI32(h);
          if v.Err? { return Err(v.error); }
          messageType := Some(v.value);
        case FlagsField =>
          var v := HeaderI32(h);
          if v.Err? { return Err(v.error); }
          flags := v.value;
        case StreamField =>
          var v := HeaderI32(h);
          if v.Err? { return Err(v.error); }
          streamId := v.value;
        case ModelField =>
          if h.value.String? { model := Some(h.value.text); }
        case OtherField =>
      }
    }
    assert hs[..|hs|] == hs;
    if messageType.None? { return Err(Framing(MissingMessageType)); }
    var t := FromI32(messageType.value);
    if t.None? { return Err(Framing(UnknownMessageType(messageType.value))); }
    return Ok(Rpc(t.value, flags, streamId, model, m.payload));
  }

  lemma NothingRead()
    ensures FirstFault([]).None? && ModelOf([]).None? && forall f :: LastSetter([], f).None?
    ensures forall f: Field | IsInteger(f) :: IntegerField([], f).None?
  {
  }

  // ---- What the parser promises ----

  /** Parsing succeeds exactly when every integer field decodes and the last message type is known,
      and then reads the last setter of every field, with flags and stream-id defaulting to 0. */
  lemma ParseSucceedsExactlyWhen(m: Message)
    ensures Parsed(m).Ok? <==>
              && (forall i | 0 <= i < |m.headers| :: !Faulty(m.headers[i]))
              && IntegerField(m.headers, TypeField).Some?
              && 0 <= IntegerField(m.headers, TypeField).value <= 7
    ensures Parsed(m).Ok? ==>
              var r := Parsed(m).value;
              && IntegerField(m.headers, TypeField) == Some(TypeNumber(r.messageType))
              && r.flags == OrElse(IntegerField(m.headers, FlagsField), 0)
              && r.streamId == OrElse(IntegerField(m.headers, StreamField), 0)
              && r.model == ModelOf(m.headers)
              && r.payload == m.payload
  {
    hide FirstFault, IntegerField, ModelOf, Faulty;
    NoFault(m.headers);
    var raw := IntegerField(m.headers, TypeField);
    if raw.Some? && FromI32(raw.value).Some? {
      FromI32Inverts(raw.value, FromI32(raw.value).value);
    } else if raw.Some? {
      FromI32Inverts(raw.value, Ping);
    }
  }

  ghost predicate IsLastSetter(hs: seq<Header>, i: nat, f: Field) {
    i < |hs| && Sets(hs[i], f) && forall j | i < j < |hs| :: !Sets(hs[j], f)
  }

  /** `LastSetter` is the last occurrence: it is in the list, and nothing after it sets the field. */
  lemma {:induction false} LastSetterIsLast(hs: seq<Header>, f: Field)
    ensures LastSetter(hs, f).None? <==> forall j | 0 <= j < |hs| :: !Sets(hs[j], f)
    ensures forall i: nat | IsLastSetter(hs, i, f) :: LastSetter(hs, f) == Some(hs[i])
    decreases |hs|
  {
    hide Sets, Setters;
    if hs == [] {
      NothingRead();
    } else {
      var p, h := hs[..|hs| - 1], hs[|hs| - 1];
      LastSetterIsLast(p, f);
      assert hs == p + [h];
      SettersSnoc(p, h, f);
      forall i: nat | IsLastSetter(hs, i, f) && i < |p|
        ensures LastSetter(hs, f) == Some(hs[i])
      {
        assert IsLastSetter(p, i, f);
      }
    }
  }

  // ---- The parser, in terms of the headers as they stand on the wire ----

  /** The last header of this name carries the integer n, or there is none and n is the default. */
  ghost predicate LastInteger(hs: seq<Header>, name: string, default: Option<int>, n: int) {
    || (exists i :: 0 <= i < |hs| && IsLast(hs, i, name) && Carries(hs[i].value, n))
    || (default == Some(n) && forall i | 0 <= i < |hs| :: !Spells(hs[i].name, name))
  }

  ghost predicate IsLast(hs: seq<Header>, i: int, name: string) {
    0 <= i < |hs| && Spells(hs[i].name, name) && forall j | i < j < |hs| :: !Spells(hs[j].name, name)
  }

  /** The last header of this name and of type String carries the text, or there is none. */
  ghost predicate LastText(hs: seq<Header>, name: string, text: Option<bytes>) {
    if text.None? then forall i | 0 <= i < |hs| :: !(Spells(hs[i].name, name) && hs[i].value.String?)
    else exists i :: 0 <= i < |hs| && IsLastText(hs, i, name) && hs[i].value == String(text.value)
  }

  ghost predicate IsLastText(hs: seq<Header>, i: int, name: string) {
    && 0 <= i < |hs| && Spells(hs[i].name, name) && hs[i].value.String?
    && forall j | i < j < |hs| :: !(Spells(hs[j].name, name) && hs[j].value.String?)
  }

  /** The header has one of the three integer names, and what it carries is no 32-bit integer. */
  ghost predicate BadInteger(h: Header) {
    && (Spells(h.name, ":message-type") || Spells(h.name, ":message-flags") || Spells(h.name, ":stream-id"))
    && forall n: int32 :: !Carries(h.value, n)
  }

  lemma BadIntegerIsFaulty(h: Header)
    ensures Faulty(h) <==> BadInteger(h)
  {
    FieldOfSpelled(h.name);
    hide FieldOf, HeaderI32, Carries;
    forall n: int32
      ensures HeaderI32(h) == Ok(n) <==> Carries(h.value, n)
    {
      HeaderI32ExactlyWhen(h, n);
    }
  }

  function NameOf(f: Field): string
    requires !f.OtherField?
  {
    match f
    case TypeField => ":message-type"
    case FlagsField => ":message-flags"
    case StreamField => ":stream-id"
    case ModelField => "service-model-type"
  }

  lemma BadIntegerError(h: Header)
    requires BadInteger(h)
    ensures Faulty(h)
    ensures HeaderI32(h) == Err(Framing(if h.value.Int64? then OutOfRange(h.name) else NotAnInteger(h.name)))
  {
    BadIntegerIsFaulty(h);
    HeaderI32ExactlyWhen(h, 0);
    hide HeaderI32;
  }

  lemma FieldIsNamed(h: Header, f: Field)
    requires !f.OtherField?
    ensures Sets(h, f) <==> Spells(h.name, NameOf(f)) && (f.ModelField? ==> h.value.String?)
  {
    FieldOfSpelled(h.name);
    hide FieldOf;
  }

  /** The index of the last header that sets f, if there is one. */
  lemma {:induction false} LastSetterIndex(hs: seq<Header>, f: Field) returns (i: nat)
    requires LastSetter(hs, f).Some?
    ensures IsLastSetter(hs, i, f) && LastSetter(hs, f) == Some(hs[i])
    decreases |hs|
  {
    hide Sets;
    var p, h := hs[..|hs| - 1], hs[|hs| - 1];
    if Sets(h, f) {
      i := |hs| - 1;
    } else {
      i := LastSetterIndex(p, f);
    }
    LastSetterIsLast(hs, f);
  }

  lemma IntegerFieldMeans(hs: seq<Header>, f: Field, n: int32)
    requires IsInteger(f) && forall i | 0 <= i < |hs| :: !Faulty(hs[i])
    ensures IntegerField(hs, f) == Some(n) <==> LastInteger(hs, NameOf(f), None, n)
    ensures IntegerField(hs, f).None? <==> forall i | 0 <= i < |hs| :: !Spells(hs[i].name, NameOf(f))
  {
    hide FieldOf, HeaderI32, Setters, Spells, Carries, NameOf;
    forall h: Header
      ensures Sets(h, f) <==> Spells(h.name, NameOf(f))
    {
      FieldIsNamed(h, f);
    }
    LastSetterIsLast(hs, f);
    if LastSetter(hs, f).Some? {
      var i := LastSetterIndex(hs, f);
      assert IsLast(hs, i, NameOf(f)) && !Faulty(hs[i]);
      HeaderI32ExactlyWhen(hs[i], n);
    }
  }

  lemma ModelMeans(hs: seq<Header>, text: Option<bytes>)
    ensures ModelOf(hs) == text <==> LastText(hs, "service-model-type", text)
  {
    hide FieldOf, Setters, Spells, NameOf;
    forall h: Header
      ensures Sets(h, ModelField) <==> Spells(h.name, NameOf(ModelField)) && h.value.String?
    {
      FieldIsNamed(h, ModelField);
    }
    assert NameOf(ModelField) == "service-model-type" by { ModelName(); }
    LastSetterIsLast(hs, ModelField);
    if LastSetter(hs, ModelField).Some? {
      var i := LastSetterIndex(hs, ModelField);
      assert IsLastText(hs, i, "service-model-type");
    }
  }

  lemma ModelName()
    ensures NameOf(ModelField) == "service-model-type"
  {
  }

  /** Parsing, declaratively and for every header list: it succeeds with r exactly if none of the three
      integer headers is bad, the last message type is that of r, the last flags and stream-id are, or
      are absent and 0, the last model of type String is, or is absent, and the payload is the same. */
  lemma ParsesExactlyWhen(m: Message, r: Rpc)
    ensures Parsed(m) == Ok(r) <==>
              && (forall i | 0 <= i < |m.headers| :: !BadInteger(m.headers[i]))
              && LastInteger(m.headers, ":message-type", None, TypeNumber(r.messageType))
              && LastInteger(m.headers, ":message-flags", Some(0), r.flags)
              && LastInteger(m.headers, ":stream-id", Some(0), r.streamId)
              && LastText(m.headers, "service-model-type", r.model)
              && r.payload == m.payload
  {
    hide LastInteger, LastText, BadInteger, Faulty, FieldOf, HeaderI32, IntegerField, ModelOf, Parsed, FromI32,
      TypeNumber, FirstFault, Spells;
    var hs := m.headers;
    NoneBadIsNoneFaulty(hs);
    ParseSucceedsExactlyWhen(m);
    if forall i | 0 <= i < |hs| :: !Faulty(hs[i]) {
      FieldNames();
      TypeNumberInRange(r.messageType);
      IntegerFieldMeans(hs, TypeField, TypeNumber(r.messageType));
      DefaultedFieldMeans(hs, FlagsField, r.flags);
      DefaultedFieldMeans(hs, StreamField, r.streamId);
      ModelMeans(hs, r.model);
    }
  }

  lemma NoneBadIsNoneFaulty(hs: seq<Header>)
    ensures (forall i | 0 <= i < |hs| :: !Faulty(hs[i])) <==> forall i | 0 <= i < |hs| :: !BadInteger(hs[i])
  {
    hide Faulty, BadInteger;
    forall h: Header
      ensures Faulty(h) <==> BadInteger(h)
    {
      BadIntegerIsFaulty(h);
    }
  }

  lemma FieldNames()
    ensures NameOf(TypeField) == ":message-type" && NameOf(FlagsField) == ":message-flags"
    ensures NameOf(StreamField) == ":stream-id"
  {
  }

  lemma TypeNumberInRange(t: MessageType)
    ensures 0 <= TypeNumber(t) <= 7
    ensures forall u: MessageType :: TypeNumber(u) == TypeNumber(t) ==> u == t
  {
  }

  lemma DefaultedFieldMeans(hs: seq<Header>, f: Field, n: int32)
    requires IsInteger(f) && forall i | 0 <= i < |hs| :: !Faulty(hs[i])
    ensures OrElse(IntegerField(hs, f), 0) == n <==> LastInteger(hs, NameOf(f), Some(0), n)
  {
    hide FieldOf, HeaderI32, IntegerField, Faulty, NameOf, Spells, Carries;
    IntegerFieldMeans(hs, f, n);
    var name := NameOf(f);
    assert LastInteger(hs, name, Some(0), n) <==>
           LastInteger(hs, name, None, n) || (n == 0 && forall i | 0 <= i < |hs| :: !Spells(hs[i].name, name));
    if LastInteger(hs, name, None, n) {
      assert IntegerField(hs, f) == Some(n);
    }
  }

  /** When no integer header is bad, parsing fails exactly for want of a message type, or because the
      last one is out of range, and the error says which. */
  lemma TypeErrorsExactlyWhen(m: Message, raw: int32)
    ensures Parsed(m) == Err(Framing(MissingMessageType)) <==>
              && (forall i | 0 <= i < |m.headers| :: !BadInteger(m.headers[i]))
              && (forall i | 0 <= i < |m.headers| :: !Spells(m.headers[i].name, ":message-type"))
    ensures Parsed(m) == Err(Framing(UnknownMessageType(raw))) <==>
              && (forall i | 0 <= i < |m.headers| :: !BadInteger(m.headers[i]))
              && LastInteger(m.headers, ":message-type", None, raw) && !(0 <= raw <= 7)
  {
    hide LastInteger, BadInteger, Faulty, FieldOf, HeaderI32, IntegerField, ModelOf, Spells, FromI32, FirstFault;
    var hs := m.headers;
    NoneBadIsNoneFaulty(hs);
    NoFault(hs);
    FaultKind(hs);
    if FirstFault(hs).None? {
      FieldNames();
      IntegerFieldMeans(hs, TypeField, raw);
      FromI32Inverts(raw, Ping);
      if IntegerField(hs, TypeField).Some? {
        FromI32Inverts(IntegerField(hs, TypeField).value, Ping);
      }
    }
  }

  lemma {:induction false} FaultKind(hs: seq<Header>)
    ensures FirstFault(hs).Some? ==>
              FirstFault(hs).value.Framing?
              && (FirstFault(hs).value.fault.OutOfRange? || FirstFault(hs).value.fault.NotAnInteger?)
  {
    hide FieldOf;
    if hs != [] {
      FaultKind(hs[1..]);
    }
  }

  /** The result depends on nothing but these four fields, the payload and the first fault. */
  lemma ParseByValues(m: Message, m': Message)
    requires FirstFault(m.headers) == FirstFault(m'.headers)
    requires FirstFault(m.headers).None? ==>
               && IntegerField(m.headers, TypeField) == IntegerField(m'.headers, TypeField)
               && IntegerField(m.headers, FlagsField) == IntegerField(m'.headers, FlagsField)
               && IntegerField(m.headers, StreamField) == IntegerField(m'.headers, StreamField)
               && ModelOf(m.headers) == ModelOf(m'.headers) && m.payload == m'.payload
    ensures Parsed(m) == Parsed(m')
  {
    hide FirstFault, IntegerField, ModelOf, FromI32;
  }

  /** Two header lists that agree, field by field, on the headers setting it parse alike, so neither
      unknown headers nor the interleaving of different fields matter, except that the first fault is
      the one reported. */
  lemma ParseByField(m: Message, m': Message)
    requires m.payload == m'.payload
    requires forall f: Field | !f.OtherField? :: Setters(m.headers, f) == Setters(m'.headers, f)
    ensures Parsed(m).Ok? <==> Parsed(m').Ok?
    ensures Parsed(m).Ok? ==> Parsed(m) == Parsed(m')
    ensures Parsed(m) == Parsed(m') <==> FirstFault(m.headers) == FirstFault(m'.headers)
  {
    var hs, hs' := m.headers, m'.headers;
    assert FirstFault(hs).None? <==> FirstFault(hs').None? by {
      hide *;
      FaultsByField(hs, hs');
      FaultsByField(hs', hs);
      NoFault(hs);
      NoFault(hs');
    }
    hide Parsed, FirstFault, Setters, FieldOf, Faulty, HeaderI32;
    assert Setters(hs, TypeField) == Setters(hs', TypeField);
    assert Setters(hs, FlagsField) == Setters(hs', FlagsField);
    assert Setters(hs, StreamField) == Setters(hs', StreamField);
    assert Setters(hs, ModelField) == Setters(hs', ModelField);
    if FirstFault(hs) == FirstFault(hs') {
      ParseByValues(m, m');
    } else {
      FaultIsReported(m);
      FaultIsReported(m');
    }
  }

  lemma FaultIsReported(m: Message)
    ensures FirstFault(m.headers).Some? ==> Parsed(m) == Err(FirstFault(m.headers).value)
  {
    hide FirstFault;
  }

  lemma FaultsByField(hs: seq<Header>, hs': seq<Header>)
    requires forall f: Field | !f.OtherField? :: Setters(hs, f) == Setters(hs', f)
    ensures (exists i :: 0 <= i < |hs| && Faulty(hs[i])) ==> exists i :: 0 <= i < |hs'| && Faulty(hs'[i])
  {
    hide FieldOf, HeaderI32;
    if i :| 0 <= i < |hs| && Faulty(hs[i]) {
      var f := FieldOf(hs[i].name);
      SetterIsListed(hs, i, f);
      SettersAreHeaders(hs', f, hs[i]);
    }
  }

  lemma {:induction false} SettersAreHeaders(hs: seq<Header>, f: Field, h: Header)
    requires h in Setters(hs, f)
    ensures h in hs
    decreases |hs|
  {
    hide Sets;
    if hs != [] && h != hs[|hs| - 1] {
      SettersAreHeaders(hs[..|hs| - 1], f, h);
    }
  }

  lemma {:induction false} SetterIsListed(hs: seq<Header>, i: nat, f: Field)
    requires i < |hs| && Sets(hs[i], f)
    ensures hs[i] in Setters(hs, f)
    decreases |hs|
  {
    hide Sets;
    if i < |hs| - 1 {
      SetterIsListed(hs[..|hs| - 1], i, f);
    }
  }

  /** Inserting a header the parser does not know changes nothing, neither a result nor an error. */
  lemma UnknownHeaderIgnored(hs: seq<Header>, h: Header, t: seq<Header>, payload: bytes)
    requires FieldOf(h.name).OtherField?
    ensures Parsed(Message(hs + t, payload)) == Parsed(Message(hs + [h] + t, payload))
  {
    forall f: Field | !f.OtherField?
      ensures Setters(hs + t, f) == Setters(hs + [h] + t, f)
    {
      hide FieldOf;
      SettersConcat(hs, t, f);
      SettersConcat(hs + [h], t, f);
      SettersSnoc(hs, h, f);
    }
    FirstFaultConcat(hs, t);
    FirstFaultConcat(hs + [h], t);
    FirstFaultConcat(hs, [h]);
    FaultOfOne(h);
    hide Parsed, FirstFault, Setters;
    ParseByField(Message(hs + t, payload), Message(hs + [h] + t, payload));
  }

  lemma FaultOfOne(h: Header)
    ensures FirstFault([h]) == if Faulty(h) then Some(HeaderI32(h).error) else None
  {
    hide Faulty, HeaderI32;
  }

  lemma FaultOfTwo(g: Header, h: Header)
    ensures FirstFault([g, h]) ==
            if Faulty(g) then Some(HeaderI32(g).error) else if Faulty(h) then Some(HeaderI32(h).error) else None
  {
    hide Faulty, HeaderI32;
    assert [g, h] == [g] + [h];
    FirstFaultConcat([g], [h]);
    FaultOfOne(g);
    FaultOfOne(h);
  }

  /** Neighbouring headers of different fields may change places: a successful parse is the same, and
      an error is, unless both are faulty and they are the first that are. */
  lemma HeadersOfDifferentFieldsCommute(hs: seq<Header>, g: Header, h: Header, t: seq<Header>, payload: bytes)
    requires FieldOf(g.name) != FieldOf(h.name)
    ensures Parsed(Message(hs + [g, h] + t, payload)).Ok? <==> Parsed(Message(hs + [h, g] + t, payload)).Ok?
    ensures Parsed(Message(hs + [g, h] + t, payload)).Ok? ==>
              Parsed(Message(hs + [g, h] + t, payload)) == Parsed(Message(hs + [h, g] + t, payload))
    ensures Parsed(Message(hs + [g, h] + t, payload)) == Parsed(Message(hs + [h, g] + t, payload)) <==>
            !(Faulty(g) && Faulty(h) && forall i | 0 <= i < |hs| :: !Faulty(hs[i]))
  {
    SwappedSetters(hs, g, h, t);
    FirstFaultConcat(hs + [g, h], t);
    FirstFaultConcat(hs + [h, g], t);
    FirstFaultConcat(hs, [g, h]);
    FirstFaultConcat(hs, [h, g]);
    FaultOfTwo(g, h);
    FaultOfTwo(h, g);
    NoFault(hs);
    FaultNamesHeader(g);
    FaultNamesHeader(h);
    hide Parsed, FirstFault, Setters, HeaderI32, Faulty, FieldOf;
    ParseByField(Message(hs + [g, h] + t, payload), Message(hs + [h, g] + t, payload));
  }

  /** Errors of headers with different names differ. */
  lemma FaultNamesHeader(h: Header)
    ensures HeaderI32(h).Err? ==>
              HeaderI32(h).error in {Framing(OutOfRange(h.name)), Framing(NotAnInteger(h.name))}
  {
  }

  lemma SwappedSetters(hs: seq<Header>, g: Header, h: Header, t: seq<Header>)
    requires FieldOf(g.name) != FieldOf(h.name)
    ensures forall f: Field :: Setters(hs + [g, h] + t, f) == Setters(hs + [h, g] + t, f)
  {
    forall f: Field
      ensures Setters(hs + [g, h] + t, f) == Setters(hs + [h, g] + t, f)
    {
      hide FieldOf;
      SettersConcat(hs + [g, h], t, f);
      SettersConcat(hs + [h, g], t, f);
      assert hs + [g, h] == hs + [g] + [h] && hs + [h, g] == hs + [h] + [g];
      SettersSnoc(hs + [g], h, f);
      SettersSnoc(hs + [h], g, f);
      SettersSnoc(hs, h, f);
      SettersSnoc(hs, g, f);
    }
  }

  lemma {:induction false} SettersConcat(hs: seq<Header>, t: seq<Header>, f: Field)
    ensures Setters(hs + t, f) == Setters(hs, f) + Setters(t, f)
    decreases |t|
  {
    hide Sets;
    if t == [] {
      assert hs + t == hs;
    } else {
      var n := |t| - 1;
      assert hs + t == hs + t[..n] + [t[n]] && t == t[..n] + [t[n]];
      SettersConcat(hs, t[..n], f);
      SettersSnoc(hs + t[..n], t[n], f);
      SettersSnoc(t[..n], t[n], f);
    }
  }

  lemma SameField(hs: seq<Header>, h: Header, h': Header, t: seq<Header>, f: Field)
    requires h.name == h'.name && IsInteger(FieldOf(h.name))
    requires HeaderI32(h).Ok? && HeaderI32(h') == HeaderI32(h)
    ensures IsInteger(f) ==> IntegerField(hs + [h] + t, f) == IntegerField(hs + [h'] + t, f)
    ensures f.ModelField? ==> ModelOf(hs + [h] + t) == ModelOf(hs + [h'] + t)
  {
    hide FieldOf, HeaderI32, Setters;
    SettersConcat(hs + [h], t, f);
    SettersConcat(hs + [h'], t, f);
    SettersSnoc(hs, h, f);
    SettersSnoc(hs, h', f);
  }

  /** Headers that read alike as integers may replace each other: result and error stay the same. */
  lemma SameIntegerSameParse(hs: seq<Header>, h: Header, v: HeaderValue, t: seq<Header>, payload: bytes)
    requires IsInteger(FieldOf(h.name)) && HeaderI32(Header(h.name, v)) == HeaderI32(h)
    ensures Parsed(Message(hs + [h] + t, payload)) == Parsed(Message(hs + [Header(h.name, v)] + t, payload))
  {
    var h' := Header(h.name, v);
    var a, b := hs + [h] + t, hs + [h'] + t;
    FirstFaultConcat(hs + [h], t);
    FirstFaultConcat(hs + [h'], t);
    FirstFaultConcat(hs, [h]);
    FirstFaultConcat(hs, [h']);
    FaultOfOne(h);
    FaultOfOne(h');
    if HeaderI32(h).Ok? {
      SameField(hs, h, h', t, TypeField);
      SameField(hs, h, h', t, FlagsField);
      SameField(hs, h, h', t, StreamField);
      SameField(hs, h, h', t, ModelField);
    }
    hide Parsed, IntegerField, ModelOf, FirstFault, FieldOf, HeaderI32;
    ParseByValues(Message(a, payload), Message(b, payload));
  }

  /** An integer header may be re-encoded among Byte, Int16, Int32 and Int64, wherever it stands and
      whatever its name: result and error stay the same. */
  lemma IntegerWidthIrrelevant(
      hs: seq<Header>, name: bytes, v: HeaderValue, w: HeaderValue, n: int, t: seq<Header>, payload: bytes)
    requires Carries(v, n) && Carries(w, n)
    ensures Parsed(Message(hs + [Header(name, v)] + t, payload)) ==
            Parsed(Message(hs + [Header(name, w)] + t, payload))
  {
    var g, h := Header(name, v), Header(name, w);
    if IsInteger(FieldOf(name)) {
      hide Parsed, FieldOf;
      SameIntegerSameParse(hs, g, w, t, payload);
    } else {
      NotAnIntegerField(hs, g, h, t);
      FirstFaultConcat(hs + [g], t);
      FirstFaultConcat(hs + [h], t);
      FirstFaultConcat(hs, [g]);
      FirstFaultConcat(hs, [h]);
      FaultOfOne(g);
      FaultOfOne(h);
      hide Parsed, FirstFault, Setters;
      ParseByField(Message(hs + [g] + t, payload), Message(hs + [h] + t, payload));
    }
  }

  lemma NotAnIntegerField(hs: seq<Header>, g: Header, h: Header, t: seq<Header>)
    requires g.name == h.name && !IsInteger(FieldOf(g.name)) && !g.value.String? && !h.value.String?
    ensures forall f: Field | !f.OtherField? :: Setters(hs + [g] + t, f) == Setters(hs + [h] + t, f)
  {
    forall f: Field | !f.OtherField?
      ensures Setters(hs + [g] + t, f) == Setters(hs + [h] + t, f)
    {
      hide FieldOf;
      SettersConcat(hs + [g], t, f);
      SettersConcat(hs + [h], t, f);
      SettersSnoc(hs, g, f);
      SettersSnoc(hs, h, f);
    }
  }
}
