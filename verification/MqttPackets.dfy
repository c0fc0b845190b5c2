/**
 The control packets the sample broker understands (section 3 of MQTT Version
 5.0), as it parses them from a frame and as it writes its own.
 */
module MqttPackets {
  import opened Bytes
  import opened MqttCodec
  import opened Wrappers

  datatype Packet =
    | Connect
    | Publish(topic: field, payload: bytes, qos: nat, retain: bool, ack: Option<u16>)
    | Subscribe(packetId: u16, filters: seq<(field, nat)>)
    | Unsubscribe(packetId: u16, names: seq<field>)
    | PingReq
    | Disconnect

  const MQTT_NAME: bytes := [0x4D, 0x51, 0x54, 0x54]

  // ---------------------------------------------------------------- parsing

  /** The offset behind a property block; it may lie past the end of the body. */
  function SkipProperties(body: bytes, offset: nat, packet: string): (r: Result<nat, MqttError>)
    requires offset <= |body|
    ensures r.Success? ==> r.value > offset
  {
    match ReadVarInt(body[offset..], 4)
    case None => Failure(InvalidData(packet))
    case Some((length, size)) => Success(offset + size + length)
  }

  function ParsedConnect(body: bytes): Result<Packet, MqttError> {
    var (protocol, offset) :- DecodeUtf8(body, 0, "protocol");
    if protocol != MQTT_NAME then Failure(InvalidData("unsupported mqtt protocol"))
    else if offset >= |body| || body[offset] != 5 then Failure(InvalidData("sample broker expects MQTT 5 clients"))
    else if offset + 1 >= |body| then Failure(InvalidData("missing connect flags"))
    else if offset + 4 > |body| then Failure(Truncated("connect keepalive"))
    else
      var clientId :- SkipProperties(body, offset + 4, "connect");
      var _ :- DecodeUtf8(body, clientId, "client id");
      Success(Connect)
  }

  /** The packet identifier of a QoS 1 publish, none for QoS 0, and the offset behind it. */
  function ParsedPacketId(body: bytes, offset: nat, qos: nat): (r: Result<(Option<u16>, nat), MqttError>)
    requires offset <= |body|
    ensures r.Success? ==>
              && offset <= r.value.1 <= |body|
              && (r.value.0.Some? <==> qos > 0)
  {
    if qos == 0 then Success((None, offset))
    else if offset + 2 > |body| then Failure(Truncated("publish packet id"))
    else Success((Some(FromU16(body[offset], body[offset + 1])), offset + 2))
  }

  function ParsedPublish(flags: nat, body: bytes): Result<Packet, MqttError> {
    var retain, qos := flags % 2 != 0, (flags / 2) % 4;
    if qos > 1 then Failure(InvalidData("sample broker does not support mqtt qos 2"))
    else
      var (topic, afterTopic) :- DecodeUtf8(body, 0, "publish topic");
      var (packetId, afterId) :- ParsedPacketId(body, afterTopic, qos);
      var start :- SkipProperties(body, afterId, "publish");
      if start > |body| then Failure(Truncated("publish properties"))
      else Success(Publish(topic, body[start..], qos, retain, packetId))
  }

  function ParsedFilters(body: bytes, offset: nat): Result<seq<(field, nat)>, MqttError>
    decreases |body| - offset
  {
    if offset >= |body| then Success([])
    else
      var (filter, next) :- DecodeUtf8(body, offset, "subscribe filter");
      if next >= |body| then Failure(Truncated("subscribe options"))
      else Prefixed([(filter, body[next] % 4)], ParsedFilters(body, next + 1))
  }

  function ParsedNames(body: bytes, offset: nat): Result<seq<field>, MqttError>
    decreases |body| - offset
  {
    if offset >= |body| then Success([])
    else
      var (name, next) :- DecodeUtf8(body, offset, "unsubscribe filter");
      Prefixed([name], ParsedNames(body, next))
  }

  function ParsedSubscribe(body: bytes): Result<Packet, MqttError> {
    if |body| < 2 then Failure(Truncated("subscribe packet id"))
    else
      var start :- SkipProperties(body, 2, "subscribe");
      var filters :- ParsedFilters(body, start);
      Success(Subscribe(FromU16(body[0], body[1]), filters))
  }

  function ParsedUnsubscribe(body: bytes): Result<Packet, MqttError> {
    if |body| < 2 then Failure(Truncated("unsubscribe packet id"))
    else
      var start :- SkipProperties(body, 2, "unsubscribe");
      var names :- ParsedNames(body, start);
      Success(Unsubscribe(FromU16(body[0], body[1]), names))
  }

  function Some1(packet: Result<Packet, MqttError>): Result<Option<Packet>, MqttError> {
    match packet
    case Success(p) => Success(Some(p))
    case Failure(error) => Failure(error)
  }

  /** The packet in a frame. A packet type the broker does not handle ends the session like the end of the stream. */
  function Parsed(header: byte, body: bytes): Result<Option<Packet>, MqttError> {
    var kind := header / 16;
    if kind == 1 then Some1(ParsedConnect(body))
    else if kind == 3 then Some1(ParsedPublish(header % 16, body))
    else if kind == 8 then Some1(ParsedSubscribe(body))
    else if kind == 10 then Some1(ParsedUnsubscribe(body))
    else if kind == 12 then Success(Some(PingReq))
    else if kind == 14 then Success(Some(Disconnect))
    else Success(None)
  }

  /** The next packet of a stream and what is left. */
  function ReadPacket(s: bytes): Result<(Option<Packet>, bytes), MqttError> {
    var (frame, rest) :- ReadFrame(s);
    match frame
    case None => Success((None, rest))
    case Some((header, body)) =>
      var packet :- Parsed(header, body);
      Success((packet, rest))
  }

  // ---------------------------------------------------------------- what parsing guarantees

  lemma {:induction false} FilterCount(body: bytes, offset: nat)
    ensures ParsedFilters(body, offset).Success? && offset <= |body| ==>
              3 * |ParsedFilters(body, offset).value| + offset <= |body|
    ensures ParsedFilters(body, offset).Success? && offset > |body| ==> ParsedFilters(body, offset).value == []
    decreases |body| - offset
  {
    if offset < |body| {
      var first := DecodeUtf8(body, offset, "subscribe filter");
      if first.Success? && first.value.1 < |body| {
        FilterCount(body, first.value.1 + 1);
      }
    }
  }

  lemma {:induction false} NameCount(body: bytes, offset: nat)
    ensures ParsedNames(body, offset).Success? && offset <= |body| ==>
              2 * |ParsedNames(body, offset).value| + offset <= |body|
    ensures ParsedNames(body, offset).Success? && offset > |body| ==> ParsedNames(body, offset).value == []
    decreases |body| - offset
  {
    if offset < |body| {
      var first := DecodeUtf8(body, offset, "unsubscribe filter");
      if first.Success? {
        NameCount(body, first.value.1);
      }
    }
  }

  /** Every field of a packet that was read fits the replies the broker builds from it. */
  ghost predicate Answerable(p: Packet) {
    match p
    case Publish(topic, payload, qos, _, ack) =>
      qos <= 1 && (ack.Some? <==> qos == 1) && 3 + |topic| + |payload| <= MAX_VARIABLE_INT
    case Subscribe(_, filters) => 3 + |filters| <= MAX_VARIABLE_INT
    case Unsubscribe(_, names) => 3 + |names| <= MAX_VARIABLE_INT
    case _ => true
  }

  lemma ParsedAnswerable(header: byte, body: bytes)
    requires |body| <= MAX_VARIABLE_INT
    requires Parsed(header, body).Success? && Parsed(header, body).value.Some?
    ensures Answerable(Parsed(header, body).value.value)
  {
    var kind := header / 16;
    if kind == 8 {
      var start := SkipProperties(body, 2, "subscribe").value;
      FilterCount(body, start);
    } else if kind == 10 {
      var start := SkipProperties(body, 2, "unsubscribe").value;
      NameCount(body, start);
    }
  }

  lemma ReadAnswerable(s: bytes)
    requires ReadPacket(s).Success? && ReadPacket(s).value.0.Some?
    ensures Answerable(ReadPacket(s).value.0.value)
    ensures |ReadPacket(s).value.1| < |s|
  {
    ReadFrameBounds(s);
    var (header, body) := ReadFrame(s).value.0.value;
    ParsedAnswerable(header, body);
  }

  // ---------------------------------------------------------------- writing

  function PublishHeader(retain: bool): byte {
    if retain then 0x31 else 0x30
  }

  function PublishBody(topic: field, payload: bytes): bytes {
    EncodeUtf8(topic) + [0x00] + payload
  }

  function PublishFrame(topic: field, payload: bytes, retain: bool): bytes {
    Frame(PublishHeader(retain), PublishBody(topic, payload))
  }

  /** A written publish body parses to the same topic and payload, with QoS 0. */
  lemma PublishBodyRoundTrip(topic: field, payload: bytes, retain: bool)
    ensures Parsed(PublishHeader(retain), PublishBody(topic, payload))
         == Success(Some(Publish(topic, payload, 0, retain, None)))
  {
    assert PublishBody(topic, payload) == ClientPublish(topic, payload, [0x00], None);
    ClientPublishParsed(topic, payload, [0x00], None, false, retain);
  }

  /**
   Reading a written publish frame gives back what was written and leaves what
   follows, if and only if the frame fits the four-byte length field.
   */
  lemma PublishRoundTrip(topic: field, payload: bytes, retain: bool, rest: bytes)
    ensures ReadPacket(PublishFrame(topic, payload, retain) + rest)
         == if 3 + |topic| + |payload| <= MAX_VARIABLE_INT
            then Success((Some(Publish(topic, payload, 0, retain, None)), rest))
            else Failure(LengthTooLong)
  {
    FrameRoundTrip(PublishHeader(retain), PublishBody(topic, payload), rest);
    PublishBodyRoundTrip(topic, payload, retain);
  }

  /**
   Whatever the broker accepts as a publish, of any QoS and with any properties,
   its echo can be written and read back: same topic, payload and retain flag,
   QoS 0, and nothing of what follows is touched.
   */
  lemma EchoIsReadable(s: bytes, more: bytes)
    requires ReadPacket(s).Success? && ReadPacket(s).value.0.Some? && ReadPacket(s).value.0.value.Publish?
    ensures var p := ReadPacket(s).value.0.value;
            ReadPacket(PublishFrame(p.topic, p.payload, p.retain) + more) ==
            Success((Some(Publish(p.topic, p.payload, 0, p.retain, None)), more))
  {
    ReadAnswerable(s);
    var p := ReadPacket(s).value.0.value;
    PublishRoundTrip(p.topic, p.payload, p.retain, more);
  }

  /** What a list of publishes puts on the wire. */
  datatype Message = Message(topic: field, payload: bytes, retain: bool)

  predicate Fits(m: Message) {
    3 + |m.topic| + |m.payload| <= MAX_VARIABLE_INT
  }

  predicate AllFit(ms: seq<Message>) {
    ms == [] || (Fits(ms[0]) && AllFit(ms[1..]))
  }

  function PublishAll(ms: seq<Message>): bytes
    requires AllFit(ms)
  {
    if ms == [] then [] else PublishFrame(ms[0].topic, ms[0].payload, ms[0].retain) + PublishAll(ms[1..])
  }

  /** The messages as packets of QoS 0. */
  function AsPackets(ms: seq<Message>): seq<Packet> {
    if ms == [] then [] else [Publish(ms[0].topic, ms[0].payload, 0, ms[0].retain, None)] + AsPackets(ms[1..])
  }

  function ReadAll(s: bytes): Result<seq<Packet>, MqttError>
    decreases |s|
  {
    var (packet, rest) :- ReadPacket(s);
    if packet == None then Success([])
    else
      ReadAnswerable(s);
      Prefixed([packet.value], ReadAll(rest))
  }

  /** Reading the concatenation of any list of publishes yields exactly that list and every byte is consumed. */
  lemma {:induction false} PublishStreamRoundTrip(ms: seq<Message>)
    requires AllFit(ms)
    ensures ReadAll(PublishAll(ms)) == Success(AsPackets(ms))
  {
    if ms != [] {
      PublishRoundTrip(ms[0].topic, ms[0].payload, ms[0].retain, PublishAll(ms[1..]));
      PublishStreamRoundTrip(ms[1..]);
    }
  }

  // ---------------------------------------------------------------- packets of a client

  lemma {:induction false} ReadVarIntPrefix(s: bytes, limit: nat, n: nat)
    requires n <= |s|
    ensures var r := ReadVarInt(s, limit);
            && (r.Some? && r.value.1 <= n ==> ReadVarInt(s[..n], limit) == r)
            && (ReadVarInt(s[..n], limit).Some? ==> r == ReadVarInt(s[..n], limit))
  {
    if n > 0 && limit > 0 {
      ReadVarIntPrefix(s[1..], limit - 1, n - 1);
      assert s[..n][1..] == s[1..][..n - 1];
    }
  }

  /** A property length, in any of its encodings, and that many bytes. */
  predicate IsPropertyBlock(block: bytes) {
    var r := ReadVarInt(block, 4);
    r.Some? && r.value.0 + r.value.1 == |block|
  }

  /** What a client writes for its properties is such a block. */
  lemma WrittenPropertyBlock(properties: bytes)
    requires |properties| <= MAX_VARIABLE_INT
    ensures IsPropertyBlock(VarInt(|properties|) + properties)
  {
    Pow128Values();
    VarIntRoundTrip(|properties|, 4, properties);
  }

  /** Skipping stops behind a block exactly when one is there; it may also stop past the end. */
  lemma SkipsBlock(before: bytes, rest: bytes, packet: string, n: nat)
    requires n <= |rest|
    ensures SkipProperties(before + rest, |before|, packet) == Success(|before| + n) <==> IsPropertyBlock(rest[..n])
  {
    assert (before + rest)[|before|..] == rest;
    ReadVarIntPrefix(rest, 4, n);
  }

  lemma SkipsThisBlock(before: bytes, block: bytes, after: bytes, packet: string)
    requires IsPropertyBlock(block)
    ensures SkipProperties(before + block + after, |before|, packet) == Success(|before| + |block|)
  {
    SkipsBlock(before, block + after, packet, |block|);
    assert (block + after)[..|block|] == block && before + (block + after) == before + block + after;
  }

  /** What was decoded as a string is its encoding. */
  lemma DecodedUtf8(s: bytes, offset: nat, name: string)
    requires DecodeUtf8(s, offset, name).Success?
    ensures var (value, next) := DecodeUtf8(s, offset, name).value; s[offset..next] == EncodeUtf8(value)
  {
    var (value, next) := DecodeUtf8(s, offset, name).value;
    assert U16(|value|) == [s[offset], s[offset + 1]];
    assert s[offset..next] == [s[offset], s[offset + 1]] + s[offset + 2..next];
  }

  lemma BytesOfU16(high: byte, low: byte)
    ensures U16(FromU16(high, low)) == [high, low]
  {
  }

  // PUBLISH, section 3.3.

  function AckBytes(ack: Option<u16>): bytes {
    if ack.Some? then U16(ack.value) else []
  }

  /** The body of a PUBLISH; it has an identifier exactly for QoS 1. */
  function ClientPublish(topic: field, payload: bytes, block: bytes, ack: Option<u16>): bytes {
    EncodeUtf8(topic) + AckBytes(ack) + block + payload
  }

  function ClientPublishHeader(duplicate: bool, ack: Option<u16>, retain: bool): byte {
    0x30 + (if duplicate then 8 else 0) + (if ack.Some? then 2 else 0) + if retain then 1 else 0
  }

  /** Every well-formed PUBLISH of QoS 0 or 1 is parsed to its own fields. */
  lemma ClientPublishParsed(topic: field, payload: bytes, block: bytes, ack: Option<u16>,
                            duplicate: bool, retain: bool)
    requires IsPropertyBlock(block)
    ensures Parsed(ClientPublishHeader(duplicate, ack, retain), ClientPublish(topic, payload, block, ack))
         == Success(Some(Publish(topic, payload, if ack.Some? then 1 else 0, retain, ack)))
  {
    hide DecodeUtf8, EncodeUtf8, SkipProperties, IsPropertyBlock;
    var id := AckBytes(ack);
    var body := ClientPublish(topic, payload, block, ack);
    var before := EncodeUtf8(topic) + id;
    Utf8RoundTrip([], topic, id + block + payload, "publish topic");
    assert body == [] + EncodeUtf8(topic) + (id + block + payload);
    SkipsThisBlock(before, block, payload, "publish");
    assert body == before + block + payload;
    assert body[|before| + |block|..] == payload;
    var at := |EncodeUtf8(topic)|;
    assert ack.Some? ==> body[at] == U16(ack.value)[0] && body[at + 1] == U16(ack.value)[1];
  }

  lemma PublishParts(flags: nat, body: bytes) returns (afterTopic: nat, afterId: nat, start: nat)
    requires ParsedPublish(flags, body).Success?
    ensures var p := ParsedPublish(flags, body).value;
            && p.Publish? && p.qos == (flags / 2) % 4 <= 1 && p.retain == (flags % 2 != 0)
            && (p.ack.Some? <==> p.qos == 1)
            && afterTopic <= afterId < start <= |body|
            && body[..afterTopic] == EncodeUtf8(p.topic) && body[afterTopic..afterId] == AckBytes(p.ack)
            && SkipProperties(body, afterId, "publish") == Success(start) && body[start..] == p.payload
  {
    hide DecodeUtf8, EncodeUtf8, SkipProperties;
    var p := ParsedPublish(flags, body).value;
    afterTopic := DecodeUtf8(body, 0, "publish topic").value.1;
    afterId := ParsedPacketId(body, afterTopic, p.qos).value.1;
    start := SkipProperties(body, afterId, "publish").value;
    DecodedUtf8(body, 0, "publish topic");
    if p.qos == 1 {
      BytesOfU16(body[afterTopic], body[afterTopic + 1]);
    }
  }

  /** And nothing else is accepted: a PUBLISH that parses is the well-formed body of its fields. */
  lemma PublishIsWellFormed(flags: nat, body: bytes) returns (block: bytes)
    requires ParsedPublish(flags, body).Success?
    ensures var p := ParsedPublish(flags, body).value;
            && IsPropertyBlock(block) && p.Publish?
            && p.qos == (flags / 2) % 4 <= 1 && (p.ack.Some? <==> p.qos == 1) && p.retain == (flags % 2 != 0)
            && body == ClientPublish(p.topic, p.payload, block, p.ack)
  {
    hide ParsedPublish, EncodeUtf8, AckBytes, SkipProperties, IsPropertyBlock;
    var afterTopic, afterId, start := PublishParts(flags, body);
    block := body[afterId..start];
    assert body == body[..afterId] + body[afterId..];
    assert body[afterId..][..start - afterId] == block;
    SkipsBlock(body[..afterId], body[afterId..], "publish", start - afterId);
    assert body == body[..afterTopic] + body[afterTopic..afterId] + block + body[start..];
  }

  // SUBSCRIBE, section 3.8.

  function FilterBytes(filters: seq<(field, byte)>): bytes {
    if filters == [] then [] else EncodeUtf8(filters[0].0) + [filters[0].1] + FilterBytes(filters[1..])
  }

  /** Of a filter's options only the requested QoS is kept. */
  function Requested(filters: seq<(field, byte)>): seq<(field, nat)> {
    if filters == [] then [] else [(filters[0].0, filters[0].1 % 4)] + Requested(filters[1..])
  }

  lemma {:induction false} FilterBytesParsed(before: bytes, filters: seq<(field, byte)>)
    ensures ParsedFilters(before + FilterBytes(filters), |before|) == Success(Requested(filters))
    decreases |filters|
  {
    hide DecodeUtf8, EncodeUtf8;
    if filters != [] {
      var (filter, options) := filters[0];
      var body, rest := before + FilterBytes(filters), FilterBytes(filters[1..]);
      var next := before + EncodeUtf8(filter) + [options];
      Utf8RoundTrip(before, filter, [options] + rest, "subscribe filter");
      assert body == before + EncodeUtf8(filter) + ([options] + rest);
      assert body == next + rest;
      FilterBytesParsed(next, filters[1..]);
    }
  }

  lemma {:induction false} ParsedFilterBytes(body: bytes, offset: nat) returns (filters: seq<(field, byte)>)
    requires offset <= |body| && ParsedFilters(body, offset).Success?
    ensures body[offset..] == FilterBytes(filters) && ParsedFilters(body, offset).value == Requested(filters)
    decreases |body| - offset
  {
    hide DecodeUtf8, EncodeUtf8;
    if offset == |body| {
      filters := [];
    } else {
      var (filter, next) := DecodeUtf8(body, offset, "subscribe filter").value;
      var more := ParsedFilterBytes(body, next + 1);
      filters := [(filter, body[next])] + more;
      DecodedUtf8(body, offset, "subscribe filter");
      assert filters[1..] == more;
      assert body[offset..] == body[offset..next] + [body[next]] + body[next + 1..];
    }
  }

  function ClientSubscribe(id: u16, block: bytes, filters: seq<(field, byte)>): bytes {
    U16(id) + block + FilterBytes(filters)
  }

  /** Every well-formed SUBSCRIBE is parsed to its identifier and its filters, in order. */
  lemma ClientSubscribeParsed(id: u16, block: bytes, filters: seq<(field, byte)>)
    requires IsPropertyBlock(block)
    ensures ParsedSubscribe(ClientSubscribe(id, block, filters)) == Success(Subscribe(id, Requested(filters)))
  {
    hide IsPropertyBlock, SkipProperties, FilterBytes;
    SkipsThisBlock(U16(id), block, FilterBytes(filters), "subscribe");
    FilterBytesParsed(U16(id) + block, filters);
  }

  /** The property length says more than the body holds. */
  predicate Overruns(id: u16, body: bytes) {
    && |body| >= 2 && body[..2] == U16(id)
    && var r := ReadVarInt(body[2..], 4);
    r.Some? && r.value.0 + r.value.1 > |body| - 2
  }

  /** An identifier and a block, with the body's rest behind them. */
  lemma IdAndBlock(body: bytes, packet: string) returns (id: u16, block: bytes)
    requires |body| >= 2 && SkipProperties(body, 2, packet).Success?
    ensures var start := SkipProperties(body, 2, packet).value;
            && id == FromU16(body[0], body[1])
            && (start > |body| ==> Overruns(id, body))
            && (start <= |body| ==> IsPropertyBlock(block) && body[..start] == U16(id) + block)
  {
    var start := SkipProperties(body, 2, packet).value;
    id := FromU16(body[0], body[1]);
    BytesOfU16(body[0], body[1]);
    assert body[..2] == [body[0], body[1]];
    if start <= |body| {
      block := body[2..start];
      assert body[2..][..start - 2] == block && body == body[..2] + body[2..];
      SkipsBlock(body[..2], body[2..], packet, start - 2);
      assert body[..start] == body[..2] + block;
    } else {
      block := [];
    }
  }

  lemma OverrunSkips(id: u16, body: bytes, packet: string)
    requires Overruns(id, body)
    ensures |body| >= 2 && FromU16(body[0], body[1]) == id
    ensures SkipProperties(body, 2, packet).Success? && SkipProperties(body, 2, packet).value > |body|
  {
    assert body[0] == body[..2][0] && body[1] == body[..2][1];
  }

  /**
   Exactly what is accepted as a SUBSCRIBE: a well-formed one, with its filters, or
   an identifier whose property length overruns the body, with no filters.
   */
  ghost predicate SubscribeShape(body: bytes, id: u16, filters: seq<(field, nat)>) {
    || (exists block, raw ::
          IsPropertyBlock(block) && body == ClientSubscribe(id, block, raw) && filters == Requested(raw))
    || (Overruns(id, body) && filters == [])
  }

  lemma SubscribeAccepted(body: bytes, id: u16, filters: seq<(field, nat)>)
    ensures ParsedSubscribe(body) == Success(Subscribe(id, filters)) <==> SubscribeShape(body, id, filters)
  {
    hide SkipProperties, IsPropertyBlock, FilterBytes, Requested, Overruns, ClientSubscribe, ParsedFilters;
    if ParsedSubscribe(body) == Success(Subscribe(id, filters)) {
      var start := SkipProperties(body, 2, "subscribe").value;
      var known, block := IdAndBlock(body, "subscribe");
      if start <= |body| {
        var raw := ParsedFilterBytes(body, start);
        IsClientSubscribe(body, start, id, block, raw);
      } else {
        FilterCount(body, start);
      }
    }
    if SubscribeShape(body, id, filters) {
      if Overruns(id, body) && filters == [] {
        OverrunSkips(id, body, "subscribe");
        NoFilters(body, SkipProperties(body, 2, "subscribe").value);
      } else {
        var block, raw :|
          IsPropertyBlock(block) && body == ClientSubscribe(id, block, raw) && filters == Requested(raw);
        ClientSubscribeParsed(id, block, raw);
      }
    }
  }

  lemma NoFilters(body: bytes, offset: nat)
    requires offset > |body|
    ensures ParsedFilters(body, offset) == Success([]) && ParsedNames(body, offset) == Success([])
  {
  }

  lemma IsClientSubscribe(body: bytes, start: nat, id: u16, block: bytes, raw: seq<(field, byte)>)
    requires start <= |body| && body[..start] == U16(id) + block && body[start..] == FilterBytes(raw)
    ensures body == ClientSubscribe(id, block, raw)
  {
    assert body == body[..start] + body[start..];
  }

  /** Three bytes are enough: a property length of five with nothing behind it, or no property and no filter. */
  lemma MalformedSubscribeAccepted()
    ensures ParsedSubscribe([0, 1, 5]) == Success(Subscribe(1, [])) && Overruns(1, [0, 1, 5])
    ensures ParsedSubscribe([0, 1, 0]) == Success(Subscribe(1, [])) && !Overruns(1, [0, 1, 0])
  {
    assert [0, 1, 5][2..] == [5] && [0, 1, 0][2..] == [0];
    assert [0, 1, 5][..2] == U16(1);
  }

  // UNSUBSCRIBE, section 3.10.

  function NameBytes(names: seq<field>): bytes {
    if names == [] then [] else EncodeUtf8(names[0]) + NameBytes(names[1..])
  }

  lemma {:induction false} NameBytesParsed(before: bytes, names: seq<field>)
    ensures ParsedNames(before + NameBytes(names), |before|) == Success(names)
    decreases |names|
  {
    hide DecodeUtf8, EncodeUtf8;
    if names != [] {
      var body, rest := before + NameBytes(names), NameBytes(names[1..]);
      Utf8RoundTrip(before, names[0], rest, "unsubscribe filter");
      assert body == before + EncodeUtf8(names[0]) + rest;
      NameBytesParsed(before + EncodeUtf8(names[0]), names[1..]);
      assert [names[0]] + names[1..] == names;
    }
  }

  lemma {:induction false} ParsedNameBytes(body: bytes, offset: nat)
    requires offset <= |body| && ParsedNames(body, offset).Success?
    ensures body[offset..] == NameBytes(ParsedNames(body, offset).value)
    decreases |body| - offset
  {
    hide DecodeUtf8, EncodeUtf8;
    if offset < |body| {
      var (name, next) := DecodeUtf8(body, offset, "unsubscribe filter").value;
      ParsedNameBytes(body, next);
      DecodedUtf8(body, offset, "unsubscribe filter");
      var names := ParsedNames(body, offset).value;
      assert names[1..] == ParsedNames(body, next).value;
      assert body[offset..] == body[offset..next] + body[next..];
    }
  }

  function ClientUnsubscribe(id: u16, block: bytes, names: seq<field>): bytes {
    U16(id) + block + NameBytes(names)
  }

  /** Every well-formed UNSUBSCRIBE is parsed to its identifier and its filters, in order. */
  lemma ClientUnsubscribeParsed(id: u16, block: bytes, names: seq<field>)
    requires IsPropertyBlock(block)
    ensures ParsedUnsubscribe(ClientUnsubscribe(id, block, names)) == Success(Unsubscribe(id, names))
  {
    hide IsPropertyBlock, SkipProperties, NameBytes;
    SkipsThisBlock(U16(id), block, NameBytes(names), "unsubscribe");
    NameBytesParsed(U16(id) + block, names);
  }

  /** Exactly what is accepted as an UNSUBSCRIBE, likewise. */
  ghost predicate UnsubscribeShape(body: bytes, id: u16, names: seq<field>) {
    || (exists block :: IsPropertyBlock(block) && body == ClientUnsubscribe(id, block, names))
    || (Overruns(id, body) && names == [])
  }

  lemma UnsubscribeAccepted(body: bytes, id: u16, names: seq<field>)
    ensures ParsedUnsubscribe(body) == Success(Unsubscribe(id, names)) <==> UnsubscribeShape(body, id, names)
  {
    hide SkipProperties, IsPropertyBlock, NameBytes, Overruns, ClientUnsubscribe, ParsedNames;
    if ParsedUnsubscribe(body) == Success(Unsubscribe(id, names)) {
      var start := SkipProperties(body, 2, "unsubscribe").value;
      var known, block := IdAndBlock(body, "unsubscribe");
      if start <= |body| {
        ParsedNameBytes(body, start);
        IsClientUnsubscribe(body, start, id, block, names);
      } else {
        NameCount(body, start);
      }
    }
    if UnsubscribeShape(body, id, names) {
      if Overruns(id, body) && names == [] {
        OverrunSkips(id, body, "unsubscribe");
        NoFilters(body, SkipProperties(body, 2, "unsubscribe").value);
      } else {
        var block :| IsPropertyBlock(block) && body == ClientUnsubscribe(id, block, names);
        ClientUnsubscribeParsed(id, block, names);
      }
    }
  }

  lemma IsClientUnsubscribe(body: bytes, start: nat, id: u16, block: bytes, names: seq<field>)
    requires start <= |body| && body[..start] == U16(id) + block && body[start..] == NameBytes(names)
    ensures body == ClientUnsubscribe(id, block, names)
  {
    assert body == body[..start] + body[start..];
  }

  lemma MalformedUnsubscribeAccepted()
    ensures ParsedUnsubscribe([0, 1, 5]) == Success(Unsubscribe(1, [])) && Overruns(1, [0, 1, 5])
    ensures ParsedUnsubscribe([0, 1, 0]) == Success(Unsubscribe(1, [])) && !Overruns(1, [0, 1, 0])
  {
    assert [0, 1, 5][2..] == [5] && [0, 1, 0][2..] == [0];
    assert [0, 1, 5][..2] == U16(1);
  }

  // CONNECT, section 3.1.

  function ClientConnect(flags: byte, keepAlive: u16, block: bytes, clientId: field, rest: bytes): bytes {
    EncodeUtf8(MQTT_NAME) + [5, flags] + U16(keepAlive) + block + EncodeUtf8(clientId) + rest
  }

  /** A CONNECT of an MQTT 5 client is accepted whatever its flags, properties and payload. */
  lemma ClientConnectParsed(flags: byte, keepAlive: u16, block: bytes, clientId: field, rest: bytes)
    requires IsPropertyBlock(block)
    ensures ParsedConnect(ClientConnect(flags, keepAlive, block, clientId, rest)) == Success(Connect)
  {
    hide DecodeUtf8, EncodeUtf8, SkipProperties, IsPropertyBlock;
    var before := EncodeUtf8(MQTT_NAME) + [5, flags] + U16(keepAlive);
    var body := before + block + EncodeUtf8(clientId) + rest;
    Utf8RoundTrip([], MQTT_NAME, [5, flags] + U16(keepAlive) + block + EncodeUtf8(clientId) + rest, "protocol");
    assert body == [] + EncodeUtf8(MQTT_NAME)
                   + ([5, flags] + U16(keepAlive) + block + EncodeUtf8(clientId) + rest);
    SkipsThisBlock(before, block, EncodeUtf8(clientId) + rest, "connect");
    assert body == before + block + (EncodeUtf8(clientId) + rest);
    Utf8RoundTrip(before + block, clientId, rest, "client id");
  }

  lemma ConnectParts(body: bytes) returns (offset: nat, start: nat, clientId: field, end: nat)
    requires ParsedConnect(body).Success?
    ensures offset + 4 < start <= end <= |body|
    ensures body[..offset] == EncodeUtf8(MQTT_NAME) && body[offset] == 5 && body[start..end] == EncodeUtf8(clientId)
    ensures SkipProperties(body, offset + 4, "connect") == Success(start)
  {
    hide DecodeUtf8, EncodeUtf8, SkipProperties;
    offset := DecodeUtf8(body, 0, "protocol").value.1;
    start := SkipProperties(body, offset + 4, "connect").value;
    DecodedUtf8(body, 0, "protocol");
    DecodedUtf8(body, start, "client id");
    clientId, end := DecodeUtf8(body, start, "client id").value.0, DecodeUtf8(body, start, "client id").value.1;
  }

  /** And nothing else is. */
  lemma ConnectIsWellFormed(body: bytes)
      returns (flags: byte, keepAlive: u16, block: bytes, clientId: field, rest: bytes)
    requires ParsedConnect(body).Success?
    ensures IsPropertyBlock(block) && body == ClientConnect(flags, keepAlive, block, clientId, rest)
  {
    hide DecodeUtf8, EncodeUtf8, SkipProperties, IsPropertyBlock, ParsedConnect;
    var offset, start, id, end := ConnectParts(body);
    clientId := id;
    flags, keepAlive := body[offset + 1], FromU16(body[offset + 2], body[offset + 3]);
    BytesOfU16(body[offset + 2], body[offset + 3]);
    block, rest := body[offset + 4..start], body[end..];
    assert body[offset + 4..][..start - offset - 4] == block && body == body[..offset + 4] + body[offset + 4..];
    SkipsBlock(body[..offset + 4], body[offset + 4..], "connect", start - offset - 4);
    assert body[offset..offset + 4] == [5, flags] + U16(keepAlive);
    assert body == body[..offset] + body[offset..offset + 4] + block + body[start..end] + rest;
  }

  // ---------------------------------------------------------------- frames of a client

  /** What a client sends; the body of a PINGREQ or DISCONNECT does not matter. */
  datatype Sent =
    | SentConnect(flags: byte, keepAlive: u16, block: bytes, clientId: field, rest: bytes)
    | SentPublish(topic: field, payload: bytes, block: bytes, ack: Option<u16>, duplicate: bool, retain: bool)
    | SentSubscribe(id: u16, block: bytes, filters: seq<(field, byte)>)
    | SentUnsubscribe(id: u16, block: bytes, names: seq<field>)
    | SentPing(body: bytes)
    | SentDisconnect(body: bytes)

  /** The first byte of each packet, as table 2-1 and sections 3.1 to 3.14 assign it. */
  function SentHeader(sent: Sent): byte {
    match sent
    case SentConnect(_, _, _, _, _) => 0x10
    case SentPublish(_, _, _, ack, duplicate, retain) => ClientPublishHeader(duplicate, ack, retain)
    case SentSubscribe(_, _, _) => 0x82
    case SentUnsubscribe(_, _, _) => 0xA2
    case SentPing(_) => 0xC0
    case SentDisconnect(_) => 0xE0
  }

  function SentBody(sent: Sent): bytes {
    match sent
    case SentConnect(flags, keepAlive, block, clientId, rest) => ClientConnect(flags, keepAlive, block, clientId, rest)
    case SentPublish(topic, payload, block, ack, _, _) => ClientPublish(topic, payload, block, ack)
    case SentSubscribe(id, block, filters) => ClientSubscribe(id, block, filters)
    case SentUnsubscribe(id, block, names) => ClientUnsubscribe(id, block, names)
    case SentPing(body) => body
    case SentDisconnect(body) => body
  }

  predicate WellFormed(sent: Sent) {
    && |SentBody(sent)| <= MAX_VARIABLE_INT
    && (sent.SentPing? || sent.SentDisconnect? || IsPropertyBlock(sent.block))
  }

  function Meaning(sent: Sent): Packet {
    match sent
    case SentConnect(_, _, _, _, _) => Connect
    case SentPublish(topic, payload, _, ack, _, retain) =>
      Publish(topic, payload, if ack.Some? then 1 else 0, retain, ack)
    case SentSubscribe(id, _, filters) => Subscribe(id, Requested(filters))
    case SentUnsubscribe(id, _, names) => Unsubscribe(id, names)
    case SentPing(_) => PingReq
    case SentDisconnect(_) => Disconnect
  }

  function SentFrame(sent: Sent): bytes {
    Frame(SentHeader(sent), SentBody(sent))
  }

  lemma SentParsed(sent: Sent)
    requires WellFormed(sent)
    ensures Parsed(SentHeader(sent), SentBody(sent)) == Success(Some(Meaning(sent)))
  {
    hide ParsedConnect, ParsedPublish, ParsedSubscribe, ParsedUnsubscribe, IsPropertyBlock;
    hide ClientConnect, ClientPublish, ClientSubscribe, ClientUnsubscribe;
    match sent
    case SentConnect(flags, keepAlive, block, clientId, rest) =>
      ClientConnectParsed(flags, keepAlive, block, clientId, rest);
    case SentPublish(topic, payload, block, ack, duplicate, retain) =>
      ClientPublishParsed(topic, payload, block, ack, duplicate, retain);
    case SentSubscribe(id, block, filters) => ClientSubscribeParsed(id, block, filters);
    case SentUnsubscribe(id, block, names) => ClientUnsubscribeParsed(id, block, names);
    case _ =>
  }

  /** Every well-formed packet a client sends is read as that packet, and nothing behind it is touched. */
  lemma SentIsRead(sent: Sent, rest: bytes)
    requires WellFormed(sent)
    ensures ReadPacket(SentFrame(sent) + rest) == Success((Some(Meaning(sent)), rest))
  {
    hide Parsed, Meaning, SentBody, SentHeader, ReadFrame, Frame;
    FrameRoundTrip(SentHeader(sent), SentBody(sent), rest);
    SentParsed(sent);
  }

  /** A packet of any other type is read as the end of the stream. */
  lemma OtherTypesEnd(header: byte, body: bytes, rest: bytes)
    requires header / 16 !in {1, 3, 8, 10, 12, 14} && |body| <= MAX_VARIABLE_INT
    ensures ReadPacket(Frame(header, body) + rest) == Success((None, rest))
  {
    hide ReadFrame, Frame;
    FrameRoundTrip(header, body, rest);
  }

  // ---------------------------------------------------------------- parsing in place

  method ParseFilters(body: bytes, start: nat) returns (r: Result<seq<(field, nat)>, MqttError>)
    ensures r == ParsedFilters(body, start)
  {
    var offset := start;
    var filters: seq<(field, nat)> := [];
    PrefixedNil(ParsedFilters(body, start));
    while offset < |body|
      invariant ParsedFilters(body, start) == Prefixed(filters, ParsedFilters(body, offset))
      decreases |body| - offset
    {
      var decoded :- DecodeUtf8(body, offset, "subscribe filter");
      var (filter, next) := decoded;
      if next >= |body| {
        return Failure(Truncated("subscribe options"));
      }
      PrefixedSnoc(filters, (filter, body[next] % 4), ParsedFilters(body, next + 1));
      filters := filters + [(filter, body[next] % 4)];
      offset := next + 1;
    }
    assert filters + [] == filters;
    r := Success(filters);
  }

  method ParseNames(body: bytes, start: nat) returns (r: Result<seq<field>, MqttError>)
    ensures r == ParsedNames(body, start)
  {
    var offset := start;
    var names: seq<field> := [];
    PrefixedNil(ParsedNames(body, start));
    while offset < |body|
      invariant ParsedNames(body, start) == Prefixed(names, ParsedNames(body, offset))
      decreases |body| - offset
    {
      var decoded :- DecodeUtf8(body, offset, "unsubscribe filter");
      var (name, next) := decoded;
      PrefixedSnoc(names, name, ParsedNames(body, next));
      names := names + [name];
      offset := next;
    }
    assert names + [] == names;
    r := Success(names);
  }

  method ParseConnect(body: bytes) returns (r: Result<Packet, MqttError>)
    ensures r == ParsedConnect(body)
  {
    var decoded :- DecodeUtf8(body, 0, "protocol");
    var (protocol, offset) := decoded;
    if protocol != MQTT_NAME {
      return Failure(InvalidData("unsupported mqtt protocol"));
    }
    if offset >= |body| || body[offset] != 5 {
      return Failure(InvalidData("sample broker expects MQTT 5 clients"));
    }
    offset := offset + 1;
    if offset >= |body| {
      return Failure(InvalidData("missing connect flags"));
    }
    offset := offset + 1;
    if offset + 2 > |body| {
      return Failure(Truncated("connect keepalive"));
    }
    offset :- SkipProperties(body, offset + 2, "connect");
    var _ :- DecodeUtf8(body, offset, "client id");
    return Success(Connect);
  }

  method ParsePublish(flags: nat, body: bytes) returns (r: Result<Packet, MqttError>)
    ensures r == ParsedPublish(flags, body)
  {
    var retain, qos := flags % 2 != 0, (flags / 2) % 4;
    if qos > 1 {
      return Failure(InvalidData("sample broker does not support mqtt qos 2"));
    }
    var decoded :- DecodeUtf8(body, 0, "publish topic");
    var (topic, offset) := decoded;
    var packetId := None;
    if qos > 0 {
      if offset + 2 > |body| {
        return Failure(Truncated("publish packet id"));
      }
      packetId := Some(FromU16(body[offset], body[offset + 1]));
      offset := offset + 2;
    }
    offset :- SkipProperties(body, offset, "publish");
    if offset > |body| {
      return Failure(Truncated("publish properties"));
    }
    return Success(Publish(topic, body[offset..], qos, retain, packetId));
  }

  method ParsePacket(header: byte, body: bytes) returns (r: Result<Option<Packet>, MqttError>)
    ensures r == Parsed(header, body)
  {
    var kind := header / 16;
    if kind == 1 {
      var packet :- ParseConnect(body);
      return Success(Some(packet));
    } else if kind == 3 {
      var packet :- ParsePublish(header % 16, body);
      return Success(Some(packet));
    } else if kind == 8 || kind == 10 {
      if |body| < 2 {
        return Failure(Truncated(if kind == 8 then "subscribe packet id" else "unsubscribe packet id"));
      }
      var packetId := FromU16(body[0], body[1]);
      var offset :- SkipProperties(body, 2, if kind == 8 then "subscribe" else "unsubscribe");
      if kind == 8 {
        var filters :- ParseFilters(body, offset);
        return Success(Some(Subscribe(packetId, filters)));
      }
      var names :- ParseNames(body, offset);
      return Success(Some(Unsubscribe(packetId, names)));
    } else if kind == 12 {
      return Success(Some(PingReq));
    } else if kind == 14 {
      return Success(Some(Disconnect));
    }
    return Success(None);
  }

  method ReadPacketFrom(stream: ByteStream) returns (r: Result<Option<Packet>, MqttError>)
    modifies stream`incoming
    ensures match ReadPacket(old(stream.incoming))
            case Success((packet, rest)) => r == Success(packet) && stream.incoming == rest
            case Failure(error) => r == Failure(error)
  {
    var frame :- ReadFrameFrom(stream);
    if frame == None {
      return Success(None);
    }
    r := ParsePacket(frame.value.0, frame.value.1);
  }
}
