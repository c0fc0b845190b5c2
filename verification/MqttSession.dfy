/**
 The session of the sample broker: CONNECT first, then a loop that keeps the list
 of subscribed filters and answers each packet. `Answers` says what one packet is
 answered with; the lemmas describe whole sessions in terms of their history.
 */
module MqttSession {
  import opened Bytes
  import opened MqttCodec
  import opened MqttPackets
  import opened MqttTopics
  import opened Wrappers

  datatype Reply =
    | Connack
    | Puback(packetId: u16)
    | Suback(packetId: u16, codes: bytes)
    | Unsuback(packetId: u16, count: nat)
    | Echo(topic: field, payload: bytes, retain: bool)
    | PingResp

  function Zeros(n: nat): (r: bytes)
    ensures |r| == n
  {
    if n == 0 then [] else [0x00] + Zeros(n - 1)
  }

  /** The header and body of a reply. */
  function ReplyFrame(r: Reply): (byte, bytes) {
    match r
    case Connack => (0x20, [0x00, 0x00, 0x00])
    case Puback(id) => (0x40, U16(id) + [0x00, 0x00])
    case Suback(id, codes) => (0x90, U16(id) + [0x00] + codes)
    case Unsuback(id, count) => (0xB0, U16(id) + [0x00] + Zeros(count))
    case Echo(topic, payload, retain) => (PublishHeader(retain), PublishBody(topic, payload))
    case PingResp => (0xD0, [])
  }

  function ReplyFrames(rs: seq<Reply>): (fs: seq<(byte, bytes)>)
    ensures |fs| == |rs|
  {
    if rs == [] then [] else [ReplyFrame(rs[0])] + ReplyFrames(rs[1..])
  }

  /** What a list of replies puts on the wire. */
  function Wire(rs: seq<Reply>): bytes {
    Frames(ReplyFrames(rs))
  }

  lemma {:induction false} WireAppend(a: seq<Reply>, b: seq<Reply>)
    ensures Wire(a + b) == Wire(a) + Wire(b)
  {
    if a == [] {
      assert a + b == b;
    } else {
      assert (a + b)[1..] == a[1..] + b;
      WireAppend(a[1..], b);
      var f := ReplyFrame(a[0]);
      assert ReplyFrames(a)[1..] == ReplyFrames(a[1..]);
      assert ReplyFrames(a + b)[1..] == ReplyFrames(a[1..] + b);
    }
  }

  lemma WireNone()
    ensures Wire([]) == []
  {
  }

  lemma WireOne(r: Reply)
    ensures Wire([r]) == Frame(ReplyFrame(r).0, ReplyFrame(r).1)
  {
    assert ReplyFrames([r]) == [ReplyFrame(r)];
    assert Frames([]) == [];
    assert [ReplyFrame(r)][1..] == [];
  }

  // ---------------------------------------------------------------- one packet

  predicate AnyMatches(filters: seq<field>, topic: field) {
    exists i :: 0 <= i < |filters| && Matches(filters[i], topic)
  }

  /** The reason codes of a subscription, one per filter: the requested QoS, at most 1. */
  function Granted(filters: seq<(field, nat)>): bytes {
    if filters == [] then [] else [if filters[0].1 < 1 then 0 else 1] + Granted(filters[1..])
  }

  function FilterNames(filters: seq<(field, nat)>): seq<field> {
    if filters == [] then [] else [filters[0].0] + FilterNames(filters[1..])
  }

  function Dropped(subs: seq<field>, names: seq<field>): seq<field> {
    if subs == [] then []
    else if subs[0] in names then Dropped(subs[1..], names)
    else [subs[0]] + Dropped(subs[1..], names)
  }

  lemma {:induction false} GrantedCodes(filters: seq<(field, nat)>)
    ensures |Granted(filters)| == |filters|
    ensures forall i :: 0 <= i < |filters| ==> Granted(filters)[i] == if filters[i].1 < 1 then 0 else 1
  {
    if filters != [] {
      GrantedCodes(filters[1..]);
    }
  }

  lemma {:induction false} DroppedMembers(subs: seq<field>, names: seq<field>, f: field)
    ensures f in Dropped(subs, names) <==> f in subs && f !in names
  {
    if subs != [] {
      DroppedMembers(subs[1..], names, f);
    }
  }

  /** The subscriptions after a packet. */
  function Subscribed(subs: seq<field>, p: Packet): seq<field> {
    match p
    case Subscribe(_, filters) => subs + FilterNames(filters)
    case Unsubscribe(_, names) => Dropped(subs, names)
    case _ => subs
  }

  function Acknowledged(qos: nat, ack: Option<u16>): seq<Reply> {
    if qos == 1 && ack.Some? then [Puback(ack.value)] else []
  }

  function Answers(subs: seq<field>, p: Packet): seq<Reply> {
    match p
    case Publish(topic, payload, qos, retain, ack) =>
      Acknowledged(qos, ack) + if AnyMatches(subs, topic) then [Echo(topic, payload, retain)] else []
    case Subscribe(id, filters) => [Suback(id, Granted(filters))]
    case Unsubscribe(id, names) => [Unsuback(id, |names|)]
    case PingReq => [PingResp]
    case _ => []
  }

  // ---------------------------------------------------------------- a session

  datatype End = Closed | Failed(error: MqttError)

  /** The packets a session answers after CONNECT, in order, and how it ends. */
  function Handled(s: bytes): (seq<Packet>, End)
    decreases |s|
  {
    match ReadPacket(s)
    case Failure(error) => ([], Failed(error))
    case Success((None, _)) => ([], Closed)
    case Success((Some(packet), rest)) =>
      if packet == Connect then ([], Failed(InvalidData("unexpected second CONNECT packet")))
      else if packet == Disconnect then ([], Closed)
      else
        ReadAnswerable(s);
        var (more, end) := Handled(rest);
        ([packet] + more, end)
  }

  function Replies(subs: seq<field>, ps: seq<Packet>): seq<Reply>
    decreases |ps|
  {
    if ps == [] then [] else Answers(subs, ps[0]) + Replies(Subscribed(subs, ps[0]), ps[1..])
  }

  /** Everything a session sends in answer to the bytes `s`, and how it ends. */
  function Session(s: bytes): (seq<Reply>, End) {
    match ReadPacket(s)
    case Failure(error) => ([], Failed(error))
    case Success((None, _)) => ([], Closed)
    case Success((Some(packet), rest)) =>
      if packet != Connect then ([], Failed(InvalidData("mqtt session must begin with CONNECT")))
      else
        var (ps, end) := Handled(rest);
        ([Connack] + Replies([], ps), end)
  }

  // ---------------------------------------------------------------- history

  /** The last subscribe to `f` among the first `n` packets is later than any unsubscribe. */
  ghost predicate Active(ps: seq<Packet>, n: nat, f: field) {
    exists i :: 0 <= i < n <= |ps| && SubscribesTo(ps[i], f) && NoneUnsubscribes(ps, i + 1, n, f)
  }

  predicate SubscribesTo(p: Packet, f: field) {
    p.Subscribe? && f in FilterNames(p.filters)
  }

  ghost predicate NoneUnsubscribes(ps: seq<Packet>, from: nat, to: nat, f: field) {
    forall j :: from <= j < to && j < |ps| ==> !(ps[j].Unsubscribe? && f in ps[j].names)
  }

  /** The subscriptions held before packet `n`. */
  function SubsBefore(ps: seq<Packet>, n: nat): seq<field>
    requires n <= |ps|
  {
    if n == 0 then [] else Subscribed(SubsBefore(ps, n - 1), ps[n - 1])
  }

  lemma SubscribedMembers(subs: seq<field>, p: Packet, f: field)
    ensures f in Subscribed(subs, p) <==>
              SubscribesTo(p, f) || (f in subs && !(p.Unsubscribe? && f in p.names))
  {
    if p.Unsubscribe? {
      DroppedMembers(subs, p.names, f);
    }
  }

  lemma ActiveStep(ps: seq<Packet>, n: nat, f: field)
    requires n < |ps|
    ensures Active(ps, n + 1, f) <==>
              SubscribesTo(ps[n], f) || (Active(ps, n, f) && !(ps[n].Unsubscribe? && f in ps[n].names))
  {
  }

  /** A filter is held exactly when its last subscribe is later than its last unsubscribe. */
  lemma {:induction false} SubsAreActive(ps: seq<Packet>, n: nat, f: field)
    requires n <= |ps|
    ensures f in SubsBefore(ps, n) <==> Active(ps, n, f)
  {
    if n > 0 {
      SubsAreActive(ps, n - 1, f);
      SubscribedMembers(SubsBefore(ps, n - 1), ps[n - 1], f);
      ActiveStep(ps, n - 1, f);
    }
  }

  ghost predicate ActiveMatch(ps: seq<Packet>, n: nat, topic: field) {
    exists f: field :: Active(ps, n, f) && Matches(f, topic)
  }

  lemma MatchesAreActive(ps: seq<Packet>, n: nat, topic: field)
    requires n <= |ps|
    ensures AnyMatches(SubsBefore(ps, n), topic) <==> ActiveMatch(ps, n, topic)
  {
    var subs := SubsBefore(ps, n);
    if AnyMatches(subs, topic) {
      var k :| 0 <= k < |subs| && Matches(subs[k], topic);
      SubsAreActive(ps, n, subs[k]);
    }
    if ActiveMatch(ps, n, topic) {
      var f: field :| Active(ps, n, f) && Matches(f, topic);
      SubsAreActive(ps, n, f);
      var k :| 0 <= k < |subs| && subs[k] == f;
    }
  }

  /** The replies that packet `i` is due, read off the history alone. */
  ghost predicate DueReplies(ps: seq<Packet>, i: nat, replies: seq<Reply>)
    requires i < |ps|
  {
    match ps[i]
    case Publish(topic, payload, qos, retain, ack) =>
      var acked := if qos == 1 && ack.Some? then [Puback(ack.value)] else [];
      var echoed := if ActiveMatch(ps, i, topic) then [Echo(topic, payload, retain)] else [];
      replies == acked + echoed
    case Subscribe(id, filters) =>
      && |replies| == 1 && replies[0].Suback? && replies[0].packetId == id
      && |replies[0].codes| == |filters|
      && forall k :: 0 <= k < |filters| ==> replies[0].codes[k] == if filters[k].1 < 1 then 0 else 1
    case Unsubscribe(id, names) => replies == [Unsuback(id, |names|)]
    case PingReq => replies == [PingResp]
    case _ => replies == []
  }

  lemma AnswersAreDue(ps: seq<Packet>, i: nat)
    requires i < |ps|
    ensures DueReplies(ps, i, Answers(SubsBefore(ps, i), ps[i]))
  {
    match ps[i]
    case Publish(topic, _, _, _, _) => MatchesAreActive(ps, i, topic);
    case Subscribe(_, filters) => GrantedCodes(filters);
    case _ =>
  }

  /** The blocks of replies, one per packet. */
  function Blocks(subs: seq<field>, ps: seq<Packet>): (blocks: seq<seq<Reply>>)
    ensures |blocks| == |ps|
    decreases |ps|
  {
    if ps == [] then [] else [Answers(subs, ps[0])] + Blocks(Subscribed(subs, ps[0]), ps[1..])
  }

  function Flatten(blocks: seq<seq<Reply>>): seq<Reply> {
    if blocks == [] then [] else blocks[0] + Flatten(blocks[1..])
  }

  lemma {:induction false} RepliesAreBlocks(subs: seq<field>, ps: seq<Packet>)
    ensures Replies(subs, ps) == Flatten(Blocks(subs, ps))
    decreases |ps|
  {
    if ps != [] {
      RepliesAreBlocks(Subscribed(subs, ps[0]), ps[1..]);
    }
  }

  lemma BlocksStep(subs: seq<field>, ps: seq<Packet>, i: nat)
    requires 0 < i < |ps|
    ensures Blocks(subs, ps)[i] == Blocks(Subscribed(subs, ps[0]), ps[1..])[i - 1]
  {
  }

  lemma {:induction false} BlockAt(ps: seq<Packet>, n: nat, i: nat)
    requires n <= i < |ps|
    ensures Blocks(SubsBefore(ps, n), ps[n..])[i - n] == Answers(SubsBefore(ps, i), ps[i])
    decreases i - n
  {
    hide Answers, Subscribed;
    if n < i {
      BlocksStep(SubsBefore(ps, n), ps[n..], i - n);
      assert ps[n..][1..] == ps[n + 1..];
      BlockAt(ps, n + 1, i);
    }
  }

  /**
   The session's whole output, in order: one block of replies per packet, and
   every block is what the history says. A publish is echoed once if and only if a
   filter whose last subscribe is later than its last unsubscribe matches; the
   PUBACK comes before the echo; a SUBACK carries one code per filter.
   */
  lemma SessionFollowsHistory(ps: seq<Packet>)
    ensures Replies([], ps) == Flatten(Blocks([], ps))
    ensures forall i :: 0 <= i < |ps| ==> DueReplies(ps, i, Blocks([], ps)[i])
  {
    RepliesAreBlocks([], ps);
    assert ps[0..] == ps;
    forall i | 0 <= i < |ps| ensures DueReplies(ps, i, Blocks([], ps)[i]) {
      BlockAt(ps, 0, i);
      AnswersAreDue(ps, i);
    }
  }

  /** The packets a session answers are well-formed: in particular QoS 1 always comes with an identifier. */
  lemma {:induction false} HandledAnswerable(s: bytes)
    ensures forall i :: 0 <= i < |Handled(s).0| ==> Answerable(Handled(s).0[i])
    decreases |s|
  {
    if ReadPacket(s).Success? && ReadPacket(s).value.0.Some? {
      ReadAnswerable(s);
      HandledAnswerable(ReadPacket(s).value.1);
    }
  }

  /** The packets that the session on input `s` answers; none if it does not begin with CONNECT. */
  function PacketsOf(s: bytes): seq<Packet> {
    match ReadPacket(s)
    case Success((Some(Connect), rest)) => Handled(rest).0
    case _ => []
  }

  /** The identifiers of the QoS 1 publishes, in order. */
  function AckIds(ps: seq<Packet>): seq<u16> {
    if ps == [] then []
    else if ps[0].Publish? && ps[0].qos == 1 && ps[0].ack.Some? then [ps[0].ack.value] + AckIds(ps[1..])
    else AckIds(ps[1..])
  }

  /** The identifiers of the PUBACKs, in order. */
  function PubackIds(rs: seq<Reply>): seq<u16> {
    if rs == [] then []
    else if rs[0].Puback? then [rs[0].packetId] + PubackIds(rs[1..])
    else PubackIds(rs[1..])
  }

  lemma {:induction false} PubackIdsAppend(a: seq<Reply>, b: seq<Reply>)
    ensures PubackIds(a + b) == PubackIds(a) + PubackIds(b)
  {
    if a == [] {
      assert a + b == b;
    } else {
      assert (a + b)[1..] == a[1..] + b;
      PubackIdsAppend(a[1..], b);
    }
  }

  lemma PubacksOfAnswer(subs: seq<field>, p: Packet)
    ensures PubackIds(Answers(subs, p)) == AckIds([p])
  {
    assert [p][1..] == [];
    if p.Publish? {
      var echo := Echo(p.topic, p.payload, p.retain);
      PubackIdsAppend(Acknowledged(p.qos, p.ack), if AnyMatches(subs, p.topic) then [echo] else []);
    }
  }

  lemma {:induction false} RepliesAcknowledge(subs: seq<field>, ps: seq<Packet>)
    ensures PubackIds(Replies(subs, ps)) == AckIds(ps)
    decreases |ps|
  {
    if ps != [] {
      RepliesAcknowledge(Subscribed(subs, ps[0]), ps[1..]);
      PubacksOfAnswer(subs, ps[0]);
      PubackIdsAppend(Answers(subs, ps[0]), Replies(Subscribed(subs, ps[0]), ps[1..]));
      assert [ps[0]][1..] == [];
    }
  }

  /**
   For every input: a session that gets past CONNECT sends CONNACK and then one
   block of replies per packet, each as the history says. Every publish it answers
   has QoS 0 or 1 and an identifier exactly for QoS 1, and the PUBACKs it sends are
   exactly one for each QoS 1 publish, in order.
   */
  lemma SessionOf(s: bytes)
    ensures var ps, replies := PacketsOf(s), Session(s).0;
            && (replies == [] ==> ps == [])
            && (replies != [] ==> replies == [Connack] + Flatten(Blocks([], ps)))
            && (forall i :: 0 <= i < |ps| ==> Answerable(ps[i]) && DueReplies(ps, i, Blocks([], ps)[i]))
            && PubackIds(replies) == AckIds(ps)
  {
    hide Replies, Handled, Blocks, Flatten, DueReplies, Answerable, ReadPacket;
    var ps := PacketsOf(s);
    SessionFollowsHistory(ps);
    RepliesAcknowledge([], ps);
    if Session(s).0 != [] {
      HandledAnswerable(ReadPacket(s).value.1);
      assert ([Connack] + Replies([], ps))[1..] == Replies([], ps);
    }
  }

  // ---------------------------------------------------------------- the session of a client

  function SentFrames(sent: seq<Sent>): bytes {
    if sent == [] then [] else SentFrame(sent[0]) + SentFrames(sent[1..])
  }

  function Meanings(sent: seq<Sent>): seq<Packet> {
    if sent == [] then [] else [Meaning(sent[0])] + Meanings(sent[1..])
  }

  /** Well-formed packets between CONNECT and DISCONNECT. */
  predicate InSession(sent: seq<Sent>) {
    forall i :: 0 <= i < |sent| ==> WellFormed(sent[i]) && !sent[i].SentConnect? && !sent[i].SentDisconnect?
  }

  /** They are handled one by one, and then what follows them. */
  lemma {:induction false} HandlesSent(sent: seq<Sent>, tail: bytes)
    requires InSession(sent)
    ensures Handled(SentFrames(sent) + tail) == (Meanings(sent) + Handled(tail).0, Handled(tail).1)
    decreases |sent|
  {
    hide ReadPacket, Meaning, SentFrame, WellFormed;
    if sent == [] {
      assert SentFrames(sent) + tail == tail && Meanings(sent) + Handled(tail).0 == Handled(tail).0;
    } else {
      var rest := SentFrames(sent[1..]) + tail;
      assert SentFrames(sent) + tail == SentFrame(sent[0]) + rest;
      SentIsRead(sent[0], rest);
      MeaningInSession(sent[0]);
      HandledStep(SentFrame(sent[0]) + rest);
      HandlesSent(sent[1..], tail);
      assert [Meaning(sent[0])] + (Meanings(sent[1..]) + Handled(tail).0) == Meanings(sent) + Handled(tail).0;
    }
  }

  lemma MeaningInSession(sent: Sent)
    ensures Meaning(sent) == Connect <==> sent.SentConnect?
    ensures Meaning(sent) == Disconnect <==> sent.SentDisconnect?
  {
  }

  /** How a session ends: with the stream, an unreadable packet, DISCONNECT, a second CONNECT or another packet type. */
  lemma SessionEnds(sent: Sent, header: byte, body: bytes, more: bytes)
    requires WellFormed(sent) && header / 16 !in {1, 3, 8, 10, 12, 14} && |body| <= MAX_VARIABLE_INT
    ensures Handled([]) == ([], Closed)
    ensures ReadPacket(more).Failure? ==> Handled(more) == ([], Failed(ReadPacket(more).error))
    ensures sent.SentDisconnect? ==> Handled(SentFrame(sent) + more) == ([], Closed)
    ensures sent.SentConnect? ==>
              Handled(SentFrame(sent) + more) == ([], Failed(InvalidData("unexpected second CONNECT packet")))
    ensures Handled(Frame(header, body) + more) == ([], Closed)
  {
    SentIsRead(sent, more);
    OtherTypesEnd(header, body, more);
    hide SentFrame, Frame, WellFormed;
  }

  /**
   A client's whole session: if it begins with CONNECT, it is answered with CONNACK
   and then packet by packet, as sent, and goes on with whatever follows; if it begins
   with anything else, nothing is sent.
   */
  lemma SessionOfClient(first: Sent, sent: seq<Sent>, tail: bytes)
    requires WellFormed(first) && InSession(sent)
    ensures var (replies, end) := Session(SentFrame(first) + SentFrames(sent) + tail);
            if first.SentConnect?
            then replies == [Connack] + Replies([], Meanings(sent) + Handled(tail).0) && end == Handled(tail).1
            else replies == [] && end == Failed(InvalidData("mqtt session must begin with CONNECT"))
  {
    hide ReadPacket, Handled, Replies, Meaning, SentFrame, SentFrames, WellFormed;
    var rest := SentFrames(sent) + tail;
    assert SentFrame(first) + SentFrames(sent) + tail == SentFrame(first) + rest;
    SentIsRead(first, rest);
    MeaningInSession(first);
    HandlesSent(sent, tail);
  }

  // ---------------------------------------------------------------- the output stream

  ghost predicate FrameFits(frame: (byte, bytes)) {
    |frame.1| <= MAX_VARIABLE_INT
  }

  lemma AnswersFit(subs: seq<field>, p: Packet)
    requires Answerable(p)
    ensures forall i :: 0 <= i < |Answers(subs, p)| ==> FrameFits(ReplyFrame(Answers(subs, p)[i]))
  {
    if p.Subscribe? {
      GrantedCodes(p.filters);
    }
  }

  lemma {:induction false} RepliesFit(subs: seq<field>, ps: seq<Packet>)
    requires forall i :: 0 <= i < |ps| ==> Answerable(ps[i])
    ensures forall i :: 0 <= i < |Replies(subs, ps)| ==> FrameFits(ReplyFrame(Replies(subs, ps)[i]))
    decreases |ps|
  {
    if ps != [] {
      AnswersFit(subs, ps[0]);
      RepliesFit(Subscribed(subs, ps[0]), ps[1..]);
    }
  }

  lemma {:induction false} ReplyFramesAt(rs: seq<Reply>, i: nat)
    requires i < |rs|
    ensures ReplyFrames(rs)[i] == ReplyFrame(rs[i])
  {
    if i > 0 {
      ReplyFramesAt(rs[1..], i - 1);
    }
  }

  lemma SessionFits(s: bytes)
    ensures forall i :: 0 <= i < |Session(s).0| ==> FrameFits(ReplyFrame(Session(s).0[i]))
  {
    if Session(s).0 != [] {
      var rest := ReadPacket(s).value.1;
      HandledAnswerable(rest);
      RepliesFit([], Handled(rest).0);
    }
  }

  lemma FramesReadBack(rs: seq<Reply>)
    requires forall i :: 0 <= i < |rs| ==> FrameFits(ReplyFrames(rs)[i])
    ensures ReadFrames(Wire(rs)) == Success(ReplyFrames(rs))
  {
    forall i | 0 <= i < |rs| ensures |ReplyFrames(rs)[i].1| <= MAX_VARIABLE_INT {
      assert FrameFits(ReplyFrames(rs)[i]);
    }
    FramesRoundTrip(ReplyFrames(rs));
  }

  /** What a client makes of a frame (sections 3.2, 3.3, 3.4, 3.9, 3.11 and 3.13). */
  function ParsedReply(header: byte, body: bytes): Option<Reply> {
    if header == 0x20 && body == [0, 0, 0] then Some(Connack)
    else if header == 0x40 && |body| == 4 && body[2..] == [0, 0] then Some(Puback(FromU16(body[0], body[1])))
    else if header == 0x90 && |body| >= 3 && body[2] == 0 then Some(Suback(FromU16(body[0], body[1]), body[3..]))
    else if header == 0xB0 && |body| >= 3 && body[2..] == Zeros(|body| - 2) then
      Some(Unsuback(FromU16(body[0], body[1]), |body| - 3))
    else if header == 0xD0 && body == [] then Some(PingResp)
    else
      match Parsed(header, body)
      case Success(Some(Publish(topic, payload, _, retain, _))) => Some(Echo(topic, payload, retain))
      case _ => None
  }

  lemma ReplyRoundTrip(r: Reply)
    ensures ParsedReply(ReplyFrame(r).0, ReplyFrame(r).1) == Some(r)
  {
    var body := ReplyFrame(r).1;
    match r
    case Suback(_, codes) => assert body[3..] == codes;
    case Unsuback(_, count) => assert body[2..] == Zeros(count + 1);
    case Echo(topic, payload, retain) => PublishBodyRoundTrip(topic, payload, retain);
    case _ =>
  }

  /** For every input whatsoever, a client reads the broker's output as the frames of its replies, in order. */
  lemma SessionOutputReadable(s: bytes)
    ensures var replies := Session(s).0;
            && ReadFrames(Wire(replies)) == Success(ReplyFrames(replies))
            && forall i :: 0 <= i < |replies| ==>
                 ParsedReply(ReplyFrames(replies)[i].0, ReplyFrames(replies)[i].1) == Some(replies[i])
  {
    hide Wire, Session, ReplyFrames, ReplyFrame, ParsedReply;
    var replies := Session(s).0;
    SessionFits(s);
    forall i | 0 <= i < |replies|
      ensures FrameFits(ReplyFrames(replies)[i])
      ensures ParsedReply(ReplyFrames(replies)[i].0, ReplyFrames(replies)[i].1) == Some(replies[i])
    {
      ReplyFramesAt(replies, i);
      ReplyRoundTrip(replies[i]);
    }
    FramesReadBack(replies);
  }

  // ---------------------------------------------------------------- the loop in place

  method WriteReply(stream: ByteStream, r: Reply)
    modifies stream`sent
    ensures stream.sent == old(stream.sent) + Wire([r])
  {
    var (header, body) := ReplyFrame(r);
    var length := EncodeVariableInt(|body|);
    stream.WriteAll([header] + length + body);
    WireOne(r);
  }

  method AnyFilterMatches(filters: seq<field>, topic: field) returns (found: bool)
    ensures found == AnyMatches(filters, topic)
  {
    for i := 0 to |filters|
      invariant forall j :: 0 <= j < i ==> !Matches(filters[j], topic)
    {
      var matches := TopicMatches(filters[i], topic);
      if matches {
        return true;
      }
    }
    found := false;
  }

  method AnswerPublish(stream: ByteStream, subs: seq<field>, p: Packet)
    requires p.Publish?
    modifies stream`sent
    ensures stream.sent == old(stream.sent) + Wire(Answers(subs, p))
  {
    var echo := Echo(p.topic, p.payload, p.retain);
    if p.qos == 1 && p.ack.Some? {
      WriteReply(stream, Puback(p.ack.value));
    }
    var echoed := AnyFilterMatches(subs, p.topic);
    if echoed {
      WriteReply(stream, echo);
    }
    WireAppend(Acknowledged(p.qos, p.ack), if echoed then [echo] else []);
  }

  lemma {:induction false} FilterNamesAt(filters: seq<(field, nat)>)
    ensures |FilterNames(filters)| == |filters|
    ensures forall i :: 0 <= i < |filters| ==> FilterNames(filters)[i] == filters[i].0
  {
    if filters != [] {
      FilterNamesAt(filters[1..]);
    }
  }

  /** Each filter is pushed and its code granted, in one loop. */
  method AddFilters(subs: seq<field>, filters: seq<(field, nat)>) returns (next: seq<field>, granted: bytes)
    ensures next == subs + FilterNames(filters) && granted == Granted(filters)
  {
    next, granted := subs, [];
    GrantedCodes(filters);
    FilterNamesAt(filters);
    for i := 0 to |filters|
      invariant granted == Granted(filters)[..i] && next == subs + FilterNames(filters)[..i]
    {
      next := next + [filters[i].0];
      granted := granted + [if filters[i].1 < 1 then 0 else 1];
    }
  }

  method RetainFilters(subs: seq<field>, names: seq<field>) returns (next: seq<field>)
    ensures next == Dropped(subs, names)
  {
    next := [];
    for i := 0 to |subs|
      invariant next + Dropped(subs[i..], names) == Dropped(subs, names)
    {
      if subs[i] !in names {
        next := next + [subs[i]];
      }
    }
  }

  method Answer(stream: ByteStream, subs: seq<field>, p: Packet) returns (next: seq<field>)
    modifies stream`sent
    ensures stream.sent == old(stream.sent) + Wire(Answers(subs, p))
    ensures next == Subscribed(subs, p)
  {
    next := subs;
    match p {
      case Publish(_, _, _, _, _) => AnswerPublish(stream, subs, p);
      case Subscribe(id, filters) =>
        var granted;
        next, granted := AddFilters(subs, filters);
        WriteReply(stream, Suback(id, granted));
      case Unsubscribe(id, names) =>
        next := RetainFilters(subs, names);
        WriteReply(stream, Unsuback(id, |names|));
      case PingReq => WriteReply(stream, PingResp);
      case _ =>
    }
  }

  lemma HandledStep(s: bytes)
    requires ReadPacket(s).Success? && ReadPacket(s).value.0.Some?
    requires ReadPacket(s).value.0.value != Connect && ReadPacket(s).value.0.value != Disconnect
    ensures var (packet, rest) := ReadPacket(s).value;
            Handled(s) == ([packet.value] + Handled(rest).0, Handled(rest).1)
  {
  }

  lemma WireStep(subs: seq<field>, p: Packet, more: seq<Packet>)
    ensures Wire(Replies(subs, [p] + more)) == Wire(Answers(subs, p)) + Wire(Replies(Subscribed(subs, p), more))
  {
    assert ([p] + more)[1..] == more;
    WireAppend(Answers(subs, p), Replies(Subscribed(subs, p), more));
  }

  method ServeLoop(stream: ByteStream) returns (end: End)
    modifies stream
    ensures stream.sent == old(stream.sent) + Wire(Replies([], Handled(old(stream.incoming)).0))
    ensures end == Handled(old(stream.incoming)).1
  {
    hide ReadPacket, Answers, Subscribed, Wire;
    WireNone();
    ghost var all := old(stream.sent) + Wire(Replies([], Handled(old(stream.incoming)).0));
    var subs: seq<field> := [];
    while true
      invariant stream.sent + Wire(Replies(subs, Handled(stream.incoming).0)) == all
      invariant Handled(stream.incoming).1 == Handled(old(stream.incoming)).1
      decreases |stream.incoming|
    {
      ghost var before := stream.incoming;
      var r := ReadPacketFrom(stream);
      if r.Failure? {
        return Failed(r.error);
      } else if r.value == None {
        return Closed;
      }
      var packet := r.value.value;
      if packet == Connect {
        return Failed(InvalidData("unexpected second CONNECT packet"));
      } else if packet == Disconnect {
        return Closed;
      }
      ReadAnswerable(before);
      HandledStep(before);
      WireStep(subs, packet, Handled(stream.incoming).0);
      subs := Answer(stream, subs, packet);
    }
  }

  method RunSession(stream: ByteStream) returns (end: End)
    modifies stream
    ensures stream.sent == old(stream.sent) + Wire(Session(old(stream.incoming)).0)
    ensures end == Session(old(stream.incoming)).1
  {
    hide ReadPacket, Replies, Handled, Wire;
    WireNone();
    var first := ReadPacketFrom(stream);
    if first.Failure? {
      return Failed(first.error);
    } else if first.value == None {
      return Closed;
    } else if first.value.value != Connect {
      return Failed(InvalidData("mqtt session must begin with CONNECT"));
    }
    WireAppend([Connack], Replies([], Handled(stream.incoming).0));
    WriteReply(stream, Connack);
    end := ServeLoop(stream);
  }
}
