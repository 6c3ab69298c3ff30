/**
 The framing of service messages: every request and reply is published as the
 GUID of the requesting client's writer, the sequence number of its request as
 a big-endian 64-bit integer, and the serialized message. Replies go to all
 clients, so taking one drops the frames that carry another GUID.
 */
module ServiceFrames {
  import opened Options
  import opened Bytes
  import opened ReturnCodes
  import opened Taking

  const GUID_SIZE: nat := 16
  const HEADER_SIZE: nat := 24
  const WORD: nat := 0x1_0000_0000_0000_0000

  type Int64 = n: int | -0x8000_0000_0000_0000 <= n < 0x8000_0000_0000_0000

  /** static_cast<uint64_t>. */
  function Unsigned(n: Int64): nat {
    if n < 0 then n + WORD else n
  }

  /** static_cast<int64_t>. */
  function Signed(n: nat): Int64
    requires n < WORD
  {
    if n < 0x8000_0000_0000_0000 then n else n - WORD
  }

  function SequenceBytes(sequence: Int64): (bytes: seq<Byte>)
    ensures |bytes| == 8
  {
    ToBytes(BigEndian, Unsigned(sequence), 8)
  }

  function SequenceOf(bytes: seq<Byte>): (sequence: Int64)
    requires |bytes| == 8
  {
    ToFromBytes(BigEndian, bytes);
    Ranges();
    Signed(FromBytes(BigEndian, bytes))
  }

  lemma SequenceRoundTrip(sequence: Int64)
    ensures SequenceOf(SequenceBytes(sequence)) == sequence
  {
    Ranges();
    FromToBytes(BigEndian, Unsigned(sequence), 8);
  }

  lemma BytesRoundTrip(bytes: seq<Byte>)
    requires |bytes| == 8
    ensures SequenceBytes(SequenceOf(bytes)) == bytes
  {
    ToFromBytes(BigEndian, bytes);
    Ranges();
  }

  /** `n` shifted right by 8 * bytes bits. */
  function Shifted(n: nat, bytes: nat): nat {
    if bytes == 0 then n else Shifted(n / 256, bytes - 1)
  }

  lemma {:induction false} ShiftedByte(n: nat, width: nat, i: nat)
    requires i < width
    ensures ToBytes(BigEndian, n, width)[i] == Shifted(n, width - 1 - i) % 256
  {
    if i < width - 1 {
      ShiftedByte(n / 256, width - 1, i);
    }
  }

  /** encode_sequence, at `offset` of `output`. */
  method EncodeSequence(output: array<Byte>, offset: nat, sequence: Int64)
    requires offset + 8 <= output.Length
    modifies output
    ensures output[..] == old(output[..offset]) + SequenceBytes(sequence) + old(output[offset + 8..])
  {
    var value := Unsigned(sequence);
    ghost var before, bytes := output[..], SequenceBytes(sequence);
    for index := 0 to 8
      invariant output[..] == before[..offset] + bytes[..index] + before[offset + index..]
    {
      ShiftedByte(value, 8, index);
      output[offset + index] := Shifted(value, 7 - index) % 256;
      assert bytes[..index + 1] == bytes[..index] + [bytes[index]];
    }
    assert bytes[..8] == bytes;
  }

  lemma {:induction false} RangeBelowWord(width: nat)
    requires width <= 8
    ensures Range(width) <= Range(8)
    decreases 8 - width
  {
    if width < 8 {
      RangeBelowWord(width + 1);
    }
  }

  /** decode_sequence, at `offset` of `input`; the shift drops the bits that do
      not fit. */
  method DecodeSequence(input: seq<Byte>, offset: nat) returns (sequence: Int64)
    requires offset + 8 <= |input|
    ensures sequence == SequenceOf(input[offset..offset + 8])
  {
    ghost var bytes := input[offset..offset + 8];
    var value: nat := 0;
    for index := 0 to 8
      invariant value == FromBytes(BigEndian, bytes[..index])
      invariant value < Range(index)
    {
      assert bytes[..index + 1][..index] == bytes[..index];
      Ranges();
      RangeBelowWord(index + 1);
      value := value * 256 % WORD + input[offset + index];
    }
    assert bytes[..8] == bytes;
    Ranges();
    sequence := Signed(value);
  }

  datatype RequestId = RequestId(guid: Guid, sequence: Int64)

  function Frame(id: RequestId, payload: seq<Byte>): (frame: seq<Byte>)
    ensures |frame| == HEADER_SIZE + |payload|
  {
    id.guid + SequenceBytes(id.sequence) + payload
  }

  /** The request a frame belongs to. */
  function IdOf(frame: seq<Byte>): RequestId
    requires |frame| >= HEADER_SIZE
  {
    RequestId(frame[..GUID_SIZE], SequenceOf(frame[GUID_SIZE..HEADER_SIZE]))
  }

  lemma IdParts(frame: seq<Byte>)
    requires |frame| >= HEADER_SIZE
    ensures IdOf(frame) == RequestId(frame[..GUID_SIZE], SequenceOf(frame[GUID_SIZE..GUID_SIZE + 8]))
  {
  }

  /** A frame is the GUID, the two's complement of the sequence number from its
      most significant byte to its least significant one, and the payload. */
  lemma FrameLayout(guid: Guid, sequence: Int64, payload: seq<Byte>)
    ensures var n := if sequence < 0 then sequence + 0x1_0000_0000_0000_0000 else sequence;
            Frame(RequestId(guid, sequence), payload)
              == guid
                 + [n / 0x100_0000_0000_0000 % 256, n / 0x1_0000_0000_0000 % 256, n / 0x100_0000_0000 % 256,
                    n / 0x1_0000_0000 % 256, n / 0x100_0000 % 256, n / 0x1_0000 % 256, n / 0x100 % 256, n % 256]
                 + payload
  {
    ToBytesIsNumber(BigEndian, Unsigned(sequence), 8);
  }

  lemma FrameRoundTrip(id: RequestId, payload: seq<Byte>)
    ensures IdOf(Frame(id, payload)) == id
    ensures Frame(id, payload)[HEADER_SIZE..] == payload
  {
    var frame := Frame(id, payload);
    assert frame[..GUID_SIZE] == id.guid;
    assert frame[GUID_SIZE..HEADER_SIZE] == SequenceBytes(id.sequence);
    SequenceRoundTrip(id.sequence);
  }

  lemma ReframeRoundTrip(frame: seq<Byte>)
    requires |frame| >= HEADER_SIZE
    ensures Frame(IdOf(frame), frame[HEADER_SIZE..]) == frame
  {
    BytesRoundTrip(frame[GUID_SIZE..HEADER_SIZE]);
  }

  /** A writer, with the payloads it has written. */
  class Publisher {
    var written: seq<seq<Byte>>

    /** rmw_publish_serialized_message; `outcome` is what it returns. */
    method PublishSerialized(message: seq<Byte>, outcome: RmwCode) returns (code: RmwCode)
      modifies this
      ensures code == outcome
      ensures written == old(written) + if code.RmwOk? then [message] else []
    {
      code := outcome;
      if code.RmwOk? {
        written := written + [message];
      }
    }
  }

  /** What the calls of publish_service_message return: the two buffer
      initialisations, the serialization and the publication. */
  datatype Outcomes = Outcomes(payloadInit: RmwCode, serialize: RmwCode, wireInit: RmwCode, publish: RmwCode)

  /** publish_service_message, for a message that serializes to `payload`. It
      reports the first of its calls that fails. */
  method PublishServiceMessage(publisher: Publisher, payload: seq<Byte>, id: RequestId, outcomes: Outcomes)
    returns (code: RmwCode)
    modifies publisher
    ensures code == if !outcomes.payloadInit.RmwOk? then outcomes.payloadInit
                    else if !outcomes.serialize.RmwOk? then outcomes.serialize
                    else if |payload| > WORD - 1 - HEADER_SIZE then RmwError
                    else if !outcomes.wireInit.RmwOk? then outcomes.wireInit
                    else outcomes.publish
    ensures publisher.written == old(publisher.written) + if code.RmwOk? then [Frame(id, payload)] else []
  {
    if !outcomes.payloadInit.RmwOk? {
      return outcomes.payloadInit;
    }
    code := outcomes.serialize;
    if code.RmwOk? && |payload| > WORD - 1 - HEADER_SIZE {
      code := RmwError;
    }
    if code.RmwOk? {
      code := outcomes.wireInit;
    }
    if !code.RmwOk? {
      return;
    }
    var wire := new Byte[HEADER_SIZE + |payload|](_ => 0);
    forall i | 0 <= i < GUID_SIZE {
      wire[i] := id.guid[i];
    }
    EncodeSequence(wire, GUID_SIZE, id.sequence);
    assert wire[..HEADER_SIZE] == id.guid + SequenceBytes(id.sequence);
    forall i | 0 <= i < |payload| {
      wire[HEADER_SIZE + i] := payload[i];
    }
    assert wire[HEADER_SIZE..] == payload;
    assert wire[..HEADER_SIZE] == id.guid + SequenceBytes(id.sequence);
    assert wire[..] == wire[..HEADER_SIZE] + wire[HEADER_SIZE..];
    code := publisher.PublishSerialized(wire[..], outcomes.publish);
  }

  datatype ServiceInfo = ServiceInfo(sourceTimestamp: int, id: RequestId)

  /** The serialized sample reaches the service layer. */
  predicate Readable(peers: Peers, limit: nat, reply: Reply) {
    && reply.Sample() && reply.Meta().valid
    && reply.Meta().publication in peers.guids && |reply.Data()| <= limit
  }

  /** A frame that answers the request of another client. */
  predicate Foreign(peers: Peers, limit: nat, expected: Option<Guid>, reply: Reply) {
    && Readable(peers, limit, reply) && |reply.Data()| > HEADER_SIZE
    && expected.Some? && reply.Data()[..GUID_SIZE] != expected.value
  }

  /** A frame that the caller is the receiver of. */
  predicate Accepted(peers: Peers, limit: nat, expected: Option<Guid>, reply: Reply) {
    && Readable(peers, limit, reply) && |reply.Data()| > HEADER_SIZE
    && !Foreign(peers, limit, expected, reply)
  }

  /** How many of the leading replies are foreign frames. */
  function Skipped(peers: Peers, limit: nat, expected: Option<Guid>, queue: seq<Reply>): (n: nat)
    ensures n <= |queue|
  {
    if queue == [] || !Foreign(peers, limit, expected, queue[0]) then 0
    else 1 + Skipped(peers, limit, expected, queue[1..])
  }

  lemma {:induction false} SkippedAre(
    peers: Peers, limit: nat, expected: Option<Guid>, queue: seq<Reply>, first: nat)
    requires first <= |queue| && forall i | 0 <= i < first :: Foreign(peers, limit, expected, queue[i])
    requires first < |queue| ==> !Foreign(peers, limit, expected, queue[first])
    ensures Skipped(peers, limit, expected, queue) == first
  {
    hide Foreign;
    if first > 0 {
      var rest := queue[1..];
      assert forall i | 0 <= i < |rest| :: rest[i] == queue[i + 1];
      SkippedAre(peers, limit, expected, rest, first - 1);
    }
  }

  /** What is skipped are the leading frames of another GUID than the expected one;
      without an expected GUID nothing is. */
  lemma {:induction false} SkippedAreForeign(peers: Peers, limit: nat, expected: Option<Guid>, queue: seq<Reply>)
    ensures var n := Skipped(peers, limit, expected, queue);
            && (forall i | 0 <= i < n ::
                  && queue[i].Sample() && queue[i].Meta().valid && queue[i].Meta().publication in peers.guids
                  && 24 < |queue[i].Data()| <= limit
                  && expected.Some? && queue[i].Data()[..16] != expected.value)
            && (n < |queue| && queue[n].Sample() && queue[n].Meta().valid
                && queue[n].Meta().publication in peers.guids && 24 < |queue[n].Data()| <= limit ==>
                  expected.None? || queue[n].Data()[..16] == expected.value)
  {
    if queue != [] && Foreign(peers, limit, expected, queue[0]) {
      var rest := queue[1..];
      SkippedAreForeign(peers, limit, expected, rest);
      assert forall i | 0 < i < |queue| :: queue[i] == rest[i - 1];
    }
  }

  lemma DataIsNotIdle<M>(subscription: Subscription<M>, reply: Reply)
    requires reply.Sample() && reply.Meta().valid
    ensures !subscription.Idle(reply)
  {
  }

  /** The loop of take_service_message: takes serialized messages until one is not
      a foreign frame. */
  method TakeOwnFrame<M>(subscription: Subscription<M>, expected: Option<Guid>, wire: SerializedMessage)
    returns (code: RmwCode, taken: bool, info: MessageInfo)
    requires wire.capacity <= wire.limit
    modifies subscription.reader, wire
    ensures subscription.reader.outstanding == old(subscription.reader.outstanding)
    ensures var queue := old(subscription.Queue());
            var n := Skipped(subscription.peers, wire.limit, expected, queue);
            && subscription.Queue() == queue[if n == |queue| then n else n + 1..]
            && (taken <==> && n < |queue| && queue[n].Sample() && queue[n].Meta().valid
                           && queue[n].Meta().publication in subscription.peers.guids
                           && 24 < |queue[n].Data()| <= wire.limit)
            && (taken ==> wire.bytes == queue[n].Data() && info == subscription.InfoOf(queue[n].Meta()))
            && (taken ==> expected.None? || wire.bytes[..16] == expected.value)
            && (code.RmwOk? <==> taken || n == |queue| || subscription.Idle(queue[n]))
  {
    ghost var queue, peers := subscription.Queue(), subscription.peers;
    SkippedAreForeign(peers, wire.limit, expected, queue);
    hide Skipped, Subscription.Idle, Subscription.InfoOf, Peers.Shown;
    ghost var n := Skipped(peers, wire.limit, expected, queue);
    ghost var dropped := 0;
    while true
      invariant dropped <= n && subscription.Queue() == queue[dropped..]
      invariant subscription.reader.outstanding == old(subscription.reader.outstanding)
      invariant wire.capacity <= wire.limit
      decreases n - dropped
    {
      wire.bytes := [];
      code, taken, info := subscription.TakeSerializedWithInfo(wire);
      if !code.RmwOk? || !taken {
        return;
      }
      if |wire.bytes| <= HEADER_SIZE {
        DataIsNotIdle(subscription, queue[dropped]);
        return RmwError, false, info;
      }
      if expected.None? || wire.bytes[..GUID_SIZE] == expected.value {
        return;
      }
      taken := false;
      dropped := dropped + 1;
    }
  }

  /** Every reply of the queue brings the frame of an identity and a payload. */
  predicate Carries(peers: Peers, limit: nat, queue: seq<Reply>, ids: seq<RequestId>, payloads: seq<seq<Byte>>) {
    && |queue| == |ids| == |payloads|
    && forall i | 0 <= i < |queue| ::
         && queue[i].Sample() && queue[i].Meta().valid && queue[i].Meta().publication in peers.guids
         && payloads[i] != [] && queue[i].Data() == Frame(ids[i], payloads[i]) && |queue[i].Data()| <= limit
  }

  /** The first of the identities whose GUID is expected, if there is one. */
  predicate FirstOwn(expected: Option<Guid>, ids: seq<RequestId>, first: nat) {
    && first <= |ids|
    && (forall i | 0 <= i < first :: expected.Some? && ids[i].guid != expected.value)
    && (first < |ids| ==> expected.None? || ids[first].guid == expected.value)
  }

  /** On a queue of frames, the first own one is reached after dropping exactly
      the frames before it, and carries its identity and payload. */
  lemma TakesFirstOwn(peers: Peers, limit: nat, expected: Option<Guid>, queue: seq<Reply>,
                      ids: seq<RequestId>, payloads: seq<seq<Byte>>, first: nat)
    requires Carries(peers, limit, queue, ids, payloads) && FirstOwn(expected, ids, first)
    ensures Skipped(peers, limit, expected, queue) == first
    ensures |queue| == |ids| == |payloads|
    ensures first < |queue| ==>
              && queue[first].Sample() && queue[first].Meta().valid && queue[first].Meta().publication in peers.guids
              && 24 < |queue[first].Data()| <= limit
              && IdOf(queue[first].Data()) == ids[first] && queue[first].Data()[24..] == payloads[first]
  {
    forall i | 0 <= i < |queue|
      ensures Foreign(peers, limit, expected, queue[i]) <==> expected.Some? && ids[i].guid != expected.value
    {
      FrameRoundTrip(ids[i], payloads[i]);
      assert Readable(peers, limit, queue[i]);
    }
    SkippedAre(peers, limit, expected, queue, first);
    if first < |queue| {
      FrameRoundTrip(ids[first], payloads[first]);
    }
  }

  lemma FirstOwnIsNext(peers: Peers, limit: nat, expected: Option<Guid>, queue: seq<Reply>)
    ensures var n := Skipped(peers, limit, expected, queue);
            forall ids, payloads, first: nat |
              Carries(peers, limit, queue, ids, payloads) && FirstOwn(expected, ids, first) ::
              && |queue| == |ids| == |payloads| && first == n
              && (n < |queue| ==>
                    && queue[n].Sample() && queue[n].Meta().valid && 24 < |queue[n].Data()| <= limit
                    && queue[n].Meta().publication in peers.guids
                    && IdOf(queue[n].Data()) == ids[n] && queue[n].Data()[24..] == payloads[n])
  {
    hide Carries, FirstOwn, IdOf, Skipped;
    forall ids, payloads, first: nat | Carries(peers, limit, queue, ids, payloads) && FirstOwn(expected, ids, first)
      ensures |queue| == |ids| == |payloads| && first == Skipped(peers, limit, expected, queue)
      ensures first < |queue| ==>
                && queue[first].Sample() && queue[first].Meta().valid && 24 < |queue[first].Data()| <= limit
                && queue[first].Meta().publication in peers.guids
                && IdOf(queue[first].Data()) == ids[first] && queue[first].Data()[24..] == payloads[first]
    {
      TakesFirstOwn(peers, limit, expected, queue, ids, payloads, first);
    }
  }

  /**
   take_service_message: drops the leading frames of other clients and takes
   what follows. A server expects no GUID and drops nothing. `header` is None if
   *service_info was not written, and `before` is what *ros_message held.
   */
  method TakeServiceMessage<M, N>(
    subscription: Subscription<M>, expected: Option<Guid>, limit: nat,
    accepts: seq<Byte> -> bool, fill: (N, seq<Byte>) -> N, before: N)
    returns (code: RmwCode, taken: bool, header: Option<ServiceInfo>, message: N)
    modifies subscription.reader
    ensures subscription.reader.outstanding == old(subscription.reader.outstanding)
    ensures var queue := old(subscription.Queue());
            var n := Skipped(subscription.peers, limit, expected, queue);
            if n == |queue| then
              code.RmwOk? && !taken && header.None? && message == before && subscription.Queue() == []
            else
              var reply := queue[n];
              && subscription.Queue() == queue[n + 1..]
              && (header.Some? <==> && reply.Sample() && reply.Meta().valid
                                    && reply.Meta().publication in subscription.peers.guids
                                    && 24 < |reply.Data()| <= limit)
              && (header.Some? ==>
                    && header.value == ServiceInfo(reply.Meta().sourceTimestamp, IdOf(reply.Data()))
                    && message == fill(before, reply.Data()[HEADER_SIZE..]))
              && (header.None? ==> message == before)
              && (taken <==> header.Some? && accepts(reply.Data()[HEADER_SIZE..]))
              && (code.RmwOk? <==> taken || subscription.Idle(reply))
    ensures var queue := old(subscription.Queue());
            forall ids, payloads, first: nat |
              Carries(subscription.peers, limit, queue, ids, payloads) && FirstOwn(expected, ids, first) ::
              if first == |queue| then
                code.RmwOk? && !taken && header.None? && message == before && subscription.Queue() == []
              else
                && header == Some(ServiceInfo(queue[first].Meta().sourceTimestamp, ids[first]))
                && message == fill(before, payloads[first])
                && (taken <==> accepts(payloads[first])) && (code.RmwOk? <==> taken)
                && subscription.Queue() == queue[first + 1..]
  {
    FirstOwnIsNext(subscription.peers, limit, expected, subscription.Queue());
    hide *;
    var wire := new SerializedMessage(limit);
    header, message := None, before;
    var info;
    code, taken, info := TakeOwnFrame(subscription, expected, wire);
    if taken {
      IdParts(wire.bytes);
      var sequence := DecodeSequence(wire.bytes, GUID_SIZE);
      header := Some(ServiceInfo(info.sourceTimestamp, RequestId(wire.bytes[..GUID_SIZE], sequence)));
      taken := accepts(wire.bytes[HEADER_SIZE..]);
      message := fill(message, wire.bytes[HEADER_SIZE..]);
      code := if taken then RmwOk else RmwError;
    }
  }
}
