/**
 Taking samples from a subscription. zzdds answers each take_raw call with a
 code and, if that is OK, a loan that has to be returned; what it will answer
 is a script of replies. The methods below are the take functions, which skip
 samples of local publications, and their contracts describe what they take by
 the script with those samples filtered out, and that no path keeps a loan or
 returns one twice.
 */
module Taking {
  import opened Options
  import opened Bytes
  import opened ReturnCodes

  type Handle = int
  type Guid = s: seq<Byte> | |s| == 16 witness seq(16, _ => 0)

  datatype Info = Info(valid: bool, publication: Handle, sourceTimestamp: int)

  /** A loaned sequence: its length, and its first element unless its buffer is
      null. */
  datatype Loaned<T> = Loaned(length: nat, first: Option<T>)

  /** The answer to one take_raw, and to the return of the loan it makes. */
  datatype Reply = Reply(code: DdsCode, payloads: Loaned<seq<Byte>>, infos: Loaned<Info>, returned: DdsCode)
  {
    predicate Empty() {
      payloads.length == 0 && infos.length == 0
    }

    predicate OneSample() {
      payloads.length == 1 && payloads.first.Some? && infos.length == 1 && infos.first.Some?
    }

    predicate Sample() {
      code.DdsOk? && OneSample()
    }

    function Data(): seq<Byte>
      requires Sample()
    {
      payloads.first.value
    }

    function Meta(): Info
      requires Sample()
    {
      infos.first.value
    }

    /** The code that a take returns for a reply that carries no sample. */
    function Fault(): (code: DdsCode)
      requires !Sample()
      ensures !code.DdsOk?
    {
      if !this.code.DdsOk? then this.code
      else if !Empty() then DdsError
      else if returned.DdsOk? then DdsNoData else returned
    }
  }

  /** The answer to a take when nothing is queued. */
  const NOTHING := Reply(DdsOk, Loaned(0, None), Loaned(0, None), DdsOk)

  /** The zzdds reader behind a subscription. */
  class RawReader {
    var replies: seq<Reply>
    /** The loans made and not yet returned. */
    ghost var outstanding: seq<Reply>

    method TakeRaw() returns (reply: Reply)
      modifies this
      ensures old(replies) == [] ==> reply == NOTHING && replies == []
      ensures old(replies) != [] ==> reply == old(replies)[0] && replies == old(replies)[1..]
      ensures outstanding == old(outstanding) + if reply.code.DdsOk? then [reply] else []
    {
      if replies == [] {
        reply := NOTHING;
      } else {
        reply, replies := replies[0], replies[1..];
      }
      if reply.code.DdsOk? {
        outstanding := outstanding + [reply];
      }
    }

    method ReturnLoan(loan: Reply) returns (code: DdsCode)
      requires outstanding != [] && outstanding[|outstanding| - 1] == loan
      modifies `outstanding
      ensures outstanding == old(outstanding)[..|old(outstanding)| - 1]
      ensures code == loan.returned
    {
      outstanding := outstanding[..|outstanding| - 1];
      code := loan.returned;
    }
  }

  /** The publications a subscription may ask about: the GUID of each matched
      one, and the GUIDs of the local ones. */
  datatype Peers = Peers(ignoreLocal: bool, guids: map<Handle, Guid>, local: set<Guid>)
  {
    predicate Hides(reply: Reply) {
      && ignoreLocal && reply.Sample()
      && reply.Meta().publication in guids && guids[reply.Meta().publication] in local
    }

    /** The replies that a take does not skip. */
    function Shown(replies: seq<Reply>): (shown: seq<Reply>)
      ensures replies == [] ==> shown == []
    {
      if replies == [] then []
      else if Hides(replies[0]) then Shown(replies[1..])
      else [replies[0]] + Shown(replies[1..])
    }

    lemma {:induction false} ShownAreReplies(replies: seq<Reply>)
      ensures forall r | r in Shown(replies) :: r in replies && !Hides(r)
    {
      if replies != [] {
        ShownAreReplies(replies[1..]);
      }
    }

    lemma {:induction false} FirstNotHidden(replies: seq<Reply>, first: nat)
      requires first <= |replies| && forall i | 0 <= i < first :: Hides(replies[i])
      requires first < |replies| ==> !Hides(replies[first])
      ensures Shown(replies) == if first == |replies| then [] else [replies[first]] + Shown(replies[first + 1..])
    {
      hide Hides;
      if first > 0 {
        var rest := replies[1..];
        assert forall i | 0 <= i < |rest| :: rest[i] == replies[i + 1];
        FirstNotHidden(rest, first - 1);
        assert first < |replies| ==> rest[first..] == replies[first + 1..];
      }
    }

    /** A take that ignores local publications skips exactly the leading samples of
        known publications whose GUID is local; any other skips nothing. */
    lemma FirstShown(replies: seq<Reply>, first: nat)
      requires first <= |replies|
      requires forall i | 0 <= i < first ::
                 && ignoreLocal && replies[i].Sample()
                 && replies[i].Meta().publication in guids && guids[replies[i].Meta().publication] in local
      requires first < |replies| ==>
                 !(&& ignoreLocal && replies[first].Sample()
                   && replies[first].Meta().publication in guids
                   && guids[replies[first].Meta().publication] in local)
      ensures Shown(replies) == if first == |replies| then [] else [replies[first]] + Shown(replies[first + 1..])
    {
      FirstNotHidden(replies, first);
    }

    lemma {:induction false} NothingHidden(replies: seq<Reply>)
      requires !ignoreLocal
      ensures Shown(replies) == replies
    {
      if replies != [] {
        NothingHidden(replies[1..]);
      }
    }

    lemma ShownStep(replies: seq<Reply>)
      requires replies != []
      ensures Shown(replies) == (if Hides(replies[0]) then [] else [replies[0]]) + Shown(replies[1..])
    {
    }
  }

  datatype MessageInfo = MessageInfo(sourceTimestamp: int, publisher: Option<Guid>)

  /** A caller's buffer for serialized messages; the allocator serves requests
      up to `limit`. */
  class SerializedMessage {
    const limit: nat
    var bytes: seq<Byte>
    var capacity: nat

    constructor (limit: nat)
      ensures this.limit == limit && bytes == [] && capacity == 0
    {
      this.limit, bytes, capacity := limit, [], 0;
    }
  }

  /** A caller's sequence of `data.Length` preallocated elements. */
  class Elements<T> {
    const data: array<T>
    var size: nat

    constructor (data: array<T>)
      ensures this.data == data && size == 0
    {
      this.data, size := data, 0;
    }
  }

  class Subscription<M> {
    const reader: RawReader
    const peers: Peers
    /** Whether deserialization accepts the bytes, and the message it leaves
        when the message held something before. */
    const accepts: seq<Byte> -> bool
    const fill: (M, seq<Byte>) -> M

    constructor (reader: RawReader, peers: Peers, accepts: seq<Byte> -> bool, fill: (M, seq<Byte>) -> M)
      ensures this.reader == reader && this.peers == peers && this.accepts == accepts && this.fill == fill
    {
      this.reader, this.peers, this.accepts, this.fill := reader, peers, accepts, fill;
    }

    /** The replies to come, without those that are skipped. */
    function Queue(): seq<Reply>
      reads reader
    {
      peers.Shown(reader.replies)
    }

    method IsLocalPublication(publication: Handle) returns (isLocal: bool)
      ensures isLocal <==> publication in peers.guids && peers.guids[publication] in peers.local
    {
      isLocal := publication in peers.guids && peers.guids[publication] in peers.local;
    }

    method TakeVisibleSample() returns (code: DdsCode, loan: Reply)
      modifies reader
      ensures old(Queue()) == [] ==> code.DdsNoData?
      ensures old(Queue()) != [] ==>
                var first := old(Queue())[0];
                code == if !first.code.DdsOk? then first.code
                        else if first.payloads.length == 0 && first.infos.length == 0 then
                          if first.returned.DdsOk? then DdsNoData else first.returned
                        else if first.payloads.length == 1 && first.payloads.first.Some?
                             && first.infos.length == 1 && first.infos.first.Some? then DdsOk
                        else DdsError
      ensures code.DdsOk? ==> old(Queue()) != [] && loan == old(Queue())[0]
      ensures Queue() == if old(Queue()) == [] then [] else old(Queue())[1..]
      ensures reader.outstanding == old(reader.outstanding) + if code.DdsOk? then [loan] else []
      ensures old(Queue()) != [] ==> |reader.replies| < |old(reader.replies)|
    {
      ghost var queue, before := Queue(), reader.replies;
      assert before == [] ==> queue == [];
      hide Peers.Shown;
      while true
        invariant Queue() == queue
        invariant reader.outstanding == old(reader.outstanding)
        invariant |reader.replies| <= |before|
        invariant reader.replies == [] ==> queue == []
        decreases |reader.replies|
      {
        if reader.replies != [] {
          peers.ShownStep(reader.replies);
        }
        loan := reader.TakeRaw();
        assert Queue() == if queue == [] || peers.Hides(loan) then queue else queue[1..];
        if loan.code.DdsOk? {
          if loan.Empty() {
            var returned := reader.ReturnLoan(loan);
            return if returned.DdsOk? then DdsNoData else returned, loan;
          }
          if !loan.OneSample() {
            var _ := reader.ReturnLoan(loan);
            return DdsError, loan;
          }
        }
        if !loan.code.DdsOk? || !peers.ignoreLocal {
          return loan.code, loan;
        }
        var isLocal := IsLocalPublication(loan.Meta().publication);
        if !isLocal {
          return loan.code, loan;
        }
        var _ := reader.ReturnLoan(loan);
      }
    }

    method FillMessageInfo(info: Info) returns (filled: MessageInfo, ok: bool)
      ensures filled == InfoOf(info) && (ok <==> info.publication in peers.guids)
    {
      ok := info.publication in peers.guids;
      filled := MessageInfo(info.sourceTimestamp, if ok then Some(peers.guids[info.publication]) else None);
    }

    function InfoOf(info: Info): MessageInfo {
      MessageInfo(info.sourceTimestamp,
                  if info.publication in peers.guids then Some(peers.guids[info.publication]) else None)
    }

    /** The reply hands the caller a message and its publisher. */
    predicate Delivers(reply: Reply) {
      && reply.Sample() && reply.Meta().valid
      && accepts(reply.Data()) && reply.Meta().publication in peers.guids
    }

    /** The reply says that there is nothing to take: no sample, or one without
        data. */
    predicate Idle(reply: Reply) {
      if reply.Sample() then !reply.Meta().valid else reply.Fault().DdsNoData?
    }

    /** What a reply amounts to, by what the reader answered. */
    lemma ReplyKinds(reply: Reply, meta: Info)
      requires reply.infos.first.Some? ==> meta == reply.infos.first.value
      ensures reply.Sample() <==>
                && reply.code.DdsOk? && reply.payloads.length == 1 && reply.payloads.first.Some?
                && reply.infos.length == 1 && reply.infos.first.Some?
      ensures reply.Sample() ==> reply.Data() == reply.payloads.first.value && reply.Meta() == meta
      ensures Delivers(reply) <==>
                reply.Sample() && meta.valid && accepts(reply.Data()) && meta.publication in peers.guids
      ensures Idle(reply) <==>
                || reply.code.DdsNoData?
                || (reply.code.DdsOk? && reply.payloads.length == 0 && reply.infos.length == 0
                    && (reply.returned.DdsOk? || reply.returned.DdsNoData?))
                || (reply.Sample() && !meta.valid)
      ensures InfoOf(meta).sourceTimestamp == meta.sourceTimestamp
      ensures InfoOf(meta).publisher ==
                if meta.publication in peers.guids then Some(peers.guids[meta.publication]) else None
    {
    }

    /** rmw_take_with_info into element `index` of the two sequences. */
    method TakeWithInfo(messages: array<M>, infos: array<MessageInfo>, index: nat)
      returns (code: RmwCode, taken: bool)
      requires index < messages.Length && index < infos.Length
      requires messages as object != infos as object
      modifies reader, messages, infos
      ensures reader.outstanding == old(reader.outstanding)
      ensures Queue() == if old(Queue()) == [] then [] else old(Queue())[1..]
      ensures taken <==> old(Queue()) != [] && Delivers(old(Queue())[0])
      ensures code == if taken || old(Queue()) == [] || Idle(old(Queue())[0]) then RmwOk else RmwError
      ensures taken ==> messages[index] == fill(old(messages[index]), old(Queue())[0].Data())
      ensures taken ==> infos[index] == InfoOf(old(Queue())[0].Meta())
      ensures code.RmwOk? && !taken ==> messages[index] == old(messages[index]) && infos[index] == old(infos[index])
      ensures forall i | 0 <= i < messages.Length && i != index :: messages[i] == old(messages[i])
      ensures forall i | 0 <= i < infos.Length && i != index :: infos[i] == old(infos[i])
    {
      taken := false;
      var result, loan := TakeVisibleSample();
      if result.DdsNoData? {
        return RmwOk, false;
      }
      if !result.DdsOk? {
        return RmwError, false;
      }
      var info := loan.Meta();
      var decoded := true;
      if info.valid {
        decoded := accepts(loan.Data());
        messages[index] := fill(messages[index], loan.Data());
      }
      var _ := reader.ReturnLoan(loan);
      if !decoded {
        return RmwError, false;
      }
      if info.valid {
        var filled, ok := FillMessageInfo(info);
        infos[index] := filled;
        if !ok {
          return RmwError, false;
        }
      }
      return RmwOk, info.valid;
    }

    /** rmw_take: unlike the others it reports a loan that cannot be returned. */
    method Take(messages: array<M>, index: nat) returns (code: RmwCode, taken: bool)
      requires index < messages.Length
      modifies reader, messages
      ensures reader.outstanding == old(reader.outstanding)
      ensures Queue() == if old(Queue()) == [] then [] else old(Queue())[1..]
      ensures taken <==> && old(Queue()) != [] && var r := old(Queue())[0];
                         && r.Sample() && r.Meta().valid && accepts(r.Data()) && r.returned.DdsOk?
      ensures old(Queue()) == [] ==> code.RmwOk?
      ensures old(Queue()) != [] ==>
                var r := old(Queue())[0];
                code == if taken || (Idle(r) && (r.Sample() ==> r.returned.DdsOk?)) then RmwOk else RmwError
      ensures taken ==> messages[index] == fill(old(messages[index]), old(Queue())[0].Data())
      ensures code.RmwOk? && !taken ==> messages[index] == old(messages[index])
      ensures forall i | 0 <= i < messages.Length && i != index :: messages[i] == old(messages[i])
    {
      taken := false;
      var result, loan := TakeVisibleSample();
      if result.DdsNoData? {
        return RmwOk, false;
      }
      if !result.DdsOk? {
        return RmwError, false;
      }
      var decoded := false;
      if loan.Meta().valid {
        decoded := accepts(loan.Data());
        messages[index] := fill(messages[index], loan.Data());
      }
      var returned := reader.ReturnLoan(loan);
      if !returned.DdsOk? {
        return RmwError, false;
      }
      if loan.Meta().valid && !decoded {
        return RmwError, false;
      }
      return RmwOk, loan.Meta().valid;
    }

    method TakeSerializedWithInfo(message: SerializedMessage) returns (code: RmwCode, taken: bool, info: MessageInfo)
      modifies reader, message
      ensures reader.outstanding == old(reader.outstanding)
      ensures Queue() == if old(Queue()) == [] then [] else old(Queue())[1..]
      ensures taken <==> && old(Queue()) != [] && var r := old(Queue())[0];
                         && r.Sample() && r.Meta().valid && r.Meta().publication in peers.guids
                         && (|r.Data()| <= old(message.capacity) || |r.Data()| <= message.limit)
      ensures taken ==> message.bytes == old(Queue())[0].Data() && info == InfoOf(old(Queue())[0].Meta())
      ensures code == if taken || old(Queue()) == [] || Idle(old(Queue())[0]) then RmwOk
                      else if old(Queue())[0].Sample()
                           && |old(Queue())[0].Data()| > old(message.capacity)
                           && |old(Queue())[0].Data()| > message.limit then RmwBadAlloc
                      else RmwError
      ensures code.RmwOk? && !taken ==> message.bytes == old(message.bytes)
      ensures old(message.capacity) <= message.limit ==> message.capacity <= message.limit
      ensures message.capacity ==
                if old(Queue()) != [] && old(Queue())[0].Sample() && old(Queue())[0].Meta().valid
                   && old(message.capacity) < |old(Queue())[0].Data()| <= message.limit
                then |old(Queue())[0].Data()| else old(message.capacity)
      ensures old(Queue()) != [] ==> |reader.replies| < |old(reader.replies)|
    {
      taken, info := false, MessageInfo(0, None);
      var result, loan := TakeVisibleSample();
      if result.DdsNoData? {
        return RmwOk, false, info;
      }
      if !result.DdsOk? {
        return RmwError, false, info;
      }
      var valid := loan.Meta().valid;
      if valid && message.capacity < |loan.Data()| {
        if |loan.Data()| > message.limit {
          var _ := reader.ReturnLoan(loan);
          return RmwBadAlloc, false, info;
        }
        message.capacity := |loan.Data()|;
      }
      if valid {
        message.bytes := loan.Data();
        var ok;
        info, ok := FillMessageInfo(loan.Meta());
        if !ok {
          var _ := reader.ReturnLoan(loan);
          return RmwError, false, info;
        }
      }
      var _ := reader.ReturnLoan(loan);
      return RmwOk, valid, info;
    }

    /** How many of the leading replies deliver. */
    function Leading(queue: seq<Reply>): (k: nat)
      ensures k <= |queue|
      ensures forall i | 0 <= i < k :: Delivers(queue[i])
      ensures k < |queue| ==> !Delivers(queue[k])
    {
      if queue == [] || !Delivers(queue[0]) then 0 else 1 + Leading(queue[1..])
    }

    /** How many messages a take of up to `count` delivers. */
    function Deliveries(count: nat, queue: seq<Reply>): (n: nat)
      ensures n <= Leading(queue)
    {
      if Leading(queue) < count then Leading(queue) else count
    }

    /** The reply after the delivered ones ends the take with an error. */
    predicate Stopped(count: nat, queue: seq<Reply>) {
      var n := Deliveries(count, queue);
      n < count && n < |queue| && !Idle(queue[n])
    }

    /** How many replies the take uses up. */
    function Used(count: nat, queue: seq<Reply>): (n: nat)
      ensures n <= |queue|
    {
      var n := Deliveries(count, queue);
      if n == count || n == |queue| then n else n + 1
    }

    /**
     When every reply carries a sample and those with data decode and come from
     a matched publication, a take of up to `count` delivers the first `count`
     of the leading samples with data, and cannot fail.
     */
    lemma {:induction false} SamplesDeliver(count: nat, replies: seq<Reply>, valid: nat)
      requires forall r | r in replies :: r.Sample()
      requires forall r | r in replies :: r.Meta().valid ==> accepts(r.Data()) && r.Meta().publication in peers.guids
      requires valid <= |peers.Shown(replies)|
      requires forall r | r in peers.Shown(replies)[..valid] :: r.Sample() && r.Meta().valid
      requires valid < |peers.Shown(replies)| ==>
                 peers.Shown(replies)[valid].Sample() && !peers.Shown(replies)[valid].Meta().valid
      ensures Deliveries(count, peers.Shown(replies)) == (if valid < count then valid else count)
      ensures !Stopped(count, peers.Shown(replies))
    {
      var shown := peers.Shown(replies);
      peers.ShownAreReplies(replies);
      forall i | 0 <= i < valid ensures Delivers(shown[i]) {
        assert shown[i] in shown[..valid] && shown[i] in replies;
      }
    }

    lemma DeliveriesAreSamples(count: nat, queue: seq<Reply>)
      ensures Deliveries(count, queue) == count ==> !Stopped(count, queue) && Used(count, queue) == count
      ensures Deliveries(count, queue) <= count && Deliveries(count, queue) <= |queue|
      ensures forall i | 0 <= i < Deliveries(count, queue) :: queue[i].Sample()
      ensures forall i | 0 <= i < |queue| && Delivers(queue[i]) :: queue[i].Sample()
    {
    }

    /** What taking the reply after `taken` delivered ones does: another delivery,
        or the end. */
    lemma TakingAt(count: nat, queue: seq<Reply>, taken: nat)
      requires taken < count && taken <= Leading(queue)
      ensures taken == |queue| <==> queue[taken..] == []
      ensures taken < |queue| ==> queue[taken..][0] == queue[taken] && queue[taken..][1..] == queue[taken + 1..]
      ensures taken < |queue| && Delivers(queue[taken]) ==> taken + 1 <= Deliveries(count, queue)
      ensures !(taken < |queue| && Delivers(queue[taken])) ==>
                && Deliveries(count, queue) == taken
                && queue[Used(count, queue)..] == (if taken == |queue| then [] else queue[taken + 1..])
                && (Stopped(count, queue) <==> taken < |queue| && !Idle(queue[taken]))
    {
    }

    /** The loop of rmw_take_sequence. */
    method TakeUpTo(count: nat, messages: array<M>, infos: array<MessageInfo>) returns (code: RmwCode, taken: nat)
      requires count <= messages.Length && count <= infos.Length
      requires messages as object != infos as object
      modifies reader, messages, infos
      ensures reader.outstanding == old(reader.outstanding)
      ensures taken == Deliveries(count, old(Queue()))
      ensures code == if Stopped(count, old(Queue())) then RmwError else RmwOk
      ensures Queue() == old(Queue())[Used(count, old(Queue()))..]
      ensures forall i | 0 <= i < taken ::
                && messages[i] == fill(old(messages[i]), old(Queue())[i].Data())
                && infos[i] == InfoOf(old(Queue())[i].Meta())
      ensures forall i | taken < i < messages.Length :: messages[i] == old(messages[i])
      ensures forall i | taken < i < infos.Length :: infos[i] == old(infos[i])
    {
      ghost var queue := Queue();
      DeliveriesAreSamples(count, queue);
      hide *;
      taken, code := 0, RmwOk;
      var one := true;
      while taken < count && one
        invariant taken <= Deliveries(count, queue)
        invariant one ==> code.RmwOk? && Queue() == queue[taken..]
        invariant !one ==> taken == Deliveries(count, queue) && Queue() == queue[Used(count, queue)..]
        invariant !one ==> code == if Stopped(count, queue) then RmwError else RmwOk
        invariant reader.outstanding == old(reader.outstanding)
        invariant forall i | 0 <= i < taken ::
                    && messages[i] == fill(old(messages[i]), queue[i].Data())
                    && infos[i] == InfoOf(queue[i].Meta())
        invariant forall i | (if one then taken else taken + 1) <= i < messages.Length ::
                    messages[i] == old(messages[i])
        invariant forall i | (if one then taken else taken + 1) <= i < infos.Length ::
                    infos[i] == old(infos[i])
        decreases one, count - taken
      {
        TakingAt(count, queue, taken);
        code, one := TakeWithInfo(messages, infos, taken);
        if one {
          taken := taken + 1;
        }
      }
    }

    /**
     rmw_take_sequence: takes, in order, the first `count` of the leading
     replies that deliver. It stops early, without error, at an idle reply,
     which is used up; at a reply that neither delivers nor is idle it reports an
     error, with *taken counting what was delivered and the sizes not updated.
     `before` is what *taken held.
     */
    method TakeSequence(count: nat, messages: Elements<M>, infos: Elements<MessageInfo>, before: nat)
      returns (code: RmwCode, taken: nat)
      requires messages.data as object != infos.data as object
      modifies reader, messages`size, infos`size, messages.data, infos.data
      ensures reader.outstanding == old(reader.outstanding)
      ensures count == 0 || messages.data.Length < count || infos.data.Length < count ==>
                && code.RmwInvalidArgument? && taken == before
                && reader.replies == old(reader.replies)
                && messages.data[..] == old(messages.data[..]) && infos.data[..] == old(infos.data[..])
      ensures 0 < count <= messages.data.Length && count <= infos.data.Length ==>
                && taken == Deliveries(count, old(Queue()))
                && code == (if Stopped(count, old(Queue())) then RmwError else RmwOk)
                && Queue() == old(Queue())[Used(count, old(Queue()))..]
      ensures 0 < count <= messages.data.Length && count <= infos.data.Length ==>
                forall i | 0 <= i < taken ::
                  && messages.data[i] == fill(old(messages.data[i]), old(Queue())[i].Data())
                  && infos.data[i] == InfoOf(old(Queue())[i].Meta())
      ensures forall i | taken < i < messages.data.Length :: messages.data[i] == old(messages.data[i])
      ensures forall i | taken < i < infos.data.Length :: infos.data[i] == old(infos.data[i])
      ensures messages.size == (if code.RmwOk? then taken else old(messages.size))
      ensures infos.size == (if code.RmwOk? then taken else old(infos.size))
    {
      if count == 0 || messages.data.Length < count || infos.data.Length < count {
        return RmwInvalidArgument, before;
      }
      code, taken := TakeUpTo(count, messages.data, infos.data);
      if code.RmwOk? {
        messages.size := taken;
        infos.size := taken;
      }
    }
  }
}
