/**
 Runs of one service with any number of clients and servers. Clients number
 their requests, servers answer only requests they took, replies are broadcast,
 and the network delivers a published frame to anyone, late, in any order and
 any number of times, but does not make frames up. A client has one request
 writer, whose GUID no other client's writer has.
 */
module ServiceRuns {
  import opened Options
  import opened Bytes
  import opened Taking
  import opened ServiceFrames

  /** The writer GUID of each client, and the number of servers. */
  datatype Service = Service(guids: seq<Guid>, servers: nat)
  {
    predicate Valid() {
      forall i, j | 0 <= i < j < |guids| :: guids[i] != guids[j]
    }
  }

  /** The requests each client has numbered, the requests each server may
      answer, and what has been published on the two topics. */
  datatype State = State(
    numbered: seq<nat>, taken: seq<set<RequestId>>, requests: set<seq<Byte>>, responses: set<seq<Byte>>)

  /** rmw_send_request, rmw_take_request, rmw_send_response and
      rmw_take_response; `published` is whether publishing succeeds, and `reply`
      is what ServiceFrames.TakeServiceMessage writes a header for. */
  datatype Step =
    | SendRequest(client: nat, payload: seq<Byte>, published: bool)
    | TakeRequest(server: nat, peers: Peers, limit: nat, reply: Reply)
    | SendResponse(server: nat, id: RequestId, payload: seq<Byte>, published: bool)
    | TakeResponse(client: nat, peers: Peers, limit: nat, reply: Reply)

  /** The sequence number that fetch_add gives the request after `earlier`
      others: counting starts at 1, and the 64-bit counter wraps. */
  function Number(earlier: nat): Int64 {
    Signed((earlier + 1) % WORD)
  }

  /** The first request has number 1, and each has the number after the one
      before until the counter wraps. */
  lemma NumbersCount(earlier: nat)
    ensures earlier < 0x7FFF_FFFF_FFFF_FFFF ==> Number(earlier) == earlier + 1
    ensures earlier == 0x7FFF_FFFF_FFFF_FFFF ==> Number(earlier) == -0x8000_0000_0000_0000
  {
  }

  /** The identity of the request that `client` sends next. */
  function NextId(service: Service, state: State, client: nat): RequestId
    requires client < |service.guids| && client < |state.numbered|
  {
    RequestId(service.guids[client], Number(state.numbered[client]))
  }

  ghost predicate Fits(service: Service, state: State) {
    |state.numbered| == |service.guids| && |state.taken| == service.servers
  }

  ghost predicate Enabled(service: Service, state: State, step: Step)
    requires Fits(service, state)
  {
    match step
    case SendRequest(client, _, _) => client < |service.guids|
    case TakeRequest(server, peers, limit, reply) =>
      server < service.servers && Accepted(peers, limit, None, reply) && reply.Data() in state.requests
    case SendResponse(server, id, _, _) => server < service.servers && id in state.taken[server]
    case TakeResponse(client, peers, limit, reply) =>
      client < |service.guids| && Accepted(peers, limit, Some(service.guids[client]), reply)
      && reply.Data() in state.responses
  }

  ghost function Next(service: Service, state: State, step: Step): (next: State)
    requires Fits(service, state) && Enabled(service, state, step)
    ensures Fits(service, next)
  {
    match step
    case SendRequest(client, payload, published) =>
      var frame := Frame(NextId(service, state, client), payload);
      state.(numbered := state.numbered[client := state.numbered[client] + 1],
             requests := if published then state.requests + {frame} else state.requests)
    case TakeRequest(server, _, _, reply) =>
      state.(taken := state.taken[server := state.taken[server] + {IdOf(reply.Data())}])
    case SendResponse(_, id, payload, published) =>
      state.(responses := if published then state.responses + {Frame(id, payload)} else state.responses)
    case TakeResponse(_, _, _, _) => state
  }

  function Start(service: Service): State {
    State(seq(|service.guids|, _ => 0), seq(service.servers, _ => {}), {}, {})
  }

  ghost predicate IsRun(service: Service, steps: seq<Step>, states: seq<State>) {
    && service.Valid()
    && |states| == |steps| + 1 && states[0] == Start(service)
    && forall n | 0 <= n < |steps| ::
         && Fits(service, states[n]) && Enabled(service, states[n], steps[n])
         && states[n + 1] == Next(service, states[n], steps[n])
  }

  /** Step `i` sends the request with this identity and payload. */
  ghost predicate Sends(
    service: Service, steps: seq<Step>, states: seq<State>, i: nat, id: RequestId, payload: seq<Byte>)
    requires IsRun(service, steps, states)
  {
    && i < |steps| && steps[i].SendRequest? && steps[i].payload == payload
    && NextId(service, states[i], steps[i].client) == id
  }

  lemma {:induction false} RequestOrigin(
    service: Service, steps: seq<Step>, states: seq<State>, n: nat, frame: seq<Byte>)
    returns (i: nat)
    requires IsRun(service, steps, states) && n <= |steps| && frame in states[n].requests
    ensures i < n && |frame| >= HEADER_SIZE && steps[i].SendRequest? && steps[i].published
    ensures Sends(service, steps, states, i, IdOf(frame), frame[HEADER_SIZE..])
  {
    assert n > 0;
    if frame in states[n - 1].requests {
      i := RequestOrigin(service, steps, states, n - 1, frame);
    } else {
      i := n - 1;
      FrameRoundTrip(NextId(service, states[i], steps[i].client), steps[i].payload);
    }
  }

  lemma {:induction false} TakenOrigin(
    service: Service, steps: seq<Step>, states: seq<State>, n: nat, server: nat, id: RequestId)
    returns (j: nat)
    requires IsRun(service, steps, states) && n <= |steps| && server < service.servers
    requires server < |states[n].taken| && id in states[n].taken[server]
    ensures j < n && steps[j].TakeRequest? && steps[j].server == server
    ensures Accepted(steps[j].peers, steps[j].limit, None, steps[j].reply) && IdOf(steps[j].reply.Data()) == id
    ensures steps[j].reply.Data() in states[j].requests
  {
    assert n > 0;
    if id in states[n - 1].taken[server] {
      j := TakenOrigin(service, steps, states, n - 1, server, id);
    } else {
      j := n - 1;
    }
  }

  lemma {:induction false} ResponseOrigin(
    service: Service, steps: seq<Step>, states: seq<State>, n: nat, frame: seq<Byte>)
    returns (k: nat)
    requires IsRun(service, steps, states) && n <= |steps| && frame in states[n].responses
    ensures k < n && steps[k].SendResponse? && steps[k].published && frame == Frame(steps[k].id, steps[k].payload)
  {
    assert n > 0;
    if frame in states[n - 1].responses {
      k := ResponseOrigin(service, steps, states, n - 1, frame);
    } else {
      k := n - 1;
    }
  }

  /**
   Every reply that a client accepts answers a request of that same client: at
   earlier steps, in this order, the client sent a request with the identity
   the reply carries, a server took that request with the payload the client
   gave it, and that server sent the accepted payload as its answer.
   */
  lemma AcceptedReplyAnswersOwnRequest(service: Service, steps: seq<Step>, states: seq<State>, p: nat)
    returns (i: nat, j: nat, k: nat)
    requires IsRun(service, steps, states) && p < |steps| && steps[p].TakeResponse?
    ensures |steps[p].reply.Data()| > HEADER_SIZE
    ensures var id, answer := IdOf(steps[p].reply.Data()), steps[p].reply.Data()[HEADER_SIZE..];
            && i < j < k < p
            && steps[i].SendRequest? && steps[i].client == steps[p].client
            && Sends(service, steps, states, i, id, steps[i].payload)
            && steps[j].TakeRequest? && steps[j].reply.Sample()
            && steps[j].reply.Data() == Frame(id, steps[i].payload)
            && steps[i].published
            && steps[k].SendResponse? && steps[k].published && steps[k].server == steps[j].server
            && steps[k].id == id && steps[k].payload == answer
  {
    var client, frame := steps[p].client, steps[p].reply.Data();
    var id := IdOf(frame);
    assert id.guid == service.guids[client];
    k := ResponseOrigin(service, steps, states, p, frame);
    FrameRoundTrip(steps[k].id, steps[k].payload);
    j := TakenOrigin(service, steps, states, k, steps[k].server, id);
    i := RequestOrigin(service, steps, states, j, steps[j].reply.Data());
    ReframeRoundTrip(steps[j].reply.Data());
  }

  lemma {:induction false} NumbersGrow(
    service: Service, steps: seq<Step>, states: seq<State>, m: nat, n: nat, client: nat)
    requires IsRun(service, steps, states) && m <= n <= |steps| && client < |service.guids|
    ensures forall k | 0 <= k <= |steps| :: |states[k].numbered| == |service.guids|
    ensures states[m].numbered[client] <= states[n].numbered[client]
    decreases n - m
  {
    forall k | 0 <= k <= |steps| ensures |states[k].numbered| == |service.guids| {
      assert k > 0 ==> states[k] == Next(service, states[k - 1], steps[k - 1]);
    }
    if m < n {
      NumbersGrow(service, steps, states, m, n - 1, client);
      assert states[n] == Next(service, states[n - 1], steps[n - 1]);
    }
  }

  /** The numbers of two requests of a client are equal exactly when a multiple
      of 2^64 requests lies between them. */
  lemma EqualNumbers(a: nat, b: nat)
    ensures Number(a) == Number(b) <==> a % WORD == b % WORD
  {
  }

  /** Two requests of a client with fewer than 2^64 between them differ. */
  lemma LaterRequestDiffers(service: Service, steps: seq<Step>, states: seq<State>, i: nat, j: nat)
    requires IsRun(service, steps, states) && i < j < |steps|
    requires steps[i].SendRequest? && steps[j].SendRequest? && steps[i].client == steps[j].client
    requires steps[i].client < |states[|steps|].numbered| && states[|steps|].numbered[steps[i].client] <= WORD
    ensures NextId(service, states[i], steps[i].client) != NextId(service, states[j], steps[j].client)
  {
    var client := steps[i].client;
    NumbersGrow(service, steps, states, i + 1, j, client);
    NumbersGrow(service, steps, states, j + 1, |steps|, client);
    assert states[i + 1] == Next(service, states[i], steps[i]);
    assert states[j + 1] == Next(service, states[j], steps[j]);
    EqualNumbers(states[i].numbered[client], states[j].numbered[client]);
  }

  /**
   (GUID, sequence number) identifies one request, as long as no client numbers
   more than 2^64 of them.
   */
  lemma IdentifiesOneRequest(
    service: Service, steps: seq<Step>, states: seq<State>, i: nat, j: nat, id: RequestId,
    first: seq<Byte>, second: seq<Byte>)
    requires IsRun(service, steps, states)
    requires forall client | 0 <= client < |states[|steps|].numbered| :: states[|steps|].numbered[client] <= WORD
    requires Sends(service, steps, states, i, id, first) && Sends(service, steps, states, j, id, second)
    ensures i == j && first == second
  {
    assert steps[i].client == steps[j].client;
    NumbersGrow(service, steps, states, 0, 0, steps[i].client);
    if i < j {
      LaterRequestDiffers(service, steps, states, i, j);
    } else if j < i {
      LaterRequestDiffers(service, steps, states, j, i);
    }
  }
}
