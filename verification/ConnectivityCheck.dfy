/** Pings as requests: what one candidate pair sends, what it has unanswered, and which answers reach it. */
module ConnectivityChecks {
  import opened Octets
  import opened StunAttributes
  import opened StunFormat
  import opened Stun
  import opened StunTransaction
  import C = IceConnections

  /**
   * A pair with its pending requests. `ids` are the transaction ids of the unanswered pings, in the order of their
   * times in `pair`; `alive` ends when an error response destroys the pair.
   */
  datatype Checks = Checks(pair: C.Conn, ids: seq<seq<byte>>, pending: map<seq<byte>, Request>, alive: bool)

  const NEW_CHECKS := Checks(C.NEW_CONN, [], map[], true)

  /** A ping reads the clock again when its request is written, a response when it is recorded. */
  datatype CheckEvent =
    | Pinging(time: int, id: seq<byte>, sentAt: int)
    | Answered(time: int, id: seq<byte>, typ: uint16, heardAt: int)
    | Updating(time: int)

  function End(e: CheckEvent): int {
    match e
    case Pinging(_, _, sentAt) => sentAt
    case Answered(_, _, _, heardAt) => heardAt
    case Updating(now) => now
  }

  function Step(s: Checks, e: CheckEvent): Checks {
    if !s.alive then s
    else
      match e
      case Pinging(now, id, sentAt) =>
        s.(pair := C.Pinged(s.pair, now), ids := s.ids + [id],
           pending := s.pending[id := Request(id, BINDING_REQUEST, sentAt)])
      case Answered(now, id, typ, heardAt) => Settled(s, OutcomeOf(s.pending, id, typ), id, now, heardAt)
      case Updating(now) => s.(pair := C.Updated(s.pair, now))
  }

  /** A success is measured and recorded; an error carries no code the reader sees, so it destroys the pair. */
  function Settled(s: Checks, outcome: Outcome, id: seq<byte>, now: int, heardAt: int): Checks {
    var later := s.(pending := s.pending - {id});
    match outcome
    case Unmatched => s
    case Mistyped(_) => later
    case Failed(_) => later.(alive := false)
    case Succeeded(request) => later.(pair := C.Responded(s.pair, C.Narrow(now - request.sentAt), heardAt), ids := [])
  }

  function Run(events: seq<CheckEvent>): Checks {
    if events == [] then NEW_CHECKS else Step(Run(events[..|events| - 1]), events[|events| - 1])
  }

  function Latest(start: int, events: seq<CheckEvent>): int {
    if events == [] then start else End(events[|events| - 1])
  }

  /** The clock never steps back, and only binding responses are offered. */
  predicate Possible(start: int, events: seq<CheckEvent>)
    decreases |events|
  {
    events == [] ||
    (var before, e := events[..|events| - 1], events[|events| - 1];
     && Possible(start, before) && Latest(start, before) <= e.time <= End(e)
     && (e.Answered? ==> e.typ == BINDING_RESPONSE || e.typ == BINDING_ERROR_RESPONSE))
  }

  /** The same run as the pair alone sees it. */
  function PairEvents(events: seq<CheckEvent>): seq<C.Event> {
    if events == [] then []
    else
      var s, e := Run(events[..|events| - 1]), events[|events| - 1];
      PairEvents(events[..|events| - 1]) + PairEvent(s, e)
  }

  function PairEvent(s: Checks, e: CheckEvent): seq<C.Event> {
    if !s.alive then []
    else
      match e
      case Pinging(now, _, _) => [C.PingAt(now)]
      case Updating(now) => [C.UpdateAt(now)]
      case Answered(now, id, typ, heardAt) =>
        match OutcomeOf(s.pending, id, typ)
        case Succeeded(request) => [C.ResponseAt(heardAt, C.Narrow(now - request.sentAt))]
        case _ => []
  }

  // ---- What a history says, read off the events alone -------------------------------------------------

  /** The request with this id was sent and not answered since. */
  predicate Outstanding(events: seq<CheckEvent>, id: seq<byte>) {
    events != [] &&
    match events[|events| - 1]
    case Pinging(_, sent, _) => sent == id || Outstanding(events[..|events| - 1], id)
    case Answered(_, answered, _, _) => answered != id && Outstanding(events[..|events| - 1], id)
    case Updating(_) => Outstanding(events[..|events| - 1], id)
  }

  /** Some request was answered with an error. */
  predicate EverRefused(events: seq<CheckEvent>) {
    events != [] &&
    var before, e := events[..|events| - 1], events[|events| - 1];
    EverRefused(before) || (e.Answered? && e.typ == 0x0111 && Outstanding(before, e.id))
  }

  /** A pair lives until an error answers one of its requests; until then exactly the outstanding ones are pending. */
  lemma {:induction false} LivesUntilRefused(start: int, events: seq<CheckEvent>)
    requires 0 <= start && Possible(start, events)
    ensures Run(events).alive <==> !EverRefused(events)
    ensures Run(events).alive ==> forall id :: id in Run(events).pending <==> Outstanding(events, id)
  {
    hide C.Pinged, C.Updated, C.Responded, C.Run, C.Monotone, PairEvents, AwaitsAnswer;
    if events != [] {
      LivesUntilRefused(start, events[..|events| - 1]);
      RunIsSound(start, events[..|events| - 1]);
    }
  }

  // ---- Runs -------------------------------------------------------------------------------------------

  /**
   * What holds of a pair at every moment. Each unanswered ping has its pending request, written no earlier than the
   * ping and measured from then; so within a run of less than 2^31 ms, which the narrow measure can hold, an estimate
   * is never negative nor longer than the run.
   */
  predicate Sound(s: Checks, start: int, now: int) {
    && |s.ids| == |s.pair.pings|
    && (s.alive ==> forall i :: 0 <= i < |s.ids| ==> AwaitsAnswer(s, i))
    && (forall id :: id in s.pending ==>
          && s.pending[id].id == id && s.pending[id].typ == BINDING_REQUEST && start <= s.pending[id].sentAt <= now)
    && (now - start < 0x8000_0000 && s.pair.rttSamples > 0 ==> 0 <= s.pair.rtt <= now - start)
  }

  predicate AwaitsAnswer(s: Checks, i: nat)
    requires i < |s.ids| == |s.pair.pings|
  {
    s.ids[i] in s.pending && s.pair.pings[i] <= s.pending[s.ids[i]].sentAt
  }

  lemma {:induction false} StepKeepsSound(s: Checks, e: CheckEvent, start: int, now: int)
    requires Sound(s, start, now) && start <= now <= e.time <= End(e)
    requires e.Answered? ==> e.typ == BINDING_RESPONSE || e.typ == BINDING_ERROR_RESPONSE
    requires forall i :: 0 <= i < |s.pair.pings| ==> s.pair.pings[i] <= now
    ensures Sound(Step(s, e), start, End(e))
  {
    var after := Step(s, e);
    if after.alive && after.ids != [] {
      forall i | 0 <= i < |after.ids|
        ensures AwaitsAnswer(after, i)
      {
        assert i < |s.ids| ==> AwaitsAnswer(s, i);
      }
    }
  }

  lemma {:induction false} RunIsSound(start: int, events: seq<CheckEvent>)
    requires 0 <= start && Possible(start, events)
    ensures Sound(Run(events), start, Latest(start, events)) && start <= Latest(start, events)
    ensures Run(events).pair == C.Run(C.NEW_CONN, PairEvents(events))
    ensures C.Monotone(0, PairEvents(events)) && C.Latest(0, PairEvents(events)) <= Latest(start, events)
  {
    if events != [] {
      var before, e := events[..|events| - 1], events[|events| - 1];
      RunIsSound(start, before);
      C.RunIsConsistent(PairEvents(before));
      StepKeepsSound(Run(before), e, start, Latest(start, before));
      Prolonged(Run(before), e, PairEvents(before), start, Latest(start, before));
    }
  }

  lemma Prolonged(s: Checks, e: CheckEvent, seen: seq<C.Event>, start: int, now: int)
    requires s.pair == C.Run(C.NEW_CONN, seen) && C.Monotone(0, seen) && C.Latest(0, seen) <= now
    requires 0 <= start <= now <= e.time <= End(e)
    ensures var more := seen + PairEvent(s, e);
            && Step(s, e).pair == C.Run(C.NEW_CONN, more)
            && C.Monotone(0, more) && C.Latest(0, more) <= End(e)
  {
    hide C.Pinged, C.Updated, C.Responded, OutcomeOf;
    if PairEvent(s, e) == [] {
      AppendNothing(seen);
    } else {
      OneMore(seen, PairEvent(s, e)[0]);
    }
  }

  lemma OneMore(seen: seq<C.Event>, e: C.Event)
    requires C.Monotone(0, seen) && C.Latest(0, seen) <= e.time
    ensures var more := seen + [e];
            && C.Run(C.NEW_CONN, more) == C.Step(C.Run(C.NEW_CONN, seen), e)
            && C.Monotone(0, more) && C.Latest(0, more) == e.time
  {
    hide C.Step;
    assert (seen + [e])[..|seen|] == seen;
    assert seen != [] ==> forall i :: 0 <= i < |seen| ==> seen[i].time <= seen[|seen| - 1].time;
  }

  /** When the latest request with an id was written, read off the events alone. */
  function LatestSending(events: seq<CheckEvent>, id: seq<byte>): Option<int> {
    if events == [] then None
    else
      var last := events[|events| - 1];
      if last.Pinging? && last.id == id then Some(last.sentAt) else LatestSending(events[..|events| - 1], id)
  }

  /** A pending request is always the latest with its id. */
  lemma {:induction false} PendingIsLatest(start: int, events: seq<CheckEvent>, id: seq<byte>)
    requires 0 <= start && Possible(start, events)
    ensures Run(events).alive && id in Run(events).pending ==>
              LatestSending(events, id) == Some(Run(events).pending[id].sentAt)
  {
    if events != [] {
      PendingIsLatest(start, events[..|events| - 1], id);
    }
  }

  /**
   * The peer's answer to any unanswered ping of a living pair, however late and whatever happened since: it is taken
   * for a response, makes the pair writable, leaves nothing unanswered, and its sample is measured from when the latest
   * request with its id was written. The same answer again changes nothing.
   */
  lemma AnyAnswerCounts(start: int, events: seq<CheckEvent>, i: nat, data: seq<byte>, now: int, heardAt: int,
                        again: CheckEvent, address: Address, own: IceParameters, remote: IceParameters,
                        hmac: HmacSha1, crc: Crc32)
    requires 0 <= start && Possible(start, events) && Run(events).alive && i < |Run(events).ids|
    requires |Run(events).ids[i]| == TRANSACTION_ID_LENGTH && address.Inet4?
    requires again.Answered? && again.id == Run(events).ids[i] && Latest(start, events) <= now
    ensures i < |Run(events).pair.pings| && Run(events).ids[i] in Run(events).pending
    ensures Some(Run(events).pending[Run(events).ids[i]].sentAt) == LatestSending(events, Run(events).ids[i])
    ensures Encode(SuccessResponse(Run(events).ids[i], address, remote.pwd, hmac, crc)) == Some(data) ==>
            var s, action := Run(events), ActionFor(data, own, remote, hmac, crc);
            && action.Settle?
            && var after := Step(s, Answered(now, action.response.transactionId, action.response.typ, heardAt));
               var sample := C.Narrow(now - s.pending[s.ids[i]].sentAt);
            && after == Checks(C.Responded(s.pair, sample, heardAt), [], s.pending - {s.ids[i]}, true)
            && after.pair.writeState == C.Writable && sample <= now - s.pair.pings[i]
            && Step(after, again) == after
  {
    hide *;
    RunIsSound(start, events);
    PendingIsLatest(start, events, Run(events).ids[i]);
    if Encode(SuccessResponse(Run(events).ids[i], address, remote.pwd, hmac, crc)) == Some(data) {
      AnswerIsTaken(Run(events).ids[i], data, address, own, remote, hmac, crc);
    }
    SuccessSettles(Run(events), start, Latest(start, events), i, now, heardAt, again);
  }

  /** An answer in the peer's name is a response with that id. */
  lemma AnswerIsTaken(id: seq<byte>, data: seq<byte>, address: Address, own: IceParameters, remote: IceParameters,
                      hmac: HmacSha1, crc: Crc32)
    requires |id| == TRANSACTION_ID_LENGTH && address.Inet4?
    requires Encode(SuccessResponse(id, address, remote.pwd, hmac, crc)) == Some(data)
    ensures var action := ActionFor(data, own, remote, hmac, crc);
            action.Settle? && action.response.transactionId == id && action.response.typ == BINDING_RESPONSE
  {
    hide SuccessResponse, Encode, StunInputOf, SignedPartOfResponse, IntegrityHolds;
    ResponseAtSender(id, address, remote.pwd, remote.pwd, own, hmac, crc);
  }

  lemma SuccessSettles(s: Checks, start: int, last: int, i: nat, now: int, heardAt: int, again: CheckEvent)
    requires Sound(s, start, last) && s.alive && i < |s.ids| && again.Answered? && again.id == s.ids[i] && last <= now
    ensures i < |s.pair.pings| && s.ids[i] in s.pending
    ensures var after := Step(s, Answered(now, s.ids[i], BINDING_RESPONSE, heardAt));
            var sample := C.Narrow(now - s.pending[s.ids[i]].sentAt);
            && after == Checks(C.Responded(s.pair, sample, heardAt), [], s.pending - {s.ids[i]}, true)
            && after.pair.writeState == C.Writable && sample <= now - s.pair.pings[i]
            && Step(after, again) == after
  {
    assert AwaitsAnswer(s, i);
  }

  /** What a datagram makes its receiver send: the answer, or the refusal with its code. */
  function Reply(data: seq<byte>, action: PacketAction, own: IceParameters, address: Address, hmac: HmacSha1,
                 crc: Crc32): Option<seq<byte>>
  {
    match action
    case Answer(m) =>
      if FindAttribute(m.attrs, ATTR_USERNAME) == None then None
      else Encode(SuccessResponse(m.transactionId, address, own.pwd, hmac, crc))
    case Unauthorized(id) => Encode(ErrorResponse(id, ERROR_UNAUTHORIZED, REASON_UNAUTHORIZED, own.pwd, hmac, crc))
    case _ =>
      match StunInputOf(data, own, hmac, crc)
      case Refused(code, id) => Encode(ErrorResponse(id, code, ReasonFor(code), own.pwd, hmac, crc))
      case _ => None
  }

  lemma SettledIsResponse(data: seq<byte>, own: IceParameters, remote: IceParameters, hmac: HmacSha1, crc: Crc32)
    ensures var action := ActionFor(data, own, remote, hmac, crc);
            action.Settle? ==> action.response.typ == BINDING_RESPONSE || action.response.typ == BINDING_ERROR_RESPONSE
  {
    hide StunInputOf, IntegrityHolds;
  }

  /** `prepare` and the writing of a request. */
  method RequestFor(remote: IceParameters, localPriority: uint32, id: seq<byte>, localUfrag: seq<byte>, hmac: HmacSha1,
                    crc: Crc32) returns (sent: Option<seq<byte>>)
    ensures sent == Encode(BindingRequest(id, remote, localUfrag, localPriority, hmac, crc))
  {
    hide BindingRequest, Encode;
    var msg := new StunMessage();
    msg.transactionId := id;
    assert msg.Value() == Fresh(0, id);
    Prepare(msg, remote, localUfrag, localPriority, hmac, crc);
    sent := msg.Write();
  }

  /** What `on_read_packet` decides and sends. */
  method React(data: seq<byte>, port: UdpPort, remote: IceParameters, address: Address, hmac: HmacSha1, crc: Crc32)
    returns (action: PacketAction, sent: Option<seq<byte>>)
    ensures action == ActionFor(data, port.ice, remote, hmac, crc)
    ensures sent == Reply(data, action, port.ice, address, hmac, crc)
  {
    hide StunInputOf, SuccessResponse, ErrorResponse, Encode, FindAttribute, IntegrityHolds;
    var input;
    input, sent := port.GetStunMessage(data, hmac, crc);
    match input {
      case NotStun => action := PassOn;
      case Refused(_, _) => action := Drop;
      case Accepted(m, ufrag) =>
        if m.typ == BINDING_REQUEST {
          if ufrag != remote.ufrag {
            action := Unauthorized(m.transactionId);
            var id := m.transactionId;
            sent := port.SendBindingErrorResponse(id, ERROR_UNAUTHORIZED, REASON_UNAUTHORIZED, hmac, crc);
          } else {
            action := Answer(m);
            sent := AnswerRequest(m, address, port.ice.pwd, hmac, crc);
          }
        } else if m.typ == BINDING_RESPONSE || m.typ == BINDING_ERROR_RESPONSE {
          var response := Validated(m, remote.pwd, hmac);
          action := if response.integrity == IntegrityOk then Settle(response) else Drop;
        } else {
          action := Drop;
        }
    }
  }

  // ---- The object -------------------------------------------------------------------------------------

  /** A pair together with its request manager; the reactions of its channel are those of the transport channel. */
  class ConnectivityCheck {
    const pair: C.IceConnection
    const requests: StunRequestManager
    var ids: seq<seq<byte>>
    var alive: bool

    constructor (pair: C.IceConnection)
      ensures this.pair == pair && fresh(requests)
      ensures Value() == Checks(pair.Value(), [], map[], true) && requests.Valid()
    {
      this.pair := pair;
      requests := new StunRequestManager();
      ids, alive := [], true;
    }

    function Value(): Checks
      reads this, pair, requests
    {
      Checks(pair.Value(), ids, requests.requests, alive)
    }

    /** The ping is recorded, its request stored and written: what goes out is the binding request of that id. */
    method Ping(now: int, id: seq<byte>, sentAt: int, remote: IceParameters, localUfrag: seq<byte>,
                hmac: HmacSha1, crc: Crc32)
      returns (sent: Option<seq<byte>>)
      requires alive && requests.Valid()
      modifies this, pair, requests
      ensures Value() == Step(old(Value()), Pinging(now, id, sentAt)) && requests.Valid()
      ensures sent == Encode(BindingRequest(id, remote, localUfrag, pair.localPriority, hmac, crc))
    {
      hide BindingRequest, Encode;
      pair.Ping(now);
      ids := ids + [id];
      requests.Send(Request(id, BINDING_REQUEST, sentAt));
      sent := RequestFor(remote, pair.localPriority, id, localUfrag, hmac, crc);
    }

    /** `received_ping_response`. */
    method ReceivedPingResponse(sample: int, now: int)
      modifies this`ids, pair
      ensures pair.Value() == C.Responded(old(pair.Value()), sample, now) && ids == []
    {
      pair.RecordResponse(sample, now);
      ids := [];
      var hears := pair.FindsReceiving(now);
      pair.SetReceiving(hears);
      pair.SetWriteState(C.Writable);
    }

    /** A datagram of this pair: passed on, dropped, refused, answered, or taken as the answer to a ping. */
    method OnReadPacket(data: seq<byte>, port: UdpPort, remote: IceParameters, address: Address, now: int, heardAt: int,
                        hmac: HmacSha1, crc: Crc32)
      returns (action: PacketAction, sent: Option<seq<byte>>)
      requires alive && requests.Valid()
      modifies this, pair, requests
      ensures requests.Valid() && action == ActionFor(data, port.ice, remote, hmac, crc)
      ensures action.Settle? ==>
                var m := action.response;
                Value() == Step(old(Value()), Answered(now, m.transactionId, m.typ, heardAt))
      ensures !action.Settle? ==> Value() == old(Value())
      ensures sent == Reply(data, action, port.ice, address, hmac, crc)
    {
      hide ActionFor, Reply, C.Responded;
      action, sent := React(data, port, remote, address, hmac, crc);
      if action.Settle? {
        CheckResponse(action.response, now, heardAt);
      }
    }

    /** The callback of the request the response settles. */
    method CheckResponse(response: Message, now: int, heardAt: int)
      requires alive && requests.Valid()
      modifies this, pair, requests
      ensures requests.Valid()
      ensures Value() == Step(old(Value()), Answered(now, response.transactionId, response.typ, heardAt))
    {
      hide C.Responded;
      var outcome := requests.CheckResponse(response);
      match outcome {
        case Succeeded(request) => ReceivedPingResponse(C.Narrow(now - request.sentAt), heardAt);
        case Failed(_) => alive := false;
        case _ =>
      }
    }
  }
}
