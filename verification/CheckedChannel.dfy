/** A transport channel with the requests of its pairs: pings go out as requests, answers come back as datagrams. */
module CheckedChannels {
  import opened Octets
  import opened StunAttributes
  import opened StunFormat
  import opened Stun
  import opened Priorities
  import opened StunTransaction
  import opened ConnectivityChecks
  import C = IceConnections
  import P = PingScheduling
  import S = Selection
  import T = IceTransportChannels
  import opened IceControllers

  /** What holds of every living pair of a channel: its own history and that of its requests. */
  predicate Good(s: Checks, now: int) {
    0 <= now && s.alive && Sound(s, 0, now) && C.Consistent(s.pair, now)
  }

  lemma GoodLasts(s: Checks, now: int, later: int)
    requires Good(s, now) && now <= later
    ensures Good(s, later)
  {
    forall i | 0 <= i < |s.ids|
      ensures AwaitsAnswer(s, i)
    {
    }
  }

  /** The event as the pair alone sees it; a request's second clock reading is not part of it. */
  lemma GoodSteps(s: Checks, now: int, e: CheckEvent)
    requires Good(s, now) && now <= e.time <= End(e)
    requires e.Answered? ==> e.typ == BINDING_RESPONSE || e.typ == BINDING_ERROR_RESPONSE
    ensures Step(s, e).alive ==> Good(Step(s, e), End(e))
  {
    StepKeepsSound(s, e, 0, now);
    if Step(s, e).alive {
      match e
      case Pinging(time, _, _) =>
        C.StepKeepsConsistent(s.pair, now, C.PingAt(time));
      case Updating(time) => C.StepKeepsConsistent(s.pair, now, C.UpdateAt(time));
      case Answered(time, id, typ, heardAt) =>
        if OutcomeOf(s.pending, id, typ).Succeeded? {
          var sample := C.Narrow(time - s.pending[id].sentAt);
          C.StepKeepsConsistent(s.pair, now, C.ResponseAt(heardAt, sample));
        }
    }
  }

  // ---- All pairs of a channel ---------------------------------------------------------------------------

  predicate AllGood<K>(all: map<K, Checks>, now: int) {
    forall c :: c in all ==> Good(all[c], now)
  }

  function PingedIf(s: Checks, pinged: bool, updateTime: int, pingTime: int): Checks {
    var updated := s.(pair := C.Updated(s.pair, updateTime));
    if pinged then updated.(pair := C.Pinged(updated.pair, pingTime)) else updated
  }

  function RequestedIf(s: Checks, pinged: bool, id: seq<byte>, sentAt: int): Checks {
    if pinged then s.(ids := s.ids + [id], pending := s.pending[id := Request(id, BINDING_REQUEST, sentAt)]) else s
  }

  /** A tick as one pair and its requests see it. */
  function AfterTick(s: Checks, pinged: bool, updateTime: int, pingTime: int, id: seq<byte>, sentAt: int): Checks {
    var updated := Step(s, Updating(updateTime));
    if pinged then Step(updated, Pinging(pingTime, id, sentAt)) else updated
  }

  function AllPinged<K>(all: map<K, Checks>, found: Option<K>, updateTime: int, pingTime: int): map<K, Checks> {
    map c | c in all :: PingedIf(all[c], found == Some(c), updateTime, pingTime)
  }

  function AllRequested<K>(all: map<K, Checks>, found: Option<K>, id: seq<byte>, sentAt: int): map<K, Checks> {
    map c | c in all :: RequestedIf(all[c], found == Some(c), id, sentAt)
  }

  /** Every pair is updated; the one found is pinged with a new request. */
  function AllAfterTick<K>(all: map<K, Checks>, found: Option<K>, updateTime: int, pingTime: int, id: seq<byte>,
                           sentAt: int): map<K, Checks> {
    map c | c in all :: AfterTick(all[c], found == Some(c), updateTime, pingTime, id, sentAt)
  }

  lemma TickIsGood(s: Checks, now: int, pinged: bool, updateTime: int, pingTime: int, id: seq<byte>, sentAt: int)
    requires Good(s, now) && now <= updateTime <= pingTime <= sentAt
    ensures Good(AfterTick(s, pinged, updateTime, pingTime, id, sentAt), sentAt)
    ensures AfterTick(s, pinged, updateTime, pingTime, id, sentAt) ==
            RequestedIf(PingedIf(s, pinged, updateTime, pingTime), pinged, id, sentAt)
  {
    hide Sound, C.Consistent, C.Updated, C.Pinged;
    GoodSteps(s, now, Updating(updateTime));
    var updated := Step(s, Updating(updateTime));
    if pinged {
      GoodSteps(updated, updateTime, Pinging(pingTime, id, sentAt));
    } else {
      GoodLasts(updated, updateTime, sentAt);
    }
  }

  lemma TickKeepsAllGood<K>(all: map<K, Checks>, now: int, found: Option<K>, updateTime: int, pingTime: int,
                            id: seq<byte>, sentAt: int)
    requires AllGood(all, now) && now <= updateTime <= pingTime <= sentAt
    ensures AllGood(AllAfterTick(all, found, updateTime, pingTime, id, sentAt), sentAt)
    ensures AllAfterTick(all, found, updateTime, pingTime, id, sentAt) ==
            AllRequested(AllPinged(all, found, updateTime, pingTime), found, id, sentAt)
  {
    hide Good, AfterTick, PingedIf, RequestedIf;
    forall c | c in all
      ensures Good(AfterTick(all[c], found == Some(c), updateTime, pingTime, id, sentAt), sentAt)
      ensures AfterTick(all[c], found == Some(c), updateTime, pingTime, id, sentAt) ==
              RequestedIf(PingedIf(all[c], found == Some(c), updateTime, pingTime), found == Some(c), id, sentAt)
    {
      TickIsGood(all[c], now, found == Some(c), updateTime, pingTime, id, sentAt);
    }
  }

  /** The answer to one pair; an error response ends the pair. */
  function AllAfterAnswer<K>(all: map<K, Checks>, c: K, answer: CheckEvent): map<K, Checks>
    requires c in all
  {
    if Step(all[c], answer).alive then all[c := Step(all[c], answer)] else all - {c}
  }

  lemma AnswerKeepsAllGood<K>(all: map<K, Checks>, now: int, c: K, answer: CheckEvent)
    requires AllGood(all, now) && c in all && answer.Answered? && now <= answer.time <= answer.heardAt
    requires answer.typ == BINDING_RESPONSE || answer.typ == BINDING_ERROR_RESPONSE
    ensures AllGood(AllAfterAnswer(all, c, answer), answer.heardAt)
  {
    hide Good;
    GoodSteps(all[c], now, answer);
    hide Step;
    forall d | d in all
      ensures Good(all[d], answer.heardAt)
    {
      GoodLasts(all[d], now, answer.heardAt);
    }
  }

  lemma NewcomerIsGood<K>(all: map<K, Checks>, now: int, later: int, c: Option<K>)
    requires AllGood(all, now) && 0 <= now <= later
    ensures AllGood(if c.Some? then all[c.value := NEW_CHECKS] else all, later)
  {
    assert Good(NEW_CHECKS, later);
    hide Good;
    AllGoodLasts(all, now, later);
  }

  lemma RestIsGood<K>(all: map<K, Checks>, now: int, later: int, c: K)
    requires AllGood(all, now) && now <= later
    ensures AllGood(all - {c}, later)
  {
    AllGoodLasts(all, now, later);
  }

  lemma AllGoodLasts<K>(all: map<K, Checks>, now: int, later: int)
    requires AllGood(all, now) && now <= later
    ensures AllGood(all, later)
  {
    hide Good;
    forall d | d in all
      ensures Good(all[d], later)
    {
      GoodLasts(all[d], now, later);
    }
  }

  /** What the callback leaves, by the outcome. */
  lemma AnswerMeans<K>(all: map<K, Checks>, now: int, c: K, answer: CheckEvent)
    requires AllGood(all, now) && c in all && answer.Answered?
    requires answer.typ == BINDING_RESPONSE || answer.typ == BINDING_ERROR_RESPONSE
    ensures var s := all[c];
            match OutcomeOf(s.pending, answer.id, answer.typ)
            case Succeeded(request) =>
              AllAfterAnswer(all, c, answer) ==
              all[c := Checks(C.Responded(s.pair, C.Narrow(answer.time - request.sentAt), answer.heardAt), [],
                              s.pending - {answer.id}, true)]
            case Failed(_) => AllAfterAnswer(all, c, answer) == all - {c}
            case Mistyped(_) => false
            case Unmatched => AllAfterAnswer(all, c, answer) == all
  {
    assert Good(all[c], now);
    hide C.Responded, C.Consistent;
  }

  /** The priority a request advertises. */
  function PriorityOf(m: Message): Option<uint32> {
    match FindAttribute(m.attrs, ATTR_PRIORITY)
    case Some(UInt32(_, bits)) => Some(bits)
    case _ => None
  }

  /** What goes back to an address without a pair. */
  function FirstReply(input: StunInput, own: IceParameters, address: Address, hmac: HmacSha1, crc: Crc32)
    : Option<seq<byte>>
  {
    match input
    case NotStun => None
    case Refused(code, id) => Encode(ErrorResponse(id, code, ReasonFor(code), own.pwd, hmac, crc))
    case Accepted(m, _) =>
      if m.typ != BINDING_REQUEST || PriorityOf(m).None? || FindAttribute(m.attrs, ATTR_USERNAME) == None then None
      else Encode(SuccessResponse(m.transactionId, address, own.pwd, hmac, crc))
  }

  /** A prepared request for this port introduces its sender: its priority is read and the answer goes out. */
  lemma RequestIntroduces(transactionId: seq<byte>, own: IceParameters, localUfrag: seq<byte>, localPriority: uint32,
                          address: Address, hmac: HmacSha1, crc: Crc32)
    requires |transactionId| == TRANSACTION_ID_LENGTH && |own.ufrag| + |localUfrag| < 65472
    requires COLON !in own.ufrag && COLON !in localUfrag
    ensures var request := BindingRequest(transactionId, own, localUfrag, localPriority, hmac, crc);
            && Encode(request).Some?
            && var input := StunInputOf(Encode(request).value, own, hmac, crc);
            && input.Accepted? && input.remoteUfrag == localUfrag
            && PriorityOf(input.message) == Some(AdvertisedPriority(localPriority))
            && FirstReply(input, own, address, hmac, crc) ==
               Encode(SuccessResponse(transactionId, address, own.pwd, hmac, crc))
  {
    hide BindingRequest, Encode, StunInputOf, FindAttribute, SignedPart, SuccessResponse, AdvertisedPriority;
    RequestAtPort(transactionId, own, localUfrag, localPriority, own, hmac, crc);
  }

  // ---- The object -------------------------------------------------------------------------------------

  /** What a connection keeps beside its measurements: the ids of its unanswered pings and its pending requests. */
  datatype Requests = Requests(ids: seq<seq<byte>>, pending: map<seq<byte>, Request>)

  class CheckedChannel {
    const channel: T.IceTransportChannel
    var requests: map<C.IceConnection, Requests>
    ghost var clock: int

    constructor ()
      ensures Valid() && fresh(channel) && fresh(channel.controller) && requests == map[] && clock == 0
    {
      channel := new T.IceTransportChannel();
      requests, clock := map[], 0;
    }

    /** The connections with their requests, as values. */
    ghost function AllChecks(): map<C.IceConnection, Checks>
      reads `requests, requests.Keys
    {
      map c | c in requests :: Checks(c.Value(), requests[c].ids, requests[c].pending, true)
    }

    lemma ChecksAre(all: map<C.IceConnection, Checks>)
      requires all.Keys == requests.Keys
      requires forall c :: c in requests ==>
                 all[c] == Checks(c.Value(), requests[c].ids, requests[c].pending, true)
      ensures AllChecks() == all
    {
    }

    lemma CheckIs(c: C.IceConnection)
      requires c in requests
      ensures c in AllChecks()
      ensures AllChecks()[c] == Checks(c.Value(), requests[c].ids, requests[c].pending, true)
    {
    }

    ghost predicate Valid()
      reads this, channel, channel.selected, channel.controller, channel.controller.connections, requests.Keys
    {
      0 <= clock && channel.Healthy() && requests.Keys == channel.controller.Members() && AllGood(AllChecks(), clock)
    }

    /** The credentials of a connection's peer, as bytes. */
    function Remote(c: C.IceConnection): IceParameters
      reads c`remotePwd
    {
      IceParameters(Bytes(c.remoteUfrag), Bytes(c.remotePwd))
    }

    /** The request of the pair that was pinged, if any. */
    method SendRequest(found: C.IceConnection?, id: seq<byte>, sentAt: int, localUfrag: seq<byte>, hmac: HmacSha1,
                       crc: Crc32)
      returns (sent: Option<seq<byte>>)
      requires found != null ==> found in requests
      modifies `requests
      ensures channel.Healthy() == old(channel.Healthy()) && channel.Live() == old(channel.Live())
      ensures channel.Watched() == old(channel.Watched())
      ensures requests.Keys == old(requests).Keys
      ensures AllChecks() == AllRequested(old(AllChecks()), ToOption(found), id, sentAt)
      ensures sent == if found == null then None
                      else Encode(BindingRequest(id, Remote(found), localUfrag, found.localPriority, hmac, crc))
    {
      hide BindingRequest, Encode;
      hide T.IceTransportChannel.Healthy, T.IceTransportChannel.Live, T.IceTransportChannel.Watched;
      sent := None;
      if found != null {
        sent := RequestFor(Remote(found), found.localPriority, id, localUfrag, hmac, crc);
        var before := requests[found];
        requests := requests[found := Requests(before.ids + [id],
                                               before.pending[id := Request(id, BINDING_REQUEST, sentAt)])];
      }
    }

    method TickConnections(updateTime: int, now: int, pingTime: int)
      returns (found: C.IceConnection?, ghost step: Option<P.Event<C.IceConnection>>)
      requires channel.Healthy() && channel.Live() && requests.Keys == channel.controller.Members()
      requires updateTime <= now <= pingTime
      modifies channel, channel.controller,
        requests.Keys`writeState, requests.Keys`receiving, requests.Keys`lastPingSent, requests.Keys`pings,
        requests.Keys`numPings
      ensures channel.Healthy() && channel.Live() && requests.Keys == channel.controller.Members()
      ensures T.Ticked(old(channel.Watched()), channel.Watched(), now, pingTime, ToOption(found), step)
      ensures found != null ==> found in requests
      ensures forall c :: c in requests ==>
                c.Value() == if c == found then C.Pinged(C.Updated(old(c.Value()), updateTime), pingTime)
                             else C.Updated(old(c.Value()), updateTime)
    {
      hide C.Updated, C.Pinged, T.Ticked;
      hide T.IceTransportChannel.Live, T.IceTransportChannel.Watched;
      hide T.IceTransportChannel.Healthy, T.IceTransportChannel.Progress, T.IceTransportChannel.Keeps;
      hide IceController.Members, IceController.Schedule, IceController.Pingable;
      channel.ScheduleIsMembers();
      ghost var w := channel.Watched();
      found, step := channel.OnCheckAndPing(updateTime, now, pingTime);
      T.FoundIsKnown(w, channel.Watched(), now, pingTime, ToOption(found), step);
    }

    method TickPairs(updateTime: int, now: int, pingTime: int)
      returns (found: C.IceConnection?, ghost step: Option<P.Event<C.IceConnection>>)
      requires channel.Healthy() && channel.Live() && requests.Keys == channel.controller.Members()
      requires updateTime <= now <= pingTime
      modifies channel, channel.controller,
        requests.Keys`writeState, requests.Keys`receiving, requests.Keys`lastPingSent, requests.Keys`pings,
        requests.Keys`numPings
      ensures channel.Healthy() && channel.Live() && requests.Keys == channel.controller.Members()
      ensures T.Ticked(old(channel.Watched()), channel.Watched(), now, pingTime, ToOption(found), step)
      ensures found != null ==> found in requests
      ensures AllChecks() == AllPinged(old(AllChecks()), ToOption(found), updateTime, pingTime)
    {
      hide C.Updated, C.Pinged, T.Ticked;
      hide T.IceTransportChannel.Live, T.IceTransportChannel.Watched, T.IceTransportChannel.Healthy;
      hide IceController.Members;
      ghost var before := AllChecks();
      found, step := TickConnections(updateTime, now, pingTime);
      ChecksAre(AllPinged(before, ToOption(found), updateTime, pingTime));
    }

    /**
     * The timer. Every pair is updated; the one pinged, if any, has the new id among its unanswered pings and a pending
     * request under it, and what goes out is the binding request of that id.
     */
    method OnCheckAndPing(updateTime: int, now: int, pingTime: int, id: seq<byte>, sentAt: int, localUfrag: seq<byte>,
                          hmac: HmacSha1, crc: Crc32)
      returns (found: C.IceConnection?, sent: Option<seq<byte>>, ghost step: Option<P.Event<C.IceConnection>>)
      requires Valid() && channel.Live() && clock <= updateTime <= now <= pingTime <= sentAt
      modifies `requests, `clock, channel, channel.controller,
        requests.Keys`writeState, requests.Keys`receiving, requests.Keys`lastPingSent, requests.Keys`pings,
        requests.Keys`numPings
      ensures Valid() && channel.Live() && clock == sentAt
      ensures T.Ticked(old(channel.Watched()), channel.Watched(), now, pingTime, ToOption(found), step)
      ensures AllChecks() == AllAfterTick(old(AllChecks()), ToOption(found), updateTime, pingTime, id, sentAt)
      ensures sent == if found == null then None
                      else Encode(BindingRequest(id, Remote(found), localUfrag, found.localPriority, hmac, crc))
    {
      hide BindingRequest, Encode, T.Ticked, C.Updated, C.Pinged;
      hide AllRequested, AllPinged, AllAfterTick, AllGood, AllChecks;
      hide T.IceTransportChannel.Healthy, T.IceTransportChannel.Live, T.IceTransportChannel.Watched;
      hide IceController.Members;
      ghost var before := AllChecks();
      found, step := TickPairs(updateTime, now, pingTime);
      sent := SendRequest(found, id, sentAt, localUfrag, hmac, crc);
      TickKeepsAllGood(before, clock, ToOption(found), updateTime, pingTime, id, sentAt);
      clock := sentAt;
    }

    method PassRemoteParams(ufrag: string, pwd: string, now: int)
      requires channel.Healthy() && requests.Keys == channel.controller.Members()
      modifies channel, channel.controller, requests.Keys`remotePwd
      ensures channel.Healthy() && requests.Keys == channel.controller.Members()
      ensures forall c :: c in requests ==> c.Value() == old(c.Value())
      ensures forall c :: c in requests ==>
                c.remotePwd == if c.remoteUfrag == ufrag && old(c.remotePwd) == "" then pwd else old(c.remotePwd)
    {
      hide T.IceTransportChannel.Healthy, T.IceTransportChannel.Progress, T.IceTransportChannel.Keeps;
      hide IceController.Schedule, IceController.Pingable;
      hide IceController.Members;
      channel.SetRemoteIceParams(ufrag, pwd, now);
    }

    /** New remote parameters reach the pairs; their requests are not concerned. */
    method SetRemoteIceParams(ufrag: string, pwd: string, now: int)
      requires Valid() && clock <= now
      modifies `clock, channel, channel.controller, requests.Keys`remotePwd
      ensures Valid() && clock == now && AllChecks() == old(AllChecks())
      ensures forall c :: c in requests ==>
                c.remotePwd == if c.remoteUfrag == ufrag && old(c.remotePwd) == "" then pwd else old(c.remotePwd)
    {
      hide AllGood, IceController.Members, T.IceTransportChannel.Healthy;
      ghost var before := AllChecks();
      PassRemoteParams(ufrag, pwd, now);
      assert AllChecks() == before;
      hide AllChecks;
      AllGoodLasts(before, clock, now);
      clock := now;
    }

    /** The pair made for the sender of a request, with the password known so far. */
    predicate IsPeer(c: C.IceConnection, localPriority: uint32, priority: Option<uint32>, remoteUfrag: string)
      reads c`remotePwd, channel`remotePwd
    {
      && c.localPriority == localPriority && Some(c.remotePriority) == priority
      && c.remoteUfrag == remoteUfrag && c.remotePwd == channel.remotePwd
    }

    method CreatePair(localPriority: uint32, priority: Option<uint32>, remoteUfrag: string, now: int)
      returns (c: C.IceConnection?)
      requires channel.Healthy() && requests.Keys == channel.controller.Members()
      modifies channel, channel.controller
      ensures channel.remotePwd == old(channel.remotePwd)
      ensures channel.Healthy() && (c == null <==> priority.None?)
      ensures channel.controller.Members() == requests.Keys + if c == null then {} else {c}
      ensures c != null ==> fresh(c) && c !in requests && c.Value() == C.NEW_CONN && IsPeer(c, localPriority, priority,
                                                                                      remoteUfrag)
      ensures AllChecks() == old(AllChecks())
    {
      hide T.IceTransportChannel.Healthy, T.IceTransportChannel.Progress, T.IceTransportChannel.Keeps;
      hide IceController.Schedule, IceController.Pingable, P.Added, T.IceTransportChannel.Current;
      hide IceController.Members;
      c := channel.OnUnknownAddress(localPriority, priority, remoteUfrag, now);
    }

    /** A new pair starts with nothing unanswered. */
    method OnUnknownAddress(localPriority: uint32, priority: Option<uint32>, remoteUfrag: string, now: int)
      returns (c: C.IceConnection?)
      requires Valid() && clock <= now
      modifies `requests, `clock, channel, channel.controller
      ensures Valid() && clock == now && (c == null <==> priority.None?)
      ensures c == null ==> AllChecks() == old(AllChecks())
      ensures c != null ==> fresh(c) && AllChecks() == old(AllChecks())[c := NEW_CHECKS]
      ensures c != null ==> IsPeer(c, localPriority, priority, remoteUfrag)
    {
      hide AllGood, AllChecks, T.IceTransportChannel.Healthy, IceController.Members;
      ghost var before := AllChecks();
      c := CreatePair(localPriority, priority, remoteUfrag, now);
      if c != null {
        Register(c);
      }
      NewcomerIsGood(before, clock, now, ToOption(c));
      clock := now;
    }

    method Register(c: C.IceConnection)
      requires c !in requests && c.Value() == C.NEW_CONN
      modifies `requests
      ensures requests.Keys == old(requests.Keys) + {c} && AllChecks() == old(AllChecks())[c := NEW_CHECKS]
    {
      requests := requests[c := Requests([], map[])];
    }

    /**
     * A datagram from an address without a pair. A request that the port accepts and that has a priority makes the pair
     * and is answered; a refused one gets its error response; anything else is ignored.
     */
    method OnFirstPacket(data: seq<byte>, port: UdpPort, localPriority: uint32, address: Address, now: int,
                         hmac: HmacSha1, crc: Crc32)
      returns (c: C.IceConnection?, sent: Option<seq<byte>>)
      requires Valid() && clock <= now
      modifies `requests, `clock, channel, channel.controller
      ensures Valid()
      ensures var input := StunInputOf(data, port.ice, hmac, crc);
              && (c != null <==>
                    input.Accepted? && input.message.typ == BINDING_REQUEST && PriorityOf(input.message).Some?)
              && (c == null ==> AllChecks() == old(AllChecks()))
              && (c != null ==>
                    && fresh(c) && AllChecks() == old(AllChecks())[c := NEW_CHECKS]
                    && IsPeer(c, localPriority, PriorityOf(input.message), Chars(input.remoteUfrag)))
              && sent == FirstReply(input, port.ice, address, hmac, crc)
    {
      hide Valid, AllChecks, StunInputOf, Encode, SuccessResponse, ErrorResponse, FindAttribute, IsPeer;
      var input, refusal := port.GetStunMessage(data, hmac, crc);
      c, sent := null, refusal;
      if input.Accepted? && input.message.typ == BINDING_REQUEST {
        c := OnUnknownAddress(localPriority, PriorityOf(input.message), Chars(input.remoteUfrag), now);
        if c != null {
          sent := AnswerRequest(input.message, address, port.ice.pwd, hmac, crc);
        }
      }
    }

    /** A destroyed pair takes its requests with it. */
    method Destroy(c: C.IceConnection, now: int)
      requires channel.Healthy() && requests.Keys == channel.controller.Members() && c in requests
      modifies `requests, channel, channel.controller
      ensures channel.Healthy() && requests.Keys == channel.controller.Members()
      ensures AllChecks() == old(AllChecks()) - {c}
    {
      hide T.IceTransportChannel.Healthy, T.IceTransportChannel.Progress, T.IceTransportChannel.Keeps;
      hide IceController.Schedule, IceController.Pingable;
      hide S.Keyed, S.StableSort, Without, T.Improves, P.Removed, T.IceTransportChannel.Agree, IceController.Keys;
      channel.OnConnectionDestroyed(c, now);
      requests := requests - {c};
    }

    method Respond(c: C.IceConnection, sample: int, now: int)
      requires channel.Healthy() && requests.Keys == channel.controller.Members() && c in requests
      modifies channel, channel.controller,
        c`writeState, c`receiving, c`rtt, c`rttSamples, c`lastResponse, c`pings
      ensures channel.Healthy() && requests.Keys == channel.controller.Members()
      ensures c.Value() == C.Responded(old(c.Value()), sample, now)
      ensures forall d :: d in requests && d != c ==> d.Value() == old(d.Value())
    {
      assert c in channel.controller.connections;
      hide T.IceTransportChannel.Healthy, T.IceTransportChannel.Progress, T.IceTransportChannel.Keeps;
      hide IceController.Schedule, IceController.Pingable;
      hide C.Responded, IceController.Members;
      channel.OnPingResponse(c, sample, now);
    }

    method OnPingResponse(c: C.IceConnection, id: seq<byte>, sample: int, now: int)
      requires channel.Healthy() && requests.Keys == channel.controller.Members() && c in requests
      modifies `requests, channel, channel.controller,
        c`writeState, c`receiving, c`rtt, c`rttSamples, c`lastResponse, c`pings
      ensures channel.Healthy() && requests.Keys == channel.controller.Members()
      ensures AllChecks() == old(AllChecks())[c := Checks(C.Responded(old(c.Value()), sample, now), [],
                                                          old(requests)[c].pending - {id}, true)]
    {
      hide C.Responded, IceController.Members, T.IceTransportChannel.Healthy;
      ghost var after := AllChecks()[c := Checks(C.Responded(c.Value(), sample, now), [],
                                                 requests[c].pending - {id}, true)];
      Respond(c, sample, now);
      requests := requests[c := Requests([], requests[c].pending - {id})];
      assert forall d :: d in requests ==>
          after[d] == Checks(d.Value(), requests[d].ids, requests[d].pending, true);
      hide AllChecks;
      ChecksAre(after);
    }

    method OnConnectionDestroyed(c: C.IceConnection, now: int)
      requires Valid() && c in requests && clock <= now
      modifies `requests, `clock, channel, channel.controller
      ensures Valid() && clock == now && AllChecks() == old(AllChecks()) - {c}
    {
      hide AllGood, T.IceTransportChannel.Healthy, IceController.Members, AllChecks;
      ghost var before := AllChecks();
      Destroy(c, now);
      RestIsGood(before, clock, now, c);
      clock := now;
    }

    /** The callback of the request a response settles, with the channel's reactions. */
    method TakeResponse(c: C.IceConnection, response: Message, now: int, heardAt: int)
      requires Valid() && c in requests && clock <= now <= heardAt
      requires response.typ == BINDING_RESPONSE || response.typ == BINDING_ERROR_RESPONSE
      modifies `requests, `clock, channel, channel.controller,
        c`writeState, c`receiving, c`rtt, c`rttSamples, c`lastResponse, c`pings
      ensures Valid() && clock == heardAt && c in old(AllChecks())
      ensures AllChecks() ==
              AllAfterAnswer(old(AllChecks()), c, Answered(now, response.transactionId, response.typ, heardAt))
    {
      hide AllGood, AllAfterAnswer, T.IceTransportChannel.Healthy, IceController.Members, C.Responded, OutcomeOf;
      hide AllChecks;
      ghost var before := AllChecks();
      ghost var answer := Answered(now, response.transactionId, response.typ, heardAt);
      CheckIs(c);
      AnswerMeans(before, clock, c, answer);
      AnswerKeepsAllGood(before, clock, c, answer);
      var id, outcome := response.transactionId, OutcomeOf(requests[c].pending, response.transactionId, response.typ);
      match outcome {
        case Succeeded(request) => OnPingResponse(c, id, C.Narrow(now - request.sentAt), heardAt);
        case Failed(_) => Destroy(c, heardAt);
        case _ =>
      }
      clock := heardAt;
    }

    /** A datagram of one pair: passed on, dropped, refused, answered, or taken as the answer to one of its pings. */
    method OnReadPacket(c: C.IceConnection, data: seq<byte>, port: UdpPort, address: Address, now: int, heardAt: int,
                        hmac: HmacSha1, crc: Crc32)
      returns (action: PacketAction, sent: Option<seq<byte>>)
      requires Valid() && c in requests && clock <= now <= heardAt
      modifies `requests, `clock, channel, channel.controller,
        c`writeState, c`receiving, c`rtt, c`rttSamples, c`lastResponse, c`pings
      ensures Valid() && clock == heardAt && c in old(AllChecks())
      ensures action == ActionFor(data, port.ice, Remote(c), hmac, crc)
      ensures AllChecks() ==
              if action.Settle?
              then AllAfterAnswer(old(AllChecks()), c,
                                  Answered(now, action.response.transactionId, action.response.typ, heardAt))
              else old(AllChecks())
      ensures sent == Reply(data, action, port.ice, address, hmac, crc)
    {
      hide Valid, AllChecks, AllAfterAnswer, ActionFor, Reply;
      action, sent := React(data, port, Remote(c), address, hmac, crc);
      SettledIsResponse(data, port.ice, Remote(c), hmac, crc);
      Perform(c, action, now, heardAt);
    }

    method Perform(c: C.IceConnection, action: PacketAction, now: int, heardAt: int)
      requires Valid() && c in requests && clock <= now <= heardAt
      requires action.Settle? ==>
                 action.response.typ == BINDING_RESPONSE || action.response.typ == BINDING_ERROR_RESPONSE
      modifies `requests, `clock, channel, channel.controller,
        c`writeState, c`receiving, c`rtt, c`rttSamples, c`lastResponse, c`pings
      ensures Valid() && clock == heardAt && c in old(AllChecks())
      ensures AllChecks() ==
              if action.Settle?
              then AllAfterAnswer(old(AllChecks()), c,
                                  Answered(now, action.response.transactionId, action.response.typ, heardAt))
              else old(AllChecks())
    {
      hide AllGood, AllAfterAnswer, AllChecks, T.IceTransportChannel.Healthy, IceController.Members;
      CheckIs(c);
      if action.Settle? {
        TakeResponse(c, action.response, now, heardAt);
      } else {
        AllGoodLasts(AllChecks(), clock, heardAt);
        clock := heardAt;
      }
    }
  }
}
