/** The connectivity-check transaction: a binding request is built, accepted on a port, answered and settled. */
module StunTransaction {
  import opened Octets
  import opened StunAttributes
  import opened StunFormat
  import opened Stun
  import opened Text
  import opened Priorities

  const COLON: byte := 58
  const ERROR_BAD_REQUEST: nat := 400
  const ERROR_UNAUTHORIZED: nat := 401

  // ---- User names ---------------------------------------------------------------------------------

  function CreateStunUsername(remoteUfrag: seq<byte>, localUfrag: seq<byte>): seq<byte> {
    remoteUfrag + [COLON] + localUfrag
  }

  function ParseStunUsername(username: seq<byte>): Option<(seq<byte>, seq<byte>)> {
    var fields := Split(username, COLON);
    if |fields| != 2 then None else Some((fields[0], fields[1]))
  }

  /** A created user name parses back exactly when neither fragment holds a colon. */
  lemma UsernameRoundTrip(remoteUfrag: seq<byte>, localUfrag: seq<byte>)
    ensures ParseStunUsername(CreateStunUsername(remoteUfrag, localUfrag)) ==
            if COLON !in remoteUfrag && COLON !in localUfrag then Some((remoteUfrag, localUfrag)) else None
  {
    SplitCounts(remoteUfrag, COLON, localUfrag);
    if COLON in remoteUfrag {
      SplitMany(remoteUfrag, COLON);
    } else if COLON in localUfrag {
      SplitMany(localUfrag, COLON);
    } else {
      SplitAt(remoteUfrag, COLON, localUfrag);
      SplitWhole(localUfrag, COLON);
    }
  }

  // ---- The port ------------------------------------------------------------------------------------

  /** What a port makes of a datagram; a refusal is answered with an error response and goes no further. */
  datatype StunInput =
    | NotStun
    | Refused(code: nat, transactionId: seq<byte>)
    | Accepted(message: Message, remoteUfrag: seq<byte>)

  datatype IceParameters = IceParameters(ufrag: seq<byte>, pwd: seq<byte>)

  function UsernameOf(attrs: seq<Attribute>): Option<(seq<byte>, seq<byte>)> {
    match FindAttribute(attrs, ATTR_USERNAME)
    case Some(ByteString(_, bytes)) => ParseStunUsername(bytes)
    case _ => None
  }

  function RequestInput(m: Message, ice: IceParameters, hmac: HmacSha1): StunInput {
    if FindAttribute(m.attrs, ATTR_USERNAME) == None || FindAttribute(m.attrs, ATTR_MESSAGE_INTEGRITY) == None
    then Refused(ERROR_BAD_REQUEST, m.transactionId)
    else if UsernameOf(m.attrs) == None || UsernameOf(m.attrs).value.0 != ice.ufrag
    then Refused(ERROR_UNAUTHORIZED, m.transactionId)
    else if Validated(m, ice.pwd, hmac).integrity != IntegrityOk
    then Refused(ERROR_UNAUTHORIZED, m.transactionId)
    else Accepted(Validated(m, ice.pwd, hmac), UsernameOf(m.attrs).value.1)
  }

  function StunInputOf(data: seq<byte>, ice: IceParameters, hmac: HmacSha1, crc: Crc32): StunInput {
    if !FingerprintHolds(data, crc) || Parse(data) == None then NotStun
    else
      var m := Received(data, Parse(data).value);
      if m.typ == BINDING_REQUEST then RequestInput(m, ice, hmac) else Accepted(m, [])
  }

  /** The user name of a request is the two fragments around the only colon. */
  predicate IsNamed(attrs: seq<Attribute>, ours: seq<byte>, theirs: seq<byte>) {
    && COLON !in ours && COLON !in theirs
    && FindAttribute(attrs, ATTR_USERNAME) == Some(ByteString(ATTR_USERNAME, ours + [COLON] + theirs))
  }

  /**
   * The verdict on every datagram, whoever wrote it. A fingerprinted request is a bad request exactly when the user
   * name or MESSAGE-INTEGRITY is missing; it is accepted exactly when both are there, the user name starts with the
   * port's fragment and the port's key gives the digest it carries; every other is unauthorized.
   */
  lemma RequestVerdict(data: seq<byte>, ice: IceParameters, hmac: HmacSha1, crc: Crc32)
    ensures var input, fine := StunInputOf(data, ice, hmac, crc), FingerprintHolds(data, crc) && Parse(data).Some?;
            && (input.NotStun? <==> !fine)
            && (fine && Parse(data).value.typ != BINDING_REQUEST ==> input.Accepted? && input.message.buffer == data)
            && (fine && Parse(data).value.typ == BINDING_REQUEST ==>
                  var p := Parse(data).value;
                  var complete := !HasNo(p.attrs, ATTR_USERNAME) && !HasNo(p.attrs, ATTR_MESSAGE_INTEGRITY);
                  && (input == Refused(400, p.transactionId) <==> !complete)
                  && (input.Accepted? <==> complete && IntegrityHolds(data, ice.pwd, hmac)
                                           && exists theirs :: IsNamed(p.attrs, ice.ufrag, theirs))
                  && (input.Accepted? ==> IsNamed(p.attrs, ice.ufrag, input.remoteUfrag)
                                          && input.message.attrs == p.attrs)
                  && (complete && !input.Accepted? ==> input == Refused(401, p.transactionId)))
  {
    if FingerprintHolds(data, crc) && Parse(data).Some? {
      var attrs := Parse(data).value.attrs;
      FindsTheFirst(attrs, ATTR_USERNAME);
      FindsTheFirst(attrs, ATTR_MESSAGE_INTEGRITY);
      ParsedKinds(data[20..]);
      NamesFound(attrs, ice.ufrag);
      hide IntegrityHolds, FingerprintHolds, Parse, ParseAttributes, IsNamed, UsernameOf, FindAttribute, HasNo;
    }
  }

  /** Splitting finds the two fragments exactly when the user name consists of them. */
  lemma NamesFound(attrs: seq<Attribute>, ours: seq<byte>)
    requires AllKindsMatch(attrs)
    ensures var names := UsernameOf(attrs);
            && (names.Some? && names.value.0 == ours ==> IsNamed(attrs, ours, names.value.1))
            && forall theirs :: IsNamed(attrs, ours, theirs) ==> names == Some((ours, theirs))
  {
    FindsTheFirst(attrs, ATTR_USERNAME);
    if FindAttribute(attrs, ATTR_USERNAME).Some? {
      var u := FindAttribute(attrs, ATTR_USERNAME).value;
      assert u.ByteString?;
      SplitJoins(u.bytes, COLON);
      if UsernameOf(attrs).Some? {
        var fields := Split(u.bytes, COLON);
        assert Join(fields, COLON) == fields[0] + [COLON] + Join(fields[1..], COLON);
      }
    }
    forall theirs | IsNamed(attrs, ours, theirs)
      ensures UsernameOf(attrs) == Some((ours, theirs))
    {
      UsernameRoundTrip(ours, theirs);
    }
  }

  class UdpPort {
    var ice: IceParameters

    constructor (ice: IceParameters)
      ensures this.ice == ice
    {
      this.ice := ice;
    }

    /** The verdict on a datagram; a refused request is answered at once. */
    method GetStunMessage(data: seq<byte>, hmac: HmacSha1, crc: Crc32) returns (r: StunInput, sent: Option<seq<byte>>)
      ensures r == StunInputOf(data, ice, hmac, crc)
      ensures r.Refused? ==>
                sent == Encode(ErrorResponse(r.transactionId, r.code, ReasonFor(r.code), ice.pwd, hmac, crc))
      ensures !r.Refused? ==> sent == None
    {
      hide ErrorResponse, Encode;
      sent := None;
      if !FingerprintHolds(data, crc) {
        return NotStun, None;
      }
      var msg := new StunMessage();
      var ok := msg.Read(data);
      if !ok {
        return NotStun, None;
      }
      assert msg.Value() == Received(data, Parse(data).value);
      if msg.typ != BINDING_REQUEST {
        return Accepted(msg.Value(), []), None;
      }
      if FindAttribute(msg.attrs, ATTR_USERNAME) == None || FindAttribute(msg.attrs, ATTR_MESSAGE_INTEGRITY) == None {
        sent := SendBindingErrorResponse(msg.transactionId, ERROR_BAD_REQUEST, REASON_BAD_REQUEST, hmac, crc);
        return Refused(ERROR_BAD_REQUEST, msg.transactionId), sent;
      }
      var names := UsernameOf(msg.attrs);
      if names == None || names.value.0 != ice.ufrag {
        sent := SendBindingErrorResponse(msg.transactionId, ERROR_UNAUTHORIZED, REASON_UNAUTHORIZED, hmac, crc);
        return Refused(ERROR_UNAUTHORIZED, msg.transactionId), sent;
      }
      var status := msg.ValidateMessageIntegrity(ice.pwd, hmac);
      if status != IntegrityOk {
        sent := SendBindingErrorResponse(msg.transactionId, ERROR_UNAUTHORIZED, REASON_UNAUTHORIZED, hmac, crc);
        return Refused(ERROR_UNAUTHORIZED, msg.transactionId), sent;
      }
      return Accepted(msg.Value(), names.value.1), None;
    }

    /** Only codes other than 400 and 401 are signed. */
    method SendBindingErrorResponse(transactionId: seq<byte>, code: nat, reason: seq<byte>, hmac: HmacSha1, crc: Crc32)
      returns (sent: Option<seq<byte>>)
      ensures sent == Encode(ErrorResponse(transactionId, code, reason, ice.pwd, hmac, crc))
    {
      var response := new StunMessage();
      response.typ := BINDING_ERROR_RESPONSE;
      response.transactionId := transactionId;
      response.AddAttribute(ErrorCode(ATTR_ERROR_CODE, (code / 100) % 0x100, code % 100, reason));
      assert response.Value() == UnsignedError(transactionId, code, reason);
      hide UnsignedError, AfterAddMessageIntegrity, AfterAddFingerprint, Encode;
      if code != ERROR_BAD_REQUEST && code != ERROR_UNAUTHORIZED {
        var signed := response.AddMessageIntegrity(ice.pwd, hmac);
      }
      var summed := response.AddFingerprint(crc);
      sent := response.Write();
    }
  }

  /** The magic cookie of the fingerprint check rules out the 16-byte identifiers of older clients. */
  lemma AcceptedHasTransactionId(data: seq<byte>, ice: IceParameters, hmac: HmacSha1, crc: Crc32)
    requires StunInputOf(data, ice, hmac, crc).Accepted?
    ensures |StunInputOf(data, ice, hmac, crc).message.transactionId| == TRANSACTION_ID_LENGTH
    ensures StunInputOf(data, ice, hmac, crc).message.transactionId == data[8..20]
  {
  }

  // ---- The request ---------------------------------------------------------------------------------

  function RequestAttributes(remoteUfrag: seq<byte>, localUfrag: seq<byte>, localPriority: uint32): seq<Attribute> {
    [ByteString(ATTR_USERNAME, CreateStunUsername(remoteUfrag, localUfrag)),
     UInt64(ATTR_ICE_CONTROLLING, 0),
     ByteString(ATTR_USE_CANDIDATE, []),
     UInt32(ATTR_PRIORITY, AdvertisedPriority(localPriority))]
  }

  function Fresh(typ: uint16, transactionId: seq<byte>): Message {
    EMPTY_MESSAGE.(typ := typ, transactionId := transactionId)
  }

  function UnsignedRequest(transactionId: seq<byte>, remoteUfrag: seq<byte>, localUfrag: seq<byte>,
                           localPriority: uint32): Message {
    AddedAll(Fresh(BINDING_REQUEST, transactionId), RequestAttributes(remoteUfrag, localUfrag, localPriority))
  }

  function BindingRequest(transactionId: seq<byte>, remote: IceParameters, localUfrag: seq<byte>,
                          localPriority: uint32, hmac: HmacSha1, crc: Crc32): Message {
    Finished(UnsignedRequest(transactionId, remote.ufrag, localUfrag, localPriority), remote.pwd, hmac, crc, true)
  }

  /** `ConnectionRequest::prepare`. */
  method Prepare(msg: StunMessage, remote: IceParameters, localUfrag: seq<byte>, localPriority: uint32,
                 hmac: HmacSha1, crc: Crc32)
    requires msg.Value() == Fresh(0, msg.transactionId)
    modifies msg
    ensures msg.Value() ==
            BindingRequest(old(msg.transactionId), remote, localUfrag, localPriority, hmac, crc)
  {
    ghost var attrs := RequestAttributes(remote.ufrag, localUfrag, localPriority);
    msg.typ := BINDING_REQUEST;
    ghost var m0 := msg.Value();
    msg.AddAttribute(ByteString(ATTR_USERNAME, CreateStunUsername(remote.ufrag, localUfrag)));
    ghost var m1 := msg.Value();
    msg.AddAttribute(UInt64(ATTR_ICE_CONTROLLING, 0));
    ghost var m2 := msg.Value();
    msg.AddAttribute(ByteString(ATTR_USE_CANDIDATE, []));
    ghost var m3 := msg.Value();
    msg.AddAttribute(UInt32(ATTR_PRIORITY, AdvertisedPriority(localPriority)));
    hide Added, AfterAddMessageIntegrity, AfterAddFingerprint, AdvertisedPriority, CreateStunUsername;
    AddedFour(m0, attrs[0], attrs[1], attrs[2], attrs[3]);
    var signed := msg.AddMessageIntegrity(remote.pwd, hmac);
    var summed := msg.AddFingerprint(crc);
  }

  lemma AddedFour(m: Message, a: Attribute, b: Attribute, c: Attribute, d: Attribute)
    ensures AddedAll(m, [a, b, c, d]) == Added(Added(Added(Added(m, a), b), c), d)
  {
    assert [a, b, c, d][1..] == [b, c, d] && [b, c, d][1..] == [c, d] && [c, d][1..] == [d] && [d][1..] == [];
    assert AddedAll(m, [a, b, c, d]) == AddedAll(Added(m, a), [b, c, d]);
    assert AddedAll(Added(m, a), [b, c, d]) == AddedAll(Added(Added(m, a), b), [c, d]);
    assert AddedAll(Added(Added(m, a), b), [c, d]) == AddedAll(Added(Added(Added(m, a), b), c), [d]);
  }

  lemma UnsignedRequestIsSignable(transactionId: seq<byte>, remoteUfrag: seq<byte>, localUfrag: seq<byte>,
                                  localPriority: uint32)
    requires |transactionId| == TRANSACTION_ID_LENGTH && |remoteUfrag| + |localUfrag| < 65472
    ensures var m := UnsignedRequest(transactionId, remoteUfrag, localUfrag, localPriority);
            && Signable(m) && m.typ == BINDING_REQUEST && m.transactionId == transactionId
            && m.attrs == RequestAttributes(remoteUfrag, localUfrag, localPriority)
            && |Body(m.attrs)| + INTEGRITY_ATTRIBUTE_SIZE + FINGERPRINT_ATTRIBUTE_SIZE < 0x1_0000
            && Visible(m.attrs) == [m.attrs[0], m.attrs[3]]
  {
    hide Added, Body, Wire, AdvertisedPriority;
    var blank := Fresh(BINDING_REQUEST, transactionId);
    var attrs := RequestAttributes(remoteUfrag, localUfrag, localPriority);
    FreshIsCounted(BINDING_REQUEST, transactionId);
    RequestBody(attrs);
    assert blank.attrs + attrs == attrs;
    CountedAdded(blank, attrs);
  }

  lemma FreshIsCounted(typ: uint16, transactionId: seq<byte>)
    ensures Counted(Fresh(typ, transactionId)) && Fresh(typ, transactionId).attrs == []
  {
  }

  lemma {:induction false} CountedAdded(m: Message, attrs: seq<Attribute>)
    requires Counted(m)
    ensures Counted(AddedAll(m, attrs)) && AddedAll(m, attrs).attrs == m.attrs + attrs
    ensures AddedAll(m, attrs).typ == m.typ && AddedAll(m, attrs).transactionId == m.transactionId
    decreases |attrs|
  {
    if attrs != [] {
      CountedAdd(m, attrs[0]);
      CountedAdded(Added(m, attrs[0]), attrs[1..]);
      assert [attrs[0]] + attrs[1..] == attrs;
      AppendAssoc(m.attrs, [attrs[0]], attrs[1..]);
    }
  }

  lemma RequestBody(attrs: seq<Attribute>)
    requires |attrs| == 4 && AllWritable(attrs)
    requires attrs[0].ByteString? && attrs[0].typ == ATTR_USERNAME && |attrs[0].bytes| < 65473
    requires attrs[1].UInt64? && attrs[1].typ == ATTR_ICE_CONTROLLING
    requires attrs[2] == ByteString(ATTR_USE_CANDIDATE, [])
    requires attrs[3].UInt32? && attrs[3].typ == ATTR_PRIORITY
    ensures |Body(attrs)| + INTEGRITY_ATTRIBUTE_SIZE + FINGERPRINT_ATTRIBUTE_SIZE < 0x1_0000
    ensures Visible(attrs) == [attrs[0], attrs[3]]
  {
    var t1, t2, t3 := attrs[1..], attrs[2..], attrs[3..];
    assert attrs[1..][1..] == t2 && t2[1..] == t3 && t3[1..] == [];
    UsernamePart(attrs[0]);
    hide Wire, VisibleOne, Body, Visible;
    FourParts(attrs, t1, t2, t3);
  }

  lemma UsernamePart(a: Attribute)
    requires a.ByteString? && a.typ == ATTR_USERNAME && |a.bytes| < 0x1_0000
    ensures |Wire(a)| <= |a.bytes| + 7 && VisibleOne(a) == [a]
  {
    Low16Fits(|a.bytes|);
    assert a.bytes[..|a.bytes|] == a.bytes;
  }

  lemma FourParts(attrs: seq<Attribute>, t1: seq<Attribute>, t2: seq<Attribute>, t3: seq<Attribute>)
    requires |attrs| == 4 && t1 == attrs[1..] && t2 == t1[1..] && t3 == t2[1..] && t3[1..] == []
    requires AllWritable(attrs)
    ensures |Body(attrs)| == |Wire(attrs[0])| + |Wire(attrs[1])| + |Wire(attrs[2])| + |Wire(attrs[3])|
    ensures Visible(attrs) ==
            VisibleOne(attrs[0]) + (VisibleOne(attrs[1]) + (VisibleOne(attrs[2]) + VisibleOne(attrs[3])))
  {
    hide Wire, VisibleOne, Writable;
    assert Body(attrs) == Wire(attrs[0]) + Body(t1);
    assert Body(t1) == Wire(attrs[1]) + Body(t2);
    assert Body(t2) == Wire(attrs[2]) + Body(t3);
    assert Body(t3) == Wire(attrs[3]) + Body([]);
    assert Visible(attrs) == VisibleOne(attrs[0]) + Visible(t1);
    assert Visible(t1) == VisibleOne(attrs[1]) + Visible(t2);
    assert Visible(t2) == VisibleOne(attrs[2]) + Visible(t3);
    assert Visible(t3) == VisibleOne(attrs[3]) + Visible([]);
  }

  // ---- Acceptance of the request --------------------------------------------------------------------

  /** The bytes of a request that its MESSAGE-INTEGRITY covers. */
  function SignedPart(transactionId: seq<byte>, remoteUfrag: seq<byte>, localUfrag: seq<byte>, localPriority: uint32)
    : seq<byte>
    requires |transactionId| == TRANSACTION_ID_LENGTH && |remoteUfrag| + |localUfrag| < 65472
  {
    UnsignedRequestIsSignable(transactionId, remoteUfrag, localUfrag, localPriority);
    PrefixWith(UnsignedRequest(transactionId, remoteUfrag, localUfrag, localPriority), INTEGRITY_ATTRIBUTE_SIZE)
  }

  /**
   * A request written for `remote` and read by any port: it is accepted exactly when neither fragment holds a colon,
   * the port has the fragment it names and the port's key gives the signed bytes the signer's digest. Then it yields
   * the sender's fragment and advertised priority; otherwise it is refused as unauthorized.
   */
  lemma RequestAtPort(transactionId: seq<byte>, remote: IceParameters, localUfrag: seq<byte>, localPriority: uint32,
                      port: IceParameters, hmac: HmacSha1, crc: Crc32)
    requires |transactionId| == TRANSACTION_ID_LENGTH && |remote.ufrag| + |localUfrag| < 65472
    ensures var request := BindingRequest(transactionId, remote, localUfrag, localPriority, hmac, crc);
            && Encode(request).Some?
            && var input := StunInputOf(Encode(request).value, port, hmac, crc);
               var signed := SignedPart(transactionId, remote.ufrag, localUfrag, localPriority);
            && (input.Accepted? <==>
                  && COLON !in remote.ufrag && COLON !in localUfrag && port.ufrag == remote.ufrag
                  && hmac(port.pwd, signed) == hmac(remote.pwd, signed))
            && (!input.Accepted? ==> input == Refused(ERROR_UNAUTHORIZED, transactionId))
            && (input.Accepted? ==>
                  && input.remoteUfrag == localUfrag
                  && input.message.typ == BINDING_REQUEST && input.message.transactionId == transactionId
                  && FindAttribute(input.message.attrs, ATTR_USERNAME).Some?
                  && FindAttribute(input.message.attrs, ATTR_PRIORITY) ==
                     Some(UInt32(ATTR_PRIORITY, AdvertisedPriority(localPriority))))
  {
    hide Added, AddedAll, Finished, Encode, Parse, Body, PrefixWith, Signable, IntegrityHolds, FingerprintHolds;
    hide StunInputOf, Visible, ParseStunUsername, CreateStunUsername, FindAttribute;
    var m := UnsignedRequest(transactionId, remote.ufrag, localUfrag, localPriority);
    UnsignedRequestIsSignable(transactionId, remote.ufrag, localUfrag, localPriority);
    SignThenVerify(m, remote.pwd, port.pwd, hmac, crc, true);
    UsernameRoundTrip(remote.ufrag, localUfrag);
    var mi := IntegrityOf(m, remote.pwd, hmac);
    assert Visible(m.attrs) + [mi] == [m.attrs[0], m.attrs[3], mi];
    RequestJudged(Encode(BindingRequest(transactionId, remote, localUfrag, localPriority, hmac, crc)).value,
                  m.attrs[0], m.attrs[3], mi, port, hmac, crc);
  }

  /** The request byte by byte, with the four attributes in their order. */
  lemma RequestBytes(transactionId: seq<byte>, remote: IceParameters, localUfrag: seq<byte>, localPriority: uint32,
                     hmac: HmacSha1, crc: Crc32)
    requires |transactionId| == TRANSACTION_ID_LENGTH && |remote.ufrag| + |localUfrag| < 65472
    ensures var name: seq<byte> := remote.ufrag + [58] + localUfrag;
            var body := [0, 6] + Be16(|name|) + name + Zeros(Padding(|name|))
                        + ([0x80, 0x2A, 0, 8, 0, 0, 0, 0, 0, 0, 0, 0]
                           + ([0, 0x25, 0, 0] + ([0, 0x24, 0, 4] + Be32(AdvertisedPriority(localPriority)))));
            Encode(BindingRequest(transactionId, remote, localUfrag, localPriority, hmac, crc)) ==
            Some(SumBytes(DigestBytes(1, transactionId, body, |body| + 32, remote.pwd, hmac), crc))
  {
    var m := UnsignedRequest(transactionId, remote.ufrag, localUfrag, localPriority);
    assert BindingRequest(transactionId, remote, localUfrag, localPriority, hmac, crc) ==
           Finished(m, remote.pwd, hmac, crc, true);
    hide *;
    UnsignedRequestIsSignable(transactionId, remote.ufrag, localUfrag, localPriority);
    FinishedBytes(m, remote.pwd, hmac, crc);
    RequestBodyBytes(remote.ufrag + [58] + localUfrag, remote.ufrag, localUfrag, localPriority);
  }

  lemma RequestBodyBytes(name: seq<byte>, remoteUfrag: seq<byte>, localUfrag: seq<byte>, localPriority: uint32)
    requires name == remoteUfrag + [58] + localUfrag && |name| < 65473
    ensures var attrs := RequestAttributes(remoteUfrag, localUfrag, localPriority);
            && AllWritable(attrs)
            && Body(attrs) == [0, 6] + Be16(|name|) + name + Zeros(Padding(|name|))
                              + ([0x80, 0x2A, 0, 8, 0, 0, 0, 0, 0, 0, 0, 0]
                                 + ([0, 0x25, 0, 0] + ([0, 0x24, 0, 4] + Be32(AdvertisedPriority(localPriority)))))
  {
    var attrs := RequestAttributes(remoteUfrag, localUfrag, localPriority);
    var t1, t2, t3 := attrs[1..], attrs[2..], attrs[3..];
    assert attrs[1..][1..] == t2 && t2[1..] == t3 && t3[1..] == [];
    FixedWires(attrs[1], attrs[2], attrs[3]);
    NameWire(name, attrs[0]);
    hide Wire, Be32, Be16, Zeros, AdvertisedPriority, Padding;
    BodyUnfolds(attrs);
    BodyUnfolds(t1);
    BodyUnfolds(t2);
    BodyUnfolds(t3);
    AppendNothing(Wire(attrs[3]));
  }

  lemma NameWire(name: seq<byte>, a: Attribute)
    requires a == ByteString(ATTR_USERNAME, name) && |name| < 65473
    ensures Wire(a) == [0, 6] + Be16(|name|) + name + Zeros(Padding(|name|))
  {
    Low16Fits(|name|);
    assert name[..|name|] == name;
    AppendAssoc([0, 6] + Be16(|name|), name, Zeros(Padding(|name|)));
  }

  lemma FixedWires(b: Attribute, c: Attribute, d: Attribute)
    requires b == UInt64(ATTR_ICE_CONTROLLING, 0) && c == ByteString(ATTR_USE_CANDIDATE, [])
    requires d.UInt32? && d.typ == ATTR_PRIORITY
    ensures Wire(b) == [0x80, 0x2A, 0, 8, 0, 0, 0, 0, 0, 0, 0, 0]
    ensures Wire(c) == [0, 0x25, 0, 0] && Wire(d) == [0, 0x24, 0, 4] + Be32(d.bits)
  {
  }

  lemma ThreeFound(a: Attribute, b: Attribute, c: Attribute)
    requires a.typ == ATTR_USERNAME && b.typ == ATTR_PRIORITY && c.typ == ATTR_MESSAGE_INTEGRITY
    ensures FindAttribute([a, b, c], ATTR_USERNAME) == Some(a)
    ensures FindAttribute([a, b, c], ATTR_PRIORITY) == Some(b)
    ensures FindAttribute([a, b, c], ATTR_MESSAGE_INTEGRITY) == Some(c)
  {
    assert [a, b, c][1..] == [b, c] && [b, c][1..] == [c];
    assert FindAttribute([a, b, c], ATTR_MESSAGE_INTEGRITY) == FindAttribute([b, c], ATTR_MESSAGE_INTEGRITY);
    assert FindAttribute([b, c], ATTR_MESSAGE_INTEGRITY) == FindAttribute([c], ATTR_MESSAGE_INTEGRITY);
  }

  lemma RequestJudged(data: seq<byte>, name: Attribute, priority: Attribute, mi: Attribute, port: IceParameters,
                      hmac: HmacSha1, crc: Crc32)
    requires FingerprintHolds(data, crc) && Parse(data).Some?
    requires Parse(data).value.typ == BINDING_REQUEST && Parse(data).value.attrs == [name, priority, mi]
    requires name.ByteString? && name.typ == ATTR_USERNAME && priority.typ == ATTR_PRIORITY
    requires mi.typ == ATTR_MESSAGE_INTEGRITY
    ensures var received := Received(data, Parse(data).value);
            var verdict := Validated(received, port.pwd, hmac).integrity;
            var names := ParseStunUsername(name.bytes);
            && FindAttribute(received.attrs, ATTR_PRIORITY) == Some(priority)
            && FindAttribute(received.attrs, ATTR_USERNAME) == Some(name)
            && StunInputOf(data, port, hmac, crc) ==
               if names.Some? && names.value.0 == port.ufrag && verdict == IntegrityOk
               then Accepted(Validated(received, port.pwd, hmac), names.value.1)
               else Refused(ERROR_UNAUTHORIZED, received.transactionId)
  {
    hide FingerprintHolds, Parse, IntegrityHolds, ParseStunUsername, FindAttribute;
    ThreeFound(name, priority, mi);
  }

  // ---- The response ----------------------------------------------------------------------------------

  function UnsignedResponse(transactionId: seq<byte>, address: Address): Message {
    Added(Fresh(BINDING_RESPONSE, transactionId), XorAddress(ATTR_XOR_MAPPED_ADDRESS, address))
  }

  function SuccessResponse(transactionId: seq<byte>, address: Address, pwd: seq<byte>, hmac: HmacSha1, crc: Crc32)
    : Message
  {
    Finished(UnsignedResponse(transactionId, address), pwd, hmac, crc, true)
  }

  /** `send_stun_binding_response`: the datagram sent, if any. */
  method AnswerRequest(request: Message, address: Address, pwd: seq<byte>, hmac: HmacSha1, crc: Crc32)
    returns (sent: Option<seq<byte>>)
    ensures sent == if FindAttribute(request.attrs, ATTR_USERNAME) == None then None
                    else Encode(SuccessResponse(request.transactionId, address, pwd, hmac, crc))
    ensures sent.Some? ==> address.Inet4?
    ensures sent.Some? && |request.transactionId| == TRANSACTION_ID_LENGTH ==>
              |sent.value| == 64 && UnmaskAddress(sent.value[24..32]) == Some(address)
  {
    if |request.transactionId| == TRANSACTION_ID_LENGTH && address.Inet4? {
      AnswerBytes(request.transactionId, address.ip4, address.port, pwd, hmac, crc);
    }
    hide UnmaskAddress;
    if FindAttribute(request.attrs, ATTR_USERNAME) == None {
      return None;
    }
    var response := new StunMessage();
    response.typ := BINDING_RESPONSE;
    response.transactionId := request.transactionId;
    response.AddAttribute(XorAddress(ATTR_XOR_MAPPED_ADDRESS, address));
    assert response.Value() == UnsignedResponse(request.transactionId, address);
    var signed := response.AddMessageIntegrity(pwd, hmac);
    var summed := response.AddFingerprint(crc);
    sent := response.Write();
    OnlyInet4IsSent(request.transactionId, address, pwd, hmac, crc);
  }

  /** Nothing is sent to an address that cannot be masked; a failed signature leaves the message unwritable. */
  lemma OnlyInet4IsSent(transactionId: seq<byte>, address: Address, pwd: seq<byte>, hmac: HmacSha1, crc: Crc32)
    ensures Encode(SuccessResponse(transactionId, address, pwd, hmac, crc)).Some? <==> address.Inet4?
  {
    var m := UnsignedResponse(transactionId, address);
    var xor := XorAddress(ATTR_XOR_MAPPED_ADDRESS, address);
    assert m.attrs == [xor];
    var s := AfterAddMessageIntegrity(m, pwd, hmac);
    AppendKeepsWritable([xor], s.attrs[1]);
    var f := AfterAddFingerprint(s, crc);
    AppendKeepsWritable(s.attrs, f.attrs[2]);
    EncodesWhenWritable(f);
  }

  lemma UnsignedResponseIsSignable(transactionId: seq<byte>, address: Address)
    requires |transactionId| == TRANSACTION_ID_LENGTH && address.Inet4?
    ensures var m := UnsignedResponse(transactionId, address);
            && Signable(m) && |Body(m.attrs)| == 12 && Visible(m.attrs) == []
            && m.attrs == [XorAddress(ATTR_XOR_MAPPED_ADDRESS, address)]
            && m.typ == BINDING_RESPONSE && m.transactionId == transactionId
  {
    var xor := XorAddress(ATTR_XOR_MAPPED_ADDRESS, address);
    SingleIsSignable(BINDING_RESPONSE, transactionId, xor);
  }

  lemma SingleIsSignable(typ: uint16, transactionId: seq<byte>, a: Attribute)
    requires |transactionId| == TRANSACTION_ID_LENGTH && !LooksLikeRtp(typ)
    requires AllWritable([a]) && KindMatches(a) && a.typ != ATTR_MESSAGE_INTEGRITY
    ensures var m := Added(Fresh(typ, transactionId), a);
            Signable(m) && m.attrs == [a] && m.typ == typ && m.transactionId == transactionId
  {
    hide Body, Wire, Low16, Footprint;
    var blank := Fresh(typ, transactionId);
    FreshIsCounted(typ, transactionId);
    assert blank.attrs + [a] == [a];
    CountedAdd(blank, a);
  }

  function SignedPartOfResponse(transactionId: seq<byte>, address: Address): seq<byte>
    requires |transactionId| == TRANSACTION_ID_LENGTH && address.Inet4?
  {
    UnsignedResponseIsSignable(transactionId, address);
    PrefixWith(UnsignedResponse(transactionId, address), INTEGRITY_ATTRIBUTE_SIZE)
  }

  /** An IPv4 answer reaches the sender as a success response; exactly the keys with the signer's digest prove it. */
  lemma ResponseAtSender(transactionId: seq<byte>, address: Address, pwd: seq<byte>, key: seq<byte>,
                         port: IceParameters, hmac: HmacSha1, crc: Crc32)
    requires |transactionId| == TRANSACTION_ID_LENGTH && address.Inet4?
    ensures var response := SuccessResponse(transactionId, address, pwd, hmac, crc);
            && Encode(response).Some?
            && var input := StunInputOf(Encode(response).value, port, hmac, crc);
               var signed := SignedPartOfResponse(transactionId, address);
            && input.Accepted? && input.message.typ == BINDING_RESPONSE
            && input.message.transactionId == transactionId
            && (Validated(input.message, key, hmac).integrity == IntegrityOk <==>
                  hmac(key, signed) == hmac(pwd, signed))
  {
    hide Added, Finished, Encode, Parse, Body, PrefixWith, Signable, IntegrityHolds, FingerprintHolds, Visible;
    UnsignedResponseIsSignable(transactionId, address);
    SignThenVerify(UnsignedResponse(transactionId, address), pwd, key, hmac, crc, true);
  }

  /**
   * The answer byte by byte. The client that undoes the mask of RFC 5389 section 15.2 reads the address the request
   * came from; the digest and the fingerprint follow.
   */
  lemma AnswerBytes(transactionId: seq<byte>, ip: uint32, port: uint16, pwd: seq<byte>, hmac: HmacSha1, crc: Crc32)
    requires |transactionId| == TRANSACTION_ID_LENGTH
    ensures var sent := Encode(SuccessResponse(transactionId, Inet4(ip, port), pwd, hmac, crc));
            && sent.Some? && |sent.value| == 64
            && var data := sent.value;
            && data[..8] == [1, 1, 0, 44] + COOKIE_BYTES && data[8..20] == transactionId
            && data[20..24] == [0, 0x20, 0, 8] && UnmaskAddress(data[24..32]) == Some(Inet4(ip, port))
            && data == SumBytes(DigestBytes(0x101, transactionId, data[20..32], 44, pwd, hmac), crc)
  {
    hide Body, Wire, Finished, Encode, SumBytes, DigestBytes, Signable, UnmaskAddress, UnsignedResponse;
    hide SuccessResponse;
    ResponseIs(transactionId, Inet4(ip, port), pwd, hmac, crc);
    var m := UnsignedResponse(transactionId, Inet4(ip, port));
    UnsignedResponseIsSignable(transactionId, Inet4(ip, port));
    FinishedBytes(m, pwd, hmac, crc);
    AddressBytesRead(ip, port);
    BodyOfOne(m.attrs[0]);
    TwelveBytes(0x101, transactionId, Body(m.attrs), pwd, hmac, crc);
  }

  lemma ResponseIs(transactionId: seq<byte>, address: Address, pwd: seq<byte>, hmac: HmacSha1, crc: Crc32)
    ensures SuccessResponse(transactionId, address, pwd, hmac, crc) ==
            Finished(UnsignedResponse(transactionId, address), pwd, hmac, crc, true)
  {
    hide Finished, UnsignedResponse;
  }

  lemma AddressBytesRead(ip: uint32, port: uint16)
    ensures var wire := Wire(XorAddress(ATTR_XOR_MAPPED_ADDRESS, Inet4(ip, port)));
            |wire| == 12 && wire[..4] == [0, 0x20, 0, 8] && UnmaskAddress(wire[4..]) == Some(Inet4(ip, port))
  {
    var a := XorAddress(ATTR_XOR_MAPPED_ADDRESS, Inet4(ip, port));
    XorAddressUnmasks(ATTR_XOR_MAPPED_ADDRESS, ip, port);
    assert Wire(a)[4..] == Payload(a);
  }

  /** Where the parts of a message with twelve bytes of attributes stand. */
  lemma TwelveBytes(typ: uint16, transactionId: seq<byte>, body: seq<byte>, pwd: seq<byte>, hmac: HmacSha1, crc: Crc32)
    requires |transactionId| == TRANSACTION_ID_LENGTH && |body| == 12
    ensures var data := SumBytes(DigestBytes(typ, transactionId, body, 44, pwd, hmac), crc);
            && |data| == 64 && data[8..20] == transactionId && data[20..32] == body
            && data[..8] == Be16(typ) + Be16(44) + COOKIE_BYTES && Be16(44) == [0, 44]
            && (typ == 0x101 ==> Be16(typ) + Be16(44) == [1, 1, 0, 44])
  {
    hide Xor32;
  }

  // ---- Refusals ----------------------------------------------------------------------------------------

  /** "Bad request" and, as the source spells it, "Unathorized". */
  const REASON_BAD_REQUEST: seq<byte> := [66, 97, 100, 32, 114, 101, 113, 117, 101, 115, 116]
  const REASON_UNAUTHORIZED: seq<byte> := [85, 110, 97, 116, 104, 111, 114, 105, 122, 101, 100]

  function ReasonFor(code: nat): seq<byte> {
    if code == ERROR_BAD_REQUEST then REASON_BAD_REQUEST else REASON_UNAUTHORIZED
  }

  function UnsignedError(transactionId: seq<byte>, code: nat, reason: seq<byte>): Message {
    Added(Fresh(BINDING_ERROR_RESPONSE, transactionId),
          ErrorCode(ATTR_ERROR_CODE, (code / 100) % 0x100, code % 100, reason))
  }

  function ErrorResponse(transactionId: seq<byte>, code: nat, reason: seq<byte>, pwd: seq<byte>, hmac: HmacSha1,
                         crc: Crc32): Message {
    var m := UnsignedError(transactionId, code, reason);
    if code != ERROR_BAD_REQUEST && code != ERROR_UNAUTHORIZED then Finished(m, pwd, hmac, crc, true)
    else AfterAddFingerprint(m, crc)
  }

  lemma UnsignedErrorIsSignable(transactionId: seq<byte>, code: nat, reason: seq<byte>)
    requires |transactionId| == TRANSACTION_ID_LENGTH && |reason| < 0x1_0000 - 64
    ensures var m := UnsignedError(transactionId, code, reason);
            && Signable(m) && Visible(m.attrs) == []
            && m.typ == BINDING_ERROR_RESPONSE && m.transactionId == transactionId
            && |Body(m.attrs)| + INTEGRITY_ATTRIBUTE_SIZE + FINGERPRINT_ATTRIBUTE_SIZE < 0x1_0000
  {
    var error := ErrorCode(ATTR_ERROR_CODE, (code / 100) % 0x100, code % 100, reason);
    SingleIsSignable(BINDING_ERROR_RESPONSE, transactionId, error);
    hide Added, Signable, Body, Visible;
  }

  /** The bytes of an error response that its MESSAGE-INTEGRITY would cover. */
  function SignedPartOfError(transactionId: seq<byte>, code: nat, reason: seq<byte>): seq<byte>
    requires |transactionId| == TRANSACTION_ID_LENGTH && |reason| < 0x1_0000 - 64
  {
    UnsignedErrorIsSignable(transactionId, code, reason);
    PrefixWith(UnsignedError(transactionId, code, reason), INTEGRITY_ATTRIBUTE_SIZE)
  }

  /**
   * A refusal is a well-formed error response with the request's id, but the requester drops it unless it is signed
   * with the peer's key: so no 400 or 401, from whomever, ever settles a request.
   */
  lemma ErrorAtSender(transactionId: seq<byte>, code: nat, reason: seq<byte>, pwd: seq<byte>, own: IceParameters,
                      remote: IceParameters, hmac: HmacSha1, crc: Crc32)
    requires |transactionId| == TRANSACTION_ID_LENGTH && |reason| < 0x1_0000 - 64
    ensures var response := ErrorResponse(transactionId, code, reason, pwd, hmac, crc);
            && Encode(response).Some?
            && var input := StunInputOf(Encode(response).value, own, hmac, crc);
               var action := ActionFor(Encode(response).value, own, remote, hmac, crc);
               var signed := SignedPartOfError(transactionId, code, reason);
            && input.Accepted? && input.message.typ == BINDING_ERROR_RESPONSE
            && input.message.transactionId == transactionId
            && (action.Settle? <==> code != ERROR_BAD_REQUEST && code != ERROR_UNAUTHORIZED
                                    && hmac(remote.pwd, signed) == hmac(pwd, signed))
            && (!action.Settle? ==> action == Drop)
  {
    hide Added, Finished, Encode, Parse, Body, PrefixWith, Signable, IntegrityHolds, FingerprintHolds, Visible;
    hide AfterAddFingerprint, FindAttribute, UnsignedError;
    UnsignedErrorIsSignable(transactionId, code, reason);
    var m := UnsignedError(transactionId, code, reason);
    if code != ERROR_BAD_REQUEST && code != ERROR_UNAUTHORIZED {
      SignThenVerify(m, pwd, remote.pwd, hmac, crc, true);
    } else {
      FingerprintedReads(m, crc);
      NothingFound(ATTR_MESSAGE_INTEGRITY);
    }
  }

  lemma NothingFound(typ: uint16)
    ensures FindAttribute([], typ) == None
  {
  }

  /** The ERROR-CODE of a refusal: class 4, the number, eleven characters of reason and one byte of padding. */
  function ErrorBytes(number: byte, reason: seq<byte>): seq<byte> {
    [0, 9, 0, 15] + [0, 0, 4, number] + reason + Zeros(1)
  }

  /** A refusal byte by byte: the error class, the number and the reason, with a fingerprint and no digest. */
  lemma RefusalBytes(transactionId: seq<byte>, code: nat, pwd: seq<byte>, hmac: HmacSha1, crc: Crc32)
    requires |transactionId| == TRANSACTION_ID_LENGTH && 400 <= code <= 401
    ensures Encode(ErrorResponse(transactionId, code, ReasonFor(code), pwd, hmac, crc)) ==
            Some(SumBytes(HeaderBytes(0x111, 28, transactionId) + ErrorBytes(code - 400, ReasonFor(code)), crc))
  {
    hide Body, Wire, Encode, SumBytes, HeaderBytes, Fingerprinted, ErrorResponse, UnsignedError, ErrorBytes, ReasonFor;
    var m := UnsignedError(transactionId, code, ReasonFor(code));
    RefusalIs(transactionId, code, pwd, hmac, crc);
    ReasonSize(code);
    ErrorWire(m.attrs[0], code - 400, ReasonFor(code));
    BodyOfOne(m.attrs[0]);
    FingerprintedBytes(m, crc);
  }

  lemma ReasonSize(code: nat)
    ensures |ReasonFor(code)| == 11
  {
  }

  lemma RefusalIs(transactionId: seq<byte>, code: nat, pwd: seq<byte>, hmac: HmacSha1, crc: Crc32)
    requires |transactionId| == TRANSACTION_ID_LENGTH && 400 <= code <= 401
    ensures var m := UnsignedError(transactionId, code, ReasonFor(code));
            && m.attrs == [ErrorCode(ATTR_ERROR_CODE, 4, code - 400, ReasonFor(code))]
            && m.typ == 0x111 && m.transactionId == transactionId
            && Counted(m) && AllWritable(m.attrs)
            && ErrorResponse(transactionId, code, ReasonFor(code), pwd, hmac, crc) == Fingerprinted(m, crc)
  {
    hide Counted, Body, Fingerprinted, ReasonFor;
    FreshIsCounted(BINDING_ERROR_RESPONSE, transactionId);
    CountedAdd(Fresh(BINDING_ERROR_RESPONSE, transactionId),
               ErrorCode(ATTR_ERROR_CODE, (code / 100) % 0x100, code % 100, ReasonFor(code)));
  }

  lemma ErrorWire(a: Attribute, number: byte, reason: seq<byte>)
    requires |reason| == 11 && number < 100 && a == ErrorCode(ATTR_ERROR_CODE, 4, number, reason)
    ensures Wire(a) == ErrorBytes(number, reason) && |Wire(a)| == 20
  {
    hide Be32, Repeat;
    ErrorNumber(number);
    AppendAssoc([0, 9, 0, 15], [0, 0, 4, number] + reason, Zeros(1));
    AppendAssoc([0, 9, 0, 15], [0, 0, 4, number], reason);
  }

  lemma ErrorNumber(number: byte)
    requires number < 100
    ensures Be32(0x400 + number) == [0, 0, 4, number]
  {
  }

  /** A message with only a fingerprint is read back without an integrity attribute. */
  lemma FingerprintedReads(m: Message, crc: Crc32)
    requires Signable(m) && Visible(m.attrs) == []
    requires |Body(m.attrs)| + FINGERPRINT_ATTRIBUTE_SIZE < 0x1_0000
    ensures var f := AfterAddFingerprint(m, crc);
            && Encode(f).Some? && FingerprintHolds(Encode(f).value, crc)
            && Parse(Encode(f).value) == Some(Parsed(m.typ, f.length, m.transactionId, []))
  {
    hide Encode, Parse, Body, FingerprintHolds, Visible, Low16, FingerprintOf, Wire;
    var fp := FingerprintOf(m, crc);
    FingerprintVerifies(m, crc);
    FingerprintedShape(m, crc);
    FingerprintIsSkipped(m, crc);
    VisibleAppend(m.attrs, [fp]);
    ReadUndoesWrite(Fingerprinted(m, crc));
  }

  lemma FingerprintIsSkipped(m: Message, crc: Crc32)
    requires AllWritable(m.attrs)
    ensures KindMatches(FingerprintOf(m, crc)) && Visible([FingerprintOf(m, crc)]) == []
  {
    var fp := FingerprintOf(m, crc);
    assert [fp][1..] == [];
  }

  // ---- Pending requests --------------------------------------------------------------------------------

  /** `sentAt` is the clock when the request was written. */
  datatype Request = Request(id: seq<byte>, typ: uint16, sentAt: int)

  datatype Outcome = Unmatched | Mistyped(request: Request) | Succeeded(request: Request) | Failed(request: Request)

  function OutcomeOf(pending: map<seq<byte>, Request>, id: seq<byte>, typ: uint16): Outcome {
    if id !in pending then Unmatched
    else if typ == SuccessResponseType(pending[id].typ) then Succeeded(pending[id])
    else if typ == ErrorResponseType(pending[id].typ) then Failed(pending[id])
    else Mistyped(pending[id])
  }

  class StunRequestManager {
    var requests: map<seq<byte>, Request>

    predicate Valid()
      reads `requests
    {
      forall id :: id in requests ==> requests[id].id == id
    }

    constructor ()
      ensures requests == map[]
    {
      requests := map[];
    }

    method Send(request: Request)
      requires Valid()
      modifies `requests
      ensures Valid() && requests == old(requests)[request.id := request]
    {
      requests := requests[request.id := request];
    }

    /** The destructor of a request takes it out of its manager. */
    method Remove(request: Request)
      requires Valid()
      modifies `requests
      ensures Valid() && requests == old(requests) - {request.id}
    {
      if request.id in requests {
        requests := requests - {request.id};
      }
    }

    /** Whatever the response says, the request it matches is destroyed. */
    method CheckResponse(message: Message) returns (outcome: Outcome)
      requires Valid()
      modifies `requests
      ensures Valid() && outcome == OutcomeOf(old(requests), message.transactionId, message.typ)
      ensures requests == old(requests) - {message.transactionId}
    {
      if message.transactionId !in requests {
        return Unmatched;
      }
      var request := requests[message.transactionId];
      if message.typ == SuccessResponseType(request.typ) {
        outcome := Succeeded(request);
      } else if message.typ == ErrorResponseType(request.typ) {
        outcome := Failed(request);
      } else {
        outcome := Mistyped(request);
      }
      Remove(request);
    }
  }

  datatype ManagerEvent = Sent(request: Request) | Responded(id: seq<byte>, typ: uint16)

  function AfterEvent(pending: map<seq<byte>, Request>, event: ManagerEvent): map<seq<byte>, Request> {
    match event
    case Sent(request) => pending[request.id := request]
    case Responded(id, _) => pending - {id}
  }

  function AfterEvents(pending: map<seq<byte>, Request>, events: seq<ManagerEvent>): map<seq<byte>, Request>
    decreases |events|
  {
    if events == [] then pending else AfterEvents(AfterEvent(pending, events[0]), events[1..])
  }

  function SendsOf(id: seq<byte>, events: seq<ManagerEvent>): nat {
    if events == [] then 0
    else (if events[0].Sent? && events[0].request.id == id then 1 else 0) + SendsOf(id, events[1..])
  }

  /** Requests with this id that a later request with the same id displaced. */
  function ReplacedOf(id: seq<byte>, pending: map<seq<byte>, Request>, events: seq<ManagerEvent>): nat
    decreases |events|
  {
    if events == [] then 0
    else (if events[0].Sent? && events[0].request.id == id && id in pending then 1 else 0)
         + ReplacedOf(id, AfterEvent(pending, events[0]), events[1..])
  }

  /** Responses to this id that reached a request, with the callback of their type or none. */
  function SettledOf(id: seq<byte>, pending: map<seq<byte>, Request>, events: seq<ManagerEvent>): nat
    decreases |events|
  {
    if events == [] then 0
    else (if events[0].Responded? && events[0].id == id && !OutcomeOf(pending, id, events[0].typ).Unmatched?
          then 1 else 0)
         + SettledOf(id, AfterEvent(pending, events[0]), events[1..])
  }

  /** Over any run, every request sent is settled once, displaced, or still pending. */
  lemma {:induction false} RequestsAreConserved(id: seq<byte>, pending: map<seq<byte>, Request>,
                                                events: seq<ManagerEvent>)
    ensures (if id in pending then 1 else 0) + SendsOf(id, events) ==
            SettledOf(id, pending, events) + ReplacedOf(id, pending, events)
            + (if id in AfterEvents(pending, events) then 1 else 0)
    decreases |events|
  {
    if events != [] {
      RequestsAreConserved(id, AfterEvent(pending, events[0]), events[1..]);
    }
  }

  /** A request sent once is answered at most once, however often its response arrives. */
  lemma DeliveredAtMostOnce(id: seq<byte>, events: seq<ManagerEvent>)
    requires SendsOf(id, events) <= 1
    ensures SettledOf(id, map[], events) <= 1
    ensures SettledOf(id, map[], events) == 1 ==> id !in AfterEvents(map[], events)
  {
    RequestsAreConserved(id, map[], events);
  }

  // ---- End to end ----------------------------------------------------------------------------------------

  datatype PacketAction =
    | PassOn
    | Drop
    | Unauthorized(transactionId: seq<byte>)
    | Answer(request: Message)
    | Settle(response: Message)

  /** `IceConnection::on_read_packet`. */
  function ActionFor(data: seq<byte>, port: IceParameters, remote: IceParameters, hmac: HmacSha1, crc: Crc32)
    : PacketAction
  {
    match StunInputOf(data, port, hmac, crc)
    case NotStun => PassOn
    case Refused(_, _) => Drop
    case Accepted(m, ufrag) =>
      if m.typ == BINDING_REQUEST then
        if ufrag != remote.ufrag then Unauthorized(m.transactionId) else Answer(m)
      else if m.typ == BINDING_RESPONSE || m.typ == BINDING_ERROR_RESPONSE then
        if Validated(m, remote.pwd, hmac).integrity == IntegrityOk then Settle(Validated(m, remote.pwd, hmac)) else Drop
      else Drop
  }

  /**
   * What a pair does with any datagram. It answers exactly the authenticated requests that name both fragments, and
   * takes for a response exactly what carries a digest made with the peer's key.
   */
  lemma ActionVerdict(data: seq<byte>, port: IceParameters, remote: IceParameters, hmac: HmacSha1, crc: Crc32)
    ensures var action := ActionFor(data, port, remote, hmac, crc);
            var fine := FingerprintHolds(data, crc) && Parse(data).Some?;
            && (action.PassOn? <==> !fine)
            && (fine ==>
                  var p := Parse(data).value;
                  var signed := !HasNo(p.attrs, ATTR_MESSAGE_INTEGRITY);
                  && (action.Answer? <==> p.typ == 1 && signed && IntegrityHolds(data, port.pwd, hmac)
                                          && IsNamed(p.attrs, port.ufrag, remote.ufrag))
                  && (action.Settle? <==> p.typ in {0x101, 0x111} && signed && IntegrityHolds(data, remote.pwd, hmac))
                  && (action.Answer? ==> action.request.attrs == p.attrs
                                         && action.request.transactionId == p.transactionId)
                  && (action.Settle? ==> action.response.typ == p.typ
                                         && action.response.transactionId == p.transactionId))
  {
    RequestVerdict(data, port, hmac, crc);
    if FingerprintHolds(data, crc) && Parse(data).Some? {
      var attrs := Parse(data).value.attrs;
      FindsTheFirst(attrs, ATTR_MESSAGE_INTEGRITY);
      OneName(attrs, port.ufrag, remote.ufrag);
    }
    hide IntegrityHolds, FingerprintHolds, Parse, FindAttribute, HasNo;
  }

  /** Two readings of a user name that agree on the port's fragment agree. */
  lemma OneName(attrs: seq<Attribute>, ours: seq<byte>, theirs: seq<byte>)
    ensures IsNamed(attrs, ours, theirs) ==> forall other :: IsNamed(attrs, ours, other) ==> other == theirs
  {
    forall other | IsNamed(attrs, ours, theirs) && IsNamed(attrs, ours, other)
      ensures other == theirs
    {
      AppendParts(ours + [COLON], other);
      AppendParts(ours + [COLON], theirs);
    }
  }

  /** A pending binding request succeeds on 0x0101 and fails on 0x0111; any other type settles it without a callback. */
  lemma OutcomeByType(pending: map<seq<byte>, Request>, id: seq<byte>, typ: uint16)
    ensures OutcomeOf(pending, id, typ) == Unmatched <==> id !in pending
    ensures id in pending && pending[id].typ == 1 ==>
              OutcomeOf(pending, id, typ) ==
              if typ == 0x101 then Succeeded(pending[id])
              else if typ == 0x111 then Failed(pending[id])
              else Mistyped(pending[id])
  {
  }

  /**
   * The whole check between two agents that hold each other's credentials: the request is answered, the IPv4 answer
   * settles exactly the pending request as a success, and the same answer arriving again settles nothing.
   */
  lemma CheckTransaction(transactionId: seq<byte>, sender: IceParameters, receiver: IceParameters, priority: uint32,
                         address: Address, pending: map<seq<byte>, Request>, hmac: HmacSha1, crc: Crc32)
    requires |transactionId| == TRANSACTION_ID_LENGTH && |sender.ufrag| + |receiver.ufrag| < 65472
    requires COLON !in sender.ufrag && COLON !in receiver.ufrag
    requires address.Inet4?
    requires transactionId in pending && pending[transactionId].typ == BINDING_REQUEST
    ensures var request := BindingRequest(transactionId, receiver, sender.ufrag, priority, hmac, crc);
            && Encode(request).Some?
            && var action := ActionFor(Encode(request).value, receiver, sender, hmac, crc);
            && action.Answer? && action.request.transactionId == transactionId
            && FindAttribute(action.request.attrs, ATTR_USERNAME).Some?
    ensures var response := SuccessResponse(transactionId, address, receiver.pwd, hmac, crc);
            && Encode(response).Some?
            && var action := ActionFor(Encode(response).value, sender, receiver, hmac, crc);
            && action.Settle?
            && OutcomeOf(pending, action.response.transactionId, action.response.typ) ==
               Succeeded(pending[transactionId])
            && var later := AfterEvent(pending, Responded(action.response.transactionId, action.response.typ));
               OutcomeOf(later, action.response.transactionId, action.response.typ) == Unmatched
  {
    hide BindingRequest, SuccessResponse, Encode, StunInputOf, FindAttribute, SignedPart, SignedPartOfResponse;
    hide IntegrityHolds;
    RequestAtPort(transactionId, receiver, sender.ufrag, priority, receiver, hmac, crc);
    ResponseAtSender(transactionId, address, receiver.pwd, receiver.pwd, sender, hmac, crc);
  }
}
