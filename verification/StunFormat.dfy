/** STUN messages: the codec, MESSAGE-INTEGRITY and FINGERPRINT of RFC 5389, over arbitrary HMAC and CRC functions. */
module StunFormat {
  import opened Octets
  import opened StunAttributes

  const HEADER_SIZE: nat := 20
  const TRANSACTION_ID_LENGTH: nat := 12
  const FINGERPRINT_XOR_VALUE: uint32 := 0x5354554e
  const FINGERPRINT_ATTRIBUTE_SIZE: nat := 8
  const INTEGRITY_ATTRIBUTE_SIZE: nat := ATTRIBUTE_HEADER_SIZE + MESSAGE_INTEGRITY_SIZE

  const BINDING_REQUEST: uint16 := 0x0001
  const BINDING_RESPONSE: uint16 := 0x0101
  const BINDING_ERROR_RESPONSE: uint16 := 0x0111

  type Digest = d: seq<byte> | |d| == 20 witness Zeros(20)
  type HmacSha1 = (seq<byte>, seq<byte>) -> Digest
  type Crc32 = seq<byte> -> uint32

  datatype Integrity = NotSet | IntegrityOk | IntegrityBad

  datatype Message = Message(typ: uint16, length: uint16, transactionId: seq<byte>, attrs: seq<Attribute>,
                             integrity: Integrity, password: seq<byte>, buffer: seq<byte>)

  const EMPTY_MESSAGE := Message(0, 0, Repeat(48, TRANSACTION_ID_LENGTH), [], NotSet, [], [])

  // ---- Types ------------------------------------------------------------------------------------

  predicate IsRequestType(typ: uint16) {
    (typ / 0x10) % 2 == 0 && (typ / 0x100) % 2 == 0
  }

  /** The response type, or -1 for a type that is not a request. Both bits are clear in a request, so or is plus. */
  function SuccessResponseType(typ: uint16): int {
    if IsRequestType(typ) then typ + 0x100 else -1
  }

  function ErrorResponseType(typ: uint16): int {
    if IsRequestType(typ) then typ + 0x110 else -1
  }

  /** The bit the reader refuses: it marks RTP and RTCP packets. */
  predicate LooksLikeRtp(typ: uint16) {
    (typ / 0x800) % 2 == 1
  }

  // ---- Specification of the codec ---------------------------------------------------------------

  function Header(typ: uint16, length: uint16, transactionId: seq<byte>): seq<byte> {
    Be16(typ) + Be16(length) + Be32(MAGIC_COOKIE) + transactionId
  }

  function Added(m: Message, a: Attribute): Message {
    m.(length := Low16(m.length + Footprint(a)), attrs := m.attrs + [a])
  }

  function AddedAll(m: Message, attrs: seq<Attribute>): Message
    decreases |attrs|
  {
    if attrs == [] then m else AddedAll(Added(m, attrs[0]), attrs[1..])
  }

  function Encode(m: Message): Option<seq<byte>> {
    if AllWritable(m.attrs) then Some(Header(m.typ, m.length, m.transactionId) + Body(m.attrs)) else None
  }

  datatype Parsed = Parsed(typ: uint16, length: uint16, transactionId: seq<byte>, attrs: seq<Attribute>)

  function Parse(data: seq<byte>): Option<Parsed> {
    if |data| < HEADER_SIZE || LooksLikeRtp(GetBe16(data, 0)) then None
    else if |data| - HEADER_SIZE != GetBe16(data, 2) then None
    else
      var transactionId := if GetBe32(data, 4) == MAGIC_COOKIE then data[8..20] else data[4..20];
      match ParseAttributes(data[20..])
      case None => None
      case Some(attrs) => Some(Parsed(GetBe16(data, 0), GetBe16(data, 2), transactionId, attrs))
  }

  /** A message is read exactly when bit 11 of its type is clear, its length counts the rest and attributes parse. */
  lemma HeaderRead(data: seq<byte>)
    ensures Parse(data).Some? <==>
            && |data| >= 20 && !Bit(GetBe16(data, 0), 11) && |data| == 20 + GetBe16(data, 2)
            && ParseAttributes(data[20..]).Some?
    ensures Parse(data).Some? ==>
              var p := Parse(data).value;
              && p.typ == GetBe16(data, 0) && Some(p.attrs) == ParseAttributes(data[20..])
              && p.transactionId == if data[4..8] == [0x21, 0x12, 0xA4, 0x42] then data[8..20] else data[4..20]
  {
    if |data| >= 20 {
      BitEleven(GetBe16(data, 0));
      assert data[4..8] == [data[4], data[5], data[6], data[7]];
      assert GetBe32(data, 4) == 0x2112A442 <==> data[4..8] == [0x21, 0x12, 0xA4, 0x42];
    }
  }

  lemma BitEleven(n: uint16)
    ensures Bit(n, 11) <==> LooksLikeRtp(n)
  {
    BitDown4(n, 11);
    BitDown4(n / 0x10, 7);
    assert Bit(n / 0x100, 3) <==> Bit(n / 0x200, 2);
    assert Bit(n / 0x200, 2) <==> Bit(n / 0x400, 1);
    assert Bit(n / 0x400, 1) <==> Bit(n / 0x800, 0);
  }

  /** The message `read` leaves behind when it succeeds on a fresh object. */
  function Received(data: seq<byte>, p: Parsed): Message {
    Message(p.typ, p.length, p.transactionId, p.attrs, NotSet, [], data)
  }

  function FindAttribute(attrs: seq<Attribute>, typ: uint16): Option<Attribute> {
    if attrs == [] then None
    else if attrs[0].typ == typ then Some(attrs[0])
    else FindAttribute(attrs[1..], typ)
  }

  // ---- Specification of integrity and fingerprint ------------------------------------------------

  const INTEGRITY_PLACEHOLDER := ByteString(ATTR_MESSAGE_INTEGRITY, Repeat(48, MESSAGE_INTEGRITY_SIZE))

  /** The bytes written so far, under a header that already counts `more` bytes to come. */
  function PrefixWith(m: Message, more: nat): seq<byte>
    requires AllWritable(m.attrs)
  {
    Header(m.typ, Low16(m.length + more), m.transactionId) + Body(m.attrs)
  }

  function IntegrityOf(m: Message, password: seq<byte>, hmac: HmacSha1): Attribute
    requires AllWritable(m.attrs)
  {
    ByteString(ATTR_MESSAGE_INTEGRITY, hmac(password, PrefixWith(m, INTEGRITY_ATTRIBUTE_SIZE)))
  }

  function FingerprintOf(m: Message, crc: Crc32): Attribute
    requires AllWritable(m.attrs)
  {
    UInt32(ATTR_FINGERPRINT, Xor32(crc(PrefixWith(m, FINGERPRINT_ATTRIBUTE_SIZE)), FINGERPRINT_XOR_VALUE))
  }

  /**
   * The signed message: the HMAC covers the header, with the length as if MESSAGE-INTEGRITY came last,
   * and every attribute before it.
   */
  function Signed(m: Message, password: seq<byte>, hmac: HmacSha1): Message
    requires AllWritable(m.attrs)
  {
    Message(m.typ, Low16(m.length + INTEGRITY_ATTRIBUTE_SIZE), m.transactionId,
            m.attrs + [IntegrityOf(m, password, hmac)],
            IntegrityOk, password, m.buffer)
  }

  function AfterAddMessageIntegrity(m: Message, password: seq<byte>, hmac: HmacSha1): Message {
    if AllWritable(m.attrs) then Signed(m, password, hmac) else Added(m, INTEGRITY_PLACEHOLDER)
  }

  function Fingerprinted(m: Message, crc: Crc32): Message
    requires AllWritable(m.attrs)
  {
    Message(m.typ, Low16(m.length + FINGERPRINT_ATTRIBUTE_SIZE), m.transactionId,
            m.attrs + [FingerprintOf(m, crc)],
            m.integrity, m.password, m.buffer)
  }

  function AfterAddFingerprint(m: Message, crc: Crc32): Message {
    if AllWritable(m.attrs) then Fingerprinted(m, crc) else Added(m, UInt32(ATTR_FINGERPRINT, 0))
  }

  predicate FingerprintHolds(data: seq<byte>, crc: Crc32) {
    && |data| % 4 == 0 && |data| >= HEADER_SIZE + FINGERPRINT_ATTRIBUTE_SIZE
    && GetBe32(data, 4) == MAGIC_COOKIE
    && var at := |data| - FINGERPRINT_ATTRIBUTE_SIZE;
    && GetBe16(data, at) == ATTR_FINGERPRINT
    && GetBe16(data, at + 2) == 4
    && Xor32(GetBe32(data, at + 4), FINGERPRINT_XOR_VALUE) == crc(data[..at])
  }

  /** Where the walk over attribute headers, started at `at`, first meets the type. */
  function Walk(data: seq<byte>, at: nat, typ: uint16): Option<nat>
    decreases |data| - at
  {
    if at + ATTRIBUTE_HEADER_SIZE > |data| then None
    else if GetBe16(data, at) == typ then Some(at)
    else
      var n: nat := GetBe16(data, at + 2);
      Walk(data, at + ATTRIBUTE_HEADER_SIZE + n + Padding(n), typ)
  }

  /** The bytes the HMAC covers when MESSAGE-INTEGRITY starts at `at`: the length field ends with that attribute. */
  function Covered(data: seq<byte>, at: nat): seq<byte>
    requires HEADER_SIZE <= at <= |data|
  {
    if |data| > at + INTEGRITY_ATTRIBUTE_SIZE
    then data[..2] + Be16(Low16(at + INTEGRITY_ATTRIBUTE_SIZE - HEADER_SIZE)) + data[4..at]
    else data[..at]
  }

  predicate IntegrityHolds(data: seq<byte>, password: seq<byte>, hmac: HmacSha1) {
    && |data| % 4 == 0 && |data| >= HEADER_SIZE
    && GetBe16(data, 2) + HEADER_SIZE == |data|
    && Walk(data, HEADER_SIZE, ATTR_MESSAGE_INTEGRITY).Some?
    && DigestMatches(data, Walk(data, HEADER_SIZE, ATTR_MESSAGE_INTEGRITY).value, password, hmac)
  }

  predicate DigestMatches(data: seq<byte>, at: nat, password: seq<byte>, hmac: HmacSha1) {
    && HEADER_SIZE <= at
    && at + INTEGRITY_ATTRIBUTE_SIZE <= |data|
    && data[at + 4..at + 24] == hmac(password, Covered(data, at))
  }

  function Validated(m: Message, password: seq<byte>, hmac: HmacSha1): Message {
    m.(password := password,
       integrity := if FindAttribute(m.attrs, ATTR_MESSAGE_INTEGRITY) == None then NotSet
                    else if IntegrityHolds(m.buffer, password, hmac) then IntegrityOk
                    else IntegrityBad)
  }

  // ---- The length field over any sequence of additions --------------------------------------------

  /** The length field follows the wire size modulo 2^16. */
  predicate Counted(m: Message) {
    AllWritable(m.attrs) ==> m.length == Low16(|Body(m.attrs)|)
  }

  lemma CountedAdd(m: Message, a: Attribute)
    requires Counted(m)
    ensures Counted(Added(m, a))
  {
    if AllWritable(m.attrs + [a]) {
      assert (m.attrs + [a])[|m.attrs|] == a;
      assert forall i :: 0 <= i < |m.attrs| ==> (m.attrs + [a])[i] == m.attrs[i];
      CountedAddWritable(m, a);
    }
  }

  lemma CountedAddWritable(m: Message, a: Attribute)
    requires Counted(m) && AllWritable(m.attrs) && Writable(a)
    ensures Added(m, a).length == Low16(|Body(m.attrs + [a])|)
  {
    hide Wire, Body, Footprint, Low16;
    BodyAppend(m.attrs, [a]);
    BodyOfOne(a);
    LengthAdds(m, a);
  }

  lemma LengthAdds(m: Message, a: Attribute)
    requires AllWritable(m.attrs) && Writable(a) && m.length == Low16(|Body(m.attrs)|)
    ensures Low16(m.length + Footprint(a)) == Low16(|Body(m.attrs)| + |Wire(a)|)
  {
    WireSize(a);
    SumCut(|Body(m.attrs)|, |Wire(a)|, Footprint(a));
  }

  lemma SumCut(n: nat, x: nat, y: nat)
    requires Low16(x) == Low16(y)
    ensures Low16(Low16(n) + y) == Low16(n + x)
  {
  }

  predicate HasWholeWords(m: Message, data: seq<byte>) {
    |data| >= HEADER_SIZE && |data| % 4 == 0 && m.length == Low16(|data| - HEADER_SIZE)
  }

  /** However a message was built, its wire form is 20 bytes plus a body of whole words that its length field counts. */
  lemma {:induction false} WrittenSize(m: Message, attrs: seq<Attribute>)
    requires Counted(m) && AllWritable(AddedAll(m, attrs).attrs) && |m.transactionId| == TRANSACTION_ID_LENGTH
    ensures var built := AddedAll(m, attrs);
            && Counted(built) && built.attrs == m.attrs + attrs
            && Encode(built).Some? && HasWholeWords(built, Encode(built).value)
    decreases |attrs|
  {
    if attrs == [] {
      assert m.attrs + attrs == m.attrs;
      WrittenSizeOf(m);
    } else {
      CountedAdd(m, attrs[0]);
      WrittenSize(Added(m, attrs[0]), attrs[1..]);
      assert [attrs[0]] + attrs[1..] == attrs;
      AppendAssoc(m.attrs, [attrs[0]], attrs[1..]);
    }
  }

  lemma WrittenSizeOf(m: Message)
    requires Counted(m) && AllWritable(m.attrs) && |m.transactionId| == TRANSACTION_ID_LENGTH
    ensures Encode(m).Some? && HasWholeWords(m, Encode(m).value)
  {
    var data := Header(m.typ, m.length, m.transactionId) + Body(m.attrs);
    EncodedAs(m, data);
    BodyIsAligned(m.attrs);
    HeaderFields(m.typ, m.length, m.transactionId, Body(m.attrs));
  }

  // ---- Read undoes write ---------------------------------------------------------------------------

  lemma HeaderFields(typ: uint16, length: uint16, transactionId: seq<byte>, rest: seq<byte>)
    requires |transactionId| == TRANSACTION_ID_LENGTH
    ensures |Header(typ, length, transactionId)| == HEADER_SIZE
    ensures var data := Header(typ, length, transactionId) + rest;
            && |data| == HEADER_SIZE + |rest| && |data| % 4 == |rest| % 4
            && GetBe16(data, 0) == typ && GetBe16(data, 2) == length && GetBe32(data, 4) == MAGIC_COOKIE
  {
    var data := Header(typ, length, transactionId) + rest;
    var before := Be16(typ) + Be16(length);
    assert data == before + Be32(MAGIC_COOKIE) + (transactionId + rest);
    GetBe32Reads(before, MAGIC_COOKIE, transactionId + rest);
  }

  lemma HeaderParts(typ: uint16, length: uint16, transactionId: seq<byte>, rest: seq<byte>)
    requires |transactionId| == TRANSACTION_ID_LENGTH
    ensures var data := Header(typ, length, transactionId) + rest;
            data[8..20] == transactionId && data[20..] == rest
  {
  }

  /**
   * A written message is read back exactly when its type is not an RTP look-alike and its body fits the 16-bit length;
   * the reader then restores the type, the transaction id and the attributes it knows.
   */
  lemma ReadUndoesWrite(m: Message)
    requires Counted(m) && AllWritable(m.attrs) && AllKindsMatch(m.attrs)
    requires |m.transactionId| == TRANSACTION_ID_LENGTH
    ensures Encode(m).Some?
    ensures Parse(Encode(m).value) ==
            if !LooksLikeRtp(m.typ) && |Body(m.attrs)| < 0x1_0000
            then Some(Parsed(m.typ, m.length, m.transactionId, Visible(m.attrs)))
            else None
  {
    hide Body, Visible, Low16, Header;
    HeaderFields(m.typ, m.length, m.transactionId, Body(m.attrs));
    HeaderParts(m.typ, m.length, m.transactionId, Body(m.attrs));
    if !LooksLikeRtp(m.typ) && |Body(m.attrs)| < 0x1_0000 {
      ParseBody(m.attrs);
      Low16Fits(|Body(m.attrs)|);
    }
  }

  // ---- Sign then verify ----------------------------------------------------------------------------

  predicate HasNo(attrs: seq<Attribute>, typ: uint16) {
    forall i :: 0 <= i < |attrs| ==> attrs[i].typ != typ
  }

  /** What is found is the first attribute of the type. */
  lemma {:induction false} FindsTheFirst(attrs: seq<Attribute>, typ: uint16)
    ensures match FindAttribute(attrs, typ)
            case None => HasNo(attrs, typ)
            case Some(a) => a.typ == typ && exists i :: 0 <= i < |attrs| && attrs[i] == a && HasNo(attrs[..i], typ)
  {
    if attrs != [] && attrs[0].typ != typ {
      FindsTheFirst(attrs[1..], typ);
      if FindAttribute(attrs, typ).Some? {
        var i :| 0 <= i < |attrs[1..]| && attrs[1..][i] == FindAttribute(attrs, typ).value
                 && HasNo(attrs[1..][..i], typ);
        assert attrs[..i + 1] == [attrs[0]] + attrs[1..][..i];
        assert attrs[i + 1] == attrs[1..][i];
      }
    } else if attrs != [] {
      assert attrs[0] == FindAttribute(attrs, typ).value && HasNo(attrs[..0], typ);
    }
  }

  lemma HasNoUnfolds(attrs: seq<Attribute>, typ: uint16)
    requires HasNo(attrs, typ) && attrs != []
    ensures attrs[0].typ != typ && HasNo(attrs[1..], typ)
  {
  }

  lemma WalkStep(before: seq<byte>, a: Attribute, rest: seq<byte>, typ: uint16)
    requires Writable(a) && a.typ != typ && |Wire(a)| < 0x1_0000
    ensures var data := before + Wire(a) + rest;
            Walk(data, |before|, typ) == Walk(data, |before + Wire(a)|, typ)
  {
    WireSize(a);
    hide Wire, Length, Padding, Low16, GetBe16;
  }

  /** The verifier's walk passes written attributes of other types one footprint at a time. */
  lemma {:induction false} WalkPasses(before: seq<byte>, attrs: seq<Attribute>, rest: seq<byte>, typ: uint16)
    requires AllWritable(attrs) && HasNo(attrs, typ) && |Body(attrs)| < 0x1_0000
    ensures var data := before + Body(attrs) + rest;
            Walk(data, |before|, typ) == Walk(data, |before + Body(attrs)|, typ)
    decreases |attrs|
  {
    if attrs == [] {
      assert before + Body(attrs) == before;
    } else {
      WalkPassesOne(before, attrs, rest, typ);
      WalkPasses(before + Wire(attrs[0]), attrs[1..], rest, typ);
    }
  }

  lemma WalkPassesOne(before: seq<byte>, attrs: seq<Attribute>, rest: seq<byte>, typ: uint16)
    requires attrs != [] && AllWritable(attrs) && HasNo(attrs, typ) && |Body(attrs)| < 0x1_0000
    ensures var data, next := before + Body(attrs) + rest, before + Wire(attrs[0]);
            && AllWritable(attrs[1..]) && HasNo(attrs[1..], typ) && |Body(attrs[1..])| < 0x1_0000
            && data == next + Body(attrs[1..]) + rest
            && before + Body(attrs) == next + Body(attrs[1..])
            && Walk(data, |before|, typ) == Walk(data, |next|, typ)
  {
    hide *;
    HasNoUnfolds(attrs, typ);
    BodyUnfolds(attrs);
    var a, tail := attrs[0], Body(attrs[1..]) + rest;
    WalkStep(before, a, tail, typ);
    AppendAssoc(before, Wire(a), Body(attrs[1..]));
    AppendAssoc(before + Wire(a), Body(attrs[1..]), rest);
  }

  lemma {:induction false} FindAppended(attrs: seq<Attribute>, more: seq<Attribute>, typ: uint16)
    ensures FindAttribute(attrs + more, typ) ==
            if FindAttribute(attrs, typ) == None then FindAttribute(more, typ) else FindAttribute(attrs, typ)
  {
    if attrs == [] {
      assert attrs + more == more;
    } else {
      AppendParts(attrs, more);
      FindAppended(attrs[1..], more, typ);
    }
  }

  /** What may be signed: an aligned, readable message without MESSAGE-INTEGRITY. */
  predicate Signable(m: Message) {
    && Counted(m) && AllWritable(m.attrs) && AllKindsMatch(m.attrs)
    && |m.transactionId| == TRANSACTION_ID_LENGTH
    && !LooksLikeRtp(m.typ)
    && HasNo(m.attrs, ATTR_MESSAGE_INTEGRITY)
  }

  function Finished(m: Message, password: seq<byte>, hmac: HmacSha1, crc: Crc32, withFingerprint: bool): Message {
    var s := AfterAddMessageIntegrity(m, password, hmac);
    if withFingerprint then AfterAddFingerprint(s, crc) else s
  }

  /** The attributes after MESSAGE-INTEGRITY in a finished message. */
  function AfterIntegrity(m: Message, password: seq<byte>, hmac: HmacSha1, crc: Crc32, withFingerprint: bool)
    : seq<Attribute>
    requires AllWritable(m.attrs)
  {
    if withFingerprint then [FingerprintOf(Signed(m, password, hmac), crc)] else []
  }

  lemma SignedShape(m: Message, password: seq<byte>, hmac: HmacSha1)
    requires Counted(m) && AllWritable(m.attrs)
    ensures var s := Signed(m, password, hmac);
            && AllWritable(s.attrs) && Counted(s)
            && |Wire(IntegrityOf(m, password, hmac))| == INTEGRITY_ATTRIBUTE_SIZE
            && Body(s.attrs) == Body(m.attrs) + Wire(IntegrityOf(m, password, hmac))
  {
    hide Body, Wire, Low16, PrefixWith, Footprint, AllWritable;
    FootprintOfFixed(IntegrityOf(m, password, hmac));
    AppendedShape(m, IntegrityOf(m, password, hmac));
  }

  lemma FootprintOfFixed(a: Attribute)
    requires a.UInt32? || (a.ByteString? && |a.bytes| == MESSAGE_INTEGRITY_SIZE)
    ensures Footprint(a) == |Wire(a)| == if a.UInt32? then FINGERPRINT_ATTRIBUTE_SIZE else INTEGRITY_ATTRIBUTE_SIZE
  {
  }

  lemma AppendedShape(m: Message, a: Attribute)
    requires Counted(m) && AllWritable(m.attrs) && Writable(a)
    ensures AllWritable(m.attrs + [a]) && Body(m.attrs + [a]) == Body(m.attrs) + Wire(a)
    ensures Low16(m.length + Footprint(a)) == Low16(|Body(m.attrs + [a])|)
  {
    CountedAddWritable(m, a);
    BodyAppend(m.attrs, [a]);
    BodyOfOne(a);
  }

  lemma FingerprintedShape(m: Message, crc: Crc32)
    requires Counted(m) && AllWritable(m.attrs)
    ensures var f := Fingerprinted(m, crc);
            && AllWritable(f.attrs) && Counted(f)
            && |Wire(FingerprintOf(m, crc))| == FINGERPRINT_ATTRIBUTE_SIZE
            && Body(f.attrs) == Body(m.attrs) + Wire(FingerprintOf(m, crc))
  {
    hide Body, Wire, Low16, PrefixWith, Footprint, AllWritable;
    FootprintOfFixed(FingerprintOf(m, crc));
    AppendedShape(m, FingerprintOf(m, crc));
  }

  /** The attributes of a finished message: what was there, the integrity attribute, then at most a fingerprint. */
  lemma FinishedShape(m: Message, password: seq<byte>, hmac: HmacSha1, crc: Crc32, withFingerprint: bool)
    requires Signable(m)
    ensures var f := Finished(m, password, hmac, crc, withFingerprint);
            var mi := IntegrityOf(m, password, hmac);
            var after := AfterIntegrity(m, password, hmac, crc, withFingerprint);
            && f.attrs == m.attrs + [mi] + after
            && AllWritable(after) && AllWritable(f.attrs) && AllKindsMatch(f.attrs) && Counted(f)
            && Body(f.attrs) == Body(m.attrs) + Wire(mi) + Body(after)
            && |Wire(mi)| == INTEGRITY_ATTRIBUTE_SIZE
            && |Body(after)| == (if withFingerprint then FINGERPRINT_ATTRIBUTE_SIZE else 0)
            && f.typ == m.typ && f.transactionId == m.transactionId
  {
    hide Wire, Low16, Header;
    SignedShape(m, password, hmac);
    var s := Signed(m, password, hmac);
    if withFingerprint {
      FingerprintedShape(s, crc);
      BodyOfOne(FingerprintOf(s, crc));
    }
  }

  /** The verifier's walk ends on MESSAGE-INTEGRITY and the bytes it hashes are the bytes that were signed. */
  lemma VerifierHashesSignedBytes(m: Message, password: seq<byte>, key: seq<byte>, hmac: HmacSha1, crc: Crc32,
                                  withFingerprint: bool)
    requires Signable(m)
    requires |Body(m.attrs)| + INTEGRITY_ATTRIBUTE_SIZE
             + (if withFingerprint then FINGERPRINT_ATTRIBUTE_SIZE else 0) < 0x1_0000
    ensures var f := Finished(m, password, hmac, crc, withFingerprint);
            var signed := PrefixWith(m, INTEGRITY_ATTRIBUTE_SIZE);
            && Encode(f).Some?
            && (IntegrityHolds(Encode(f).value, key, hmac) <==> hmac(password, signed) == hmac(key, signed))
  {
    var f := Finished(m, password, hmac, crc, withFingerprint);
    var mi := IntegrityOf(m, password, hmac);
    var after := AfterIntegrity(m, password, hmac, crc, withFingerprint);
    FinishedShape(m, password, hmac, crc, withFingerprint);
    hide *;
    DigestFound(m, f, mi, after, key, hmac);
  }

  lemma DigestFound(m: Message, f: Message, mi: Attribute, after: seq<Attribute>, key: seq<byte>, hmac: HmacSha1)
    requires AllWritable(m.attrs) && HasNo(m.attrs, ATTR_MESSAGE_INTEGRITY) && Counted(m)
    requires |m.transactionId| == TRANSACTION_ID_LENGTH && f.typ == m.typ && f.transactionId == m.transactionId
    requires mi.ByteString? && mi.typ == ATTR_MESSAGE_INTEGRITY && |mi.bytes| == MESSAGE_INTEGRITY_SIZE
    requires |Wire(mi)| == INTEGRITY_ATTRIBUTE_SIZE
    requires AllWritable(f.attrs) && AllWritable(after) && Counted(f)
    requires Body(f.attrs) == Body(m.attrs) + Wire(mi) + Body(after) && |Body(f.attrs)| < 0x1_0000
    ensures Encode(f).Some?
    ensures IntegrityHolds(Encode(f).value, key, hmac) <==>
            mi.bytes == hmac(key, PrefixWith(m, INTEGRITY_ATTRIBUTE_SIZE))
  {
    hide *;
    BytesAreWritable(mi);
    var body, rest := Body(f.attrs), Wire(mi) + Body(after);
    var data := Header(f.typ, f.length, f.transactionId) + body;
    EncodedAs(f, data);
    EncodedAs(m, Header(m.typ, m.length, m.transactionId) + Body(m.attrs));
    HeaderFields(f.typ, f.length, f.transactionId, body);
    BodyIsAligned(f.attrs);
    Low16Fits(|body|);
    AppendAssoc(Body(m.attrs), Wire(mi), Body(after));
    WalkReaches(Header(f.typ, f.length, f.transactionId), m.attrs, mi, Body(after));
    CoveredIsSigned(m, f, data, HEADER_SIZE + |Body(m.attrs)|, rest);
    IntegrityMeans(data, HEADER_SIZE + |Body(m.attrs)|, key, hmac);
  }

  lemma BytesAreWritable(a: Attribute)
    requires a.ByteString?
    ensures Writable(a)
  {
  }

  /** The walk passes the attributes before MESSAGE-INTEGRITY and stops on it. */
  lemma WalkReaches(header: seq<byte>, attrs: seq<Attribute>, mi: Attribute, after: seq<byte>)
    requires AllWritable(attrs) && HasNo(attrs, ATTR_MESSAGE_INTEGRITY) && |Body(attrs)| < 0x1_0000
    requires mi.ByteString? && mi.typ == ATTR_MESSAGE_INTEGRITY && |mi.bytes| == MESSAGE_INTEGRITY_SIZE
    ensures var data, at := header + (Body(attrs) + (Wire(mi) + after)), |header| + |Body(attrs)|;
            && Walk(data, |header|, ATTR_MESSAGE_INTEGRITY) == Some(at)
            && at + INTEGRITY_ATTRIBUTE_SIZE <= |data| && data[at + 4..at + 24] == mi.bytes
  {
    hide *;
    BytesAreWritable(mi);
    AppendAssoc(header, Body(attrs), Wire(mi) + after);
    AppendAssoc(header + Body(attrs), Wire(mi), after);
    WalkPasses(header, attrs, Wire(mi) + after, ATTR_MESSAGE_INTEGRITY);
    WalkFinds(header + Body(attrs), mi, after);
  }

  lemma EncodedAs(m: Message, data: seq<byte>)
    requires AllWritable(m.attrs) && Counted(m) && data == Header(m.typ, m.length, m.transactionId) + Body(m.attrs)
    ensures Encode(m) == Some(data) && m.length == Low16(|Body(m.attrs)|)
  {
  }

  lemma IntegrityMeans(data: seq<byte>, at: nat, key: seq<byte>, hmac: HmacSha1)
    requires |data| % 4 == 0 && |data| >= HEADER_SIZE && GetBe16(data, 2) + HEADER_SIZE == |data|
    requires Walk(data, HEADER_SIZE, ATTR_MESSAGE_INTEGRITY) == Some(at)
    requires HEADER_SIZE <= at && at + INTEGRITY_ATTRIBUTE_SIZE <= |data|
    ensures IntegrityHolds(data, key, hmac) <==> data[at + 4..at + 24] == hmac(key, Covered(data, at))
  {
  }

  lemma WalkFinds(before: seq<byte>, a: Attribute, rest: seq<byte>)
    requires a.ByteString? && |a.bytes| == MESSAGE_INTEGRITY_SIZE
    ensures var data, at := before + Wire(a) + rest, |before|;
            && Walk(data, at, a.typ) == Some(at)
            && at + INTEGRITY_ATTRIBUTE_SIZE <= |data| && data[at + 4..at + 24] == a.bytes
  {
    assert Wire(a) == Be16(a.typ) + Be16(20) + a.bytes;
  }

  /** Rewriting the length field gives back the header that was signed. */
  lemma CoveredIsSigned(m: Message, f: Message, data: seq<byte>, at: nat, rest: seq<byte>)
    requires AllWritable(m.attrs) && |m.transactionId| == TRANSACTION_ID_LENGTH
    requires f.typ == m.typ && f.transactionId == m.transactionId
    requires m.length == Low16(|Body(m.attrs)|)
    requires |rest| >= INTEGRITY_ATTRIBUTE_SIZE && |Body(m.attrs)| + INTEGRITY_ATTRIBUTE_SIZE < 0x1_0000
    requires f.length == |Body(m.attrs)| + |rest|
    requires data == Header(f.typ, f.length, f.transactionId) + (Body(m.attrs) + rest)
    requires at == HEADER_SIZE + |Body(m.attrs)|
    ensures Covered(data, at) == PrefixWith(m, INTEGRITY_ATTRIBUTE_SIZE)
  {
    hide Body, Header, Be16, Low16, Covered;
    var body := Body(m.attrs);
    var signed := m.length + INTEGRITY_ATTRIBUTE_SIZE;
    Low16Fits(|body|);
    Low16Fits(signed);
    HeaderSplits(m.typ, signed, m.transactionId, body);
    HeaderSplits(f.typ, f.length, f.transactionId, body);
    AppendAssoc(Header(f.typ, f.length, f.transactionId), body, rest);
    CoveredSplits(m.typ, f.length, HeaderTail(m.transactionId, body), rest);
  }

  function HeaderTail(transactionId: seq<byte>, body: seq<byte>): seq<byte> {
    Be32(MAGIC_COOKIE) + transactionId + body
  }

  lemma HeaderSplits(typ: uint16, length: uint16, transactionId: seq<byte>, body: seq<byte>)
    requires |transactionId| == TRANSACTION_ID_LENGTH
    ensures Header(typ, length, transactionId) + body == Be16(typ) + Be16(length) + HeaderTail(transactionId, body)
    ensures |HeaderTail(transactionId, body)| == 16 + |body|
  {
    AppendAssoc(Be16(typ) + Be16(length) + Be32(MAGIC_COOKIE), transactionId, body);
    AppendAssoc(Be16(typ) + Be16(length), Be32(MAGIC_COOKIE), transactionId + body);
    AppendAssoc(Be32(MAGIC_COOKIE), transactionId, body);
  }

  lemma CoveredSplits(typ: uint16, length: uint16, tail: seq<byte>, rest: seq<byte>)
    requires |tail| >= 16 && |tail| + 8 < 0x1_0000 && |rest| >= INTEGRITY_ATTRIBUTE_SIZE
    requires length == |tail| - 16 + |rest|
    ensures Covered(Be16(typ) + Be16(length) + tail + rest, 4 + |tail|) == Be16(typ) + Be16(|tail| + 8) + tail
  {
    var data, at := Be16(typ) + Be16(length) + tail + rest, 4 + |tail|;
    Low16Fits(at + INTEGRITY_ATTRIBUTE_SIZE - HEADER_SIZE);
    assert data[..2] == Be16(typ);
    assert data[4..at] == tail;
    assert data[..at] == Be16(typ) + Be16(length) + tail;
  }

  // ---- What the two checks mean for any bytes -------------------------------------------------------

  /** The check accepts exactly the whole words under the magic cookie whose end is the fingerprint of the rest. */
  lemma FingerprintIsAppended(data: seq<byte>, crc: Crc32)
    ensures FingerprintHolds(data, crc) <==>
            && |data| % 4 == 0 && |data| >= 28 && data[4..8] == [0x21, 0x12, 0xA4, 0x42]
            && var front := data[..|data| - 8];
               data[|data| - 8..] == [0x80, 0x28, 0, 4] + Be32(Xor32(crc(front), 0x5354554e))
  {
    if |data| >= 28 {
      var at := |data| - 8;
      var sum, tail := crc(data[..at]), data[at..];
      assert tail == data[at..at + 4] + data[at + 4..at + 8];
      assert |data[at..at + 4]| == 4;
      GetBe32Writes(data, at);
      GetBe32Writes(data, at + 4);
      GetBe32Writes(data, 4);
      GetBe32Reads([], 0x2112A442, []);
      GetBe32Reads([], 0x80280004, []);
      GetBe32Reads([], Xor32(sum, 0x5354554e), []);
      Xor32UndoesItself(sum, 0x5354554e);
      Xor32UndoesItself(GetBe32(data, at + 4), 0x5354554e);
      assert Be32(0x2112A442) == [0x21, 0x12, 0xA4, 0x42];
      assert Be32(0x80280004) == [0x80, 0x28, 0, 4];
      hide Xor32;
    }
  }

  /**
   * The check holds exactly when the message is whole and the 20 bytes of its first MESSAGE-INTEGRITY are the digest of
   * what stands before that attribute, under a header whose length counts up to its end.
   */
  lemma IntegrityIsDigest(data: seq<byte>, password: seq<byte>, hmac: HmacSha1)
    ensures IntegrityHolds(data, password, hmac) <==>
            && |data| % 4 == 0 && |data| >= 20 && |data| == 20 + GetBe16(data, 2)
            && match Walk(data, 20, ATTR_MESSAGE_INTEGRITY)
               case None => false
               case Some(at) =>
                 && 20 <= at && at + 24 <= |data|
                 && data[at + 4..at + 24] == hmac(password, data[..2] + Be16(Low16(at + 4)) + data[4..at])
  {
    hide Walk;
    var found := Walk(data, HEADER_SIZE, ATTR_MESSAGE_INTEGRITY);
    if |data| >= 44 && |data| == 20 + GetBe16(data, 2) && found == Some(|data| - 24) {
      assert Be16(Low16(found.value + 4)) == data[2..4];
      assert data[..found.value] == data[..2] + data[2..4] + data[4..found.value];
    }
  }

  /** A message finished with a fingerprint passes the fingerprint check, whatever it carries. */
  lemma FingerprintVerifies(m: Message, crc: Crc32)
    requires Counted(m) && AllWritable(m.attrs) && |m.transactionId| == TRANSACTION_ID_LENGTH
    ensures var f := Fingerprinted(m, crc);
            Encode(f).Some? && FingerprintHolds(Encode(f).value, crc)
  {
    FingerprintedShape(m, crc);
    FingerprintPatched(m, Fingerprinted(m, crc), FingerprintOf(m, crc), crc);
  }

  lemma FingerprintPatched(m: Message, f: Message, fp: Attribute, crc: Crc32)
    requires AllWritable(m.attrs) && |m.transactionId| == TRANSACTION_ID_LENGTH
    requires f.typ == m.typ && f.transactionId == m.transactionId
    requires f.length == Low16(m.length + FINGERPRINT_ATTRIBUTE_SIZE)
    requires fp == UInt32(ATTR_FINGERPRINT,
                          Xor32(crc(PrefixWith(m, FINGERPRINT_ATTRIBUTE_SIZE)), FINGERPRINT_XOR_VALUE))
    requires AllWritable(f.attrs) && Body(f.attrs) == Body(m.attrs) + Wire(fp) && Counted(f)
    requires |Wire(fp)| == FINGERPRINT_ATTRIBUTE_SIZE
    ensures Encode(f).Some? && FingerprintHolds(Encode(f).value, crc)
  {
    var header := Header(f.typ, f.length, f.transactionId);
    var data, covered := header + Body(f.attrs), header + Body(m.attrs);
    hide *;
    PrefixIs(m, FINGERPRINT_ATTRIBUTE_SIZE);
    EncodedAs(f, data);
    BodyIsAligned(f.attrs);
    HeaderFields(f.typ, f.length, f.transactionId, Body(f.attrs));
    HeaderFields(f.typ, f.length, f.transactionId, Body(m.attrs));
    AppendAssoc(header, Body(m.attrs), Wire(fp));
    FingerprintAtEnd(covered, fp, crc);
  }

  lemma PrefixIs(m: Message, more: nat)
    requires AllWritable(m.attrs)
    ensures PrefixWith(m, more) == Header(m.typ, Low16(m.length + more), m.transactionId) + Body(m.attrs)
  {
  }

  lemma FingerprintAtEnd(covered: seq<byte>, fp: Attribute, crc: Crc32)
    requires fp == UInt32(ATTR_FINGERPRINT, Xor32(crc(covered), FINGERPRINT_XOR_VALUE))
    requires (|covered| + 8) % 4 == 0 && |covered| >= HEADER_SIZE && GetBe32(covered, 4) == MAGIC_COOKIE
    ensures FingerprintHolds(covered + Wire(fp), crc)
  {
    var data := covered + Wire(fp);
    var front := covered + Be16(fp.typ) + Be16(4);
    assert data == front + Be32(fp.bits) + [];
    GetBe32Reads(front, fp.bits, []);
    Xor32UndoesItself(crc(covered), FINGERPRINT_XOR_VALUE);
    assert data[..|covered|] == covered;
  }

  /**
   * Sign, optionally fingerprint, write, read, verify, for every HMAC and every CRC: the reader accepts the bytes,
   * and the integrity check with a key says ok exactly when that key gives the signed bytes the signer's digest.
   */
  lemma SignThenVerify(m: Message, password: seq<byte>, key: seq<byte>, hmac: HmacSha1, crc: Crc32,
                       withFingerprint: bool)
    requires Signable(m)
    requires |Body(m.attrs)| + INTEGRITY_ATTRIBUTE_SIZE
             + (if withFingerprint then FINGERPRINT_ATTRIBUTE_SIZE else 0) < 0x1_0000
    ensures var f := Finished(m, password, hmac, crc, withFingerprint);
            var signed := PrefixWith(m, INTEGRITY_ATTRIBUTE_SIZE);
            && Encode(f).Some?
            && var data := Encode(f).value;
            && Parse(data).Some?
            && var p := Parse(data).value;
            && p.typ == m.typ && p.transactionId == m.transactionId
            && p.attrs == Visible(m.attrs) + [IntegrityOf(m, password, hmac)]
            && Validated(Received(data, p), key, hmac).integrity ==
               (if hmac(password, signed) == hmac(key, signed) then IntegrityOk else IntegrityBad)
            && (withFingerprint ==> FingerprintHolds(data, crc))
  {
    hide Body, Wire, Low16, Header, Encode, Parse, FingerprintHolds, IntegrityHolds, Visible;
    var f := Finished(m, password, hmac, crc, withFingerprint);
    var mi := IntegrityOf(m, password, hmac);
    var after := AfterIntegrity(m, password, hmac, crc, withFingerprint);
    FinishedShape(m, password, hmac, crc, withFingerprint);
    VerifierHashesSignedBytes(m, password, key, hmac, crc, withFingerprint);
    ReadUndoesWrite(f);
    VisibleInFinished(m.attrs, mi, after);
    if withFingerprint {
      SignedShape(m, password, hmac);
      FingerprintVerifies(Signed(m, password, hmac), crc);
    }
  }

  const COOKIE_BYTES: seq<byte> := [0x21, 0x12, 0xA4, 0x42]
  const INTEGRITY_HEADER: seq<byte> := [0, 8, 0, 20]
  const FINGERPRINT_HEADER: seq<byte> := [0x80, 0x28, 0, 4]

  /** The header of RFC 5389, section 6. */
  function HeaderBytes(typ: uint16, size: nat, transactionId: seq<byte>): seq<byte> {
    Be16(typ) + Be16(Low16(size)) + COOKIE_BYTES + transactionId
  }

  /** A message up to its MESSAGE-INTEGRITY, with the digest over the same bytes under the length they end at. */
  function DigestBytes(typ: uint16, transactionId: seq<byte>, body: seq<byte>, size: nat, password: seq<byte>,
                       hmac: HmacSha1): seq<byte> {
    HeaderBytes(typ, size, transactionId) + body + INTEGRITY_HEADER
    + hmac(password, HeaderBytes(typ, |body| + 24, transactionId) + body)
  }

  /** The fingerprint over everything before it. */
  function SumBytes(covered: seq<byte>, crc: Crc32): seq<byte> {
    covered + FINGERPRINT_HEADER + Be32(Xor32(crc(covered), 0x5354554e))
  }

  /** A message with its fingerprint, byte by byte. */
  lemma FingerprintedBytes(m: Message, crc: Crc32)
    requires Counted(m) && AllWritable(m.attrs) && |Body(m.attrs)| + 8 < 0x1_0000
    ensures Encode(Fingerprinted(m, crc)) ==
            Some(SumBytes(HeaderBytes(m.typ, |Body(m.attrs)| + 8, m.transactionId) + Body(m.attrs), crc))
  {
    var fp, n := FingerprintOf(m, crc), |Body(m.attrs)|;
    FingerprintedShape(m, crc);
    FingerprintIs(m, n, crc);
    hide *;
    var header := HeaderBytes(m.typ, n + 8, m.transactionId);
    EncodedAs(Fingerprinted(m, crc), header + Body(Fingerprinted(m, crc).attrs));
    AppendAssoc(header, Body(m.attrs), Wire(fp));
    AppendAssoc(header + Body(m.attrs), FINGERPRINT_HEADER, Be32(fp.bits));
  }

  lemma FingerprintIs(m: Message, n: nat, crc: Crc32)
    requires Counted(m) && AllWritable(m.attrs) && n == |Body(m.attrs)| && n + 8 < 0x1_0000
    ensures var fp, f := FingerprintOf(m, crc), Fingerprinted(m, crc);
            && fp.UInt32? && Wire(fp) == FINGERPRINT_HEADER + Be32(fp.bits)
            && f.typ == m.typ && f.transactionId == m.transactionId
            && Header(f.typ, f.length, f.transactionId) == HeaderBytes(m.typ, n + 8, m.transactionId)
            && var covered := HeaderBytes(m.typ, n + 8, m.transactionId) + Body(m.attrs);
               SumBytes(covered, crc) == covered + FINGERPRINT_HEADER + Be32(fp.bits)
  {
    Low16Fits(n);
    HeaderIs(m.typ, n + 8, m.transactionId);
    PrefixIs(m, 8);
    hide Header, HeaderBytes, Body, Xor32, Be32;
  }

  /** The finished message byte by byte: header, attributes, MESSAGE-INTEGRITY and FINGERPRINT, in that order. */
  lemma FinishedBytes(m: Message, password: seq<byte>, hmac: HmacSha1, crc: Crc32)
    requires Signable(m) && |Body(m.attrs)| + 32 < 0x1_0000
    ensures var body := Body(m.attrs);
            Encode(Finished(m, password, hmac, crc, true)) ==
            Some(SumBytes(DigestBytes(m.typ, m.transactionId, body, |body| + 32, password, hmac), crc))
  {
    var s, mi := Signed(m, password, hmac), IntegrityOf(m, password, hmac);
    var n := |Body(m.attrs)|;
    SignedShape(m, password, hmac);
    FingerprintedBytes(s, crc);
    DigestIs(m, n, password, hmac);
    assert Finished(m, password, hmac, crc, true) == Fingerprinted(s, crc);
    hide *;
    var header := HeaderBytes(m.typ, n + 32, m.transactionId);
    AppendAssoc(header, Body(m.attrs), Wire(mi));
    AppendAssoc(header + Body(m.attrs), INTEGRITY_HEADER, mi.bytes);
  }

  lemma DigestIs(m: Message, n: nat, password: seq<byte>, hmac: HmacSha1)
    requires Counted(m) && AllWritable(m.attrs) && n == |Body(m.attrs)| && n + 32 < 0x1_0000
    ensures var mi, s := IntegrityOf(m, password, hmac), Signed(m, password, hmac);
            && mi.ByteString? && Wire(mi) == INTEGRITY_HEADER + mi.bytes
            && s.typ == m.typ && s.transactionId == m.transactionId
            && DigestBytes(m.typ, m.transactionId, Body(m.attrs), n + 32, password, hmac) ==
               HeaderBytes(m.typ, n + 32, m.transactionId) + Body(m.attrs) + INTEGRITY_HEADER + mi.bytes
  {
    hide Header, HeaderBytes, Body, Low16, PrefixWith, Wire;
    Low16Fits(n);
    HeaderIs(m.typ, n + 24, m.transactionId);
    PrefixIs(m, 24);
    DigestWire(IntegrityOf(m, password, hmac));
  }

  lemma DigestWire(a: Attribute)
    requires a.ByteString? && a.typ == ATTR_MESSAGE_INTEGRITY && |a.bytes| == MESSAGE_INTEGRITY_SIZE
    ensures Wire(a) == INTEGRITY_HEADER + a.bytes
  {
  }

  lemma HeaderIs(typ: uint16, size: nat, transactionId: seq<byte>)
    ensures Header(typ, Low16(size), transactionId) == HeaderBytes(typ, size, transactionId)
  {
    assert Be32(0x2112A442) == COOKIE_BYTES;
  }

  lemma VisibleInFinished(attrs: seq<Attribute>, mi: Attribute, after: seq<Attribute>)
    requires mi.ByteString? && mi.typ == ATTR_MESSAGE_INTEGRITY && |mi.bytes| == MESSAGE_INTEGRITY_SIZE
    requires |after| <= 1 && (after != [] ==> GetAttributeValueType(after[0].typ).UnknownValue?)
    ensures Visible(attrs + [mi] + after) == Visible(attrs) + [mi]
    ensures FindAttribute(Visible(attrs) + [mi], ATTR_MESSAGE_INTEGRITY) != None
  {
    VisibleAppend(attrs + [mi], after);
    VisibleAppend(attrs, [mi]);
    assert Visible([mi]) == VisibleOne(mi) + Visible([]) by { assert [mi][1..] == []; }
    assert Length(mi) == 20 && mi.bytes[..20] == mi.bytes;
    assert Visible(after) == [] by {
      assert after != [] ==> after[1..] == [];
    }
    FindAppended(Visible(attrs), [mi], ATTR_MESSAGE_INTEGRITY);
  }
}
