/**
 * STUN attributes (RFC 5389, section 15): their length fields, their bytes on the wire, how the reader sees them, and
 * which bytes it accepts. An attribute is a type, a length and a value that padding brings to a multiple of four bytes;
 * the length field counts the value without it.
 */
module StunAttributes {
  import opened Octets

  const ATTR_USERNAME: uint16 := 0x0006
  const ATTR_MESSAGE_INTEGRITY: uint16 := 0x0008
  const ATTR_ERROR_CODE: uint16 := 0x0009
  const ATTR_XOR_MAPPED_ADDRESS: uint16 := 0x0020
  const ATTR_PRIORITY: uint16 := 0x0024
  const ATTR_USE_CANDIDATE: uint16 := 0x0025
  const ATTR_FINGERPRINT: uint16 := 0x8028
  const ATTR_ICE_CONTROLLING: uint16 := 0x802A

  const ATTRIBUTE_HEADER_SIZE: nat := 4
  const MESSAGE_INTEGRITY_SIZE: nat := 20
  const MAGIC_COOKIE: uint32 := 0x2112A442

  type Ip6 = s: seq<byte> | |s| == 16 witness Zeros(16)

  datatype Address = Unspecified | Inet4(ip4: uint32, port: uint16) | Inet6(ip6: Ip6, port: uint16)

  datatype Attribute =
    | ByteString(typ: uint16, bytes: seq<byte>)
    | UInt32(typ: uint16, bits: uint32)
    | UInt64(typ: uint16, bits64: uint64)
    | MappedAddress(typ: uint16, address: Address)
    | XorAddress(typ: uint16, address: Address)
    | ErrorCode(typ: uint16, cls: byte, number: byte, reason: seq<byte>)

  datatype ValueType = UnknownValue | UInt32Value | ByteStringValue

  /** The attribute types the reader knows; it skips every other. */
  function GetAttributeValueType(typ: uint16): ValueType {
    if typ == ATTR_USERNAME || typ == ATTR_MESSAGE_INTEGRITY then ByteStringValue
    else if typ == ATTR_PRIORITY then UInt32Value
    else UnknownValue
  }

  function AddressSize(a: Address): nat {
    match a
    case Unspecified => 0
    case Inet4(_, _) => 8
    case Inet6(_, _) => 20
  }

  /** The value of the 16-bit length field. Byte strings and reasons longer than it are cut modulo 2^16. */
  function Length(a: Attribute): uint16 {
    match a
    case ByteString(_, bytes) => Low16(|bytes|)
    case UInt32(_, _) => 4
    case UInt64(_, _) => 8
    case MappedAddress(_, address) => AddressSize(address)
    case XorAddress(_, address) => AddressSize(address)
    case ErrorCode(_, _, _, reason) => Low16(4 + |reason|)
  }

  function Padding(n: nat): nat {
    if n % 4 == 0 then 0 else 4 - n % 4
  }

  /** What `add_attribute` adds to the message length for this attribute. */
  function Footprint(a: Attribute): nat {
    ATTRIBUTE_HEADER_SIZE + Length(a) + Padding(Length(a))
  }

  /** `write` of the attribute succeeds. */
  predicate Writable(a: Attribute) {
    && (a.MappedAddress? ==> !a.address.Unspecified?)
    && (a.XorAddress? ==> a.address.Inet4?)
  }

  function AddressBytes(address: Address): seq<byte>
    requires !address.Unspecified?
  {
    match address
    case Inet4(ip, port) => [0, 1] + Be16(port) + Be32(ip)
    case Inet6(ip, port) => [0, 2] + Be16(port) + ip
  }

  function XorMasked(address: Address): Address
    requires address.Inet4?
  {
    Inet4(Xor32(address.ip4, MAGIC_COOKIE), Xor16(address.port, MAGIC_COOKIE / 0x1_0000))
  }

  function Payload(a: Attribute): seq<byte>
    requires Writable(a)
  {
    match a
    case ByteString(_, bytes) => bytes[..Length(a)] + Zeros(Padding(Length(a)))
    case UInt32(_, bits) => Be32(bits)
    case UInt64(_, bits) => Be64(bits)
    case MappedAddress(_, address) => AddressBytes(address)
    case XorAddress(_, address) => AddressBytes(XorMasked(address))
    case ErrorCode(_, cls, number, reason) =>
      Be32(cls * 0x100 + number) + reason + Zeros(Padding(Length(a)))
  }

  /** The attribute as `write` puts it into a message. */
  function Wire(a: Attribute): seq<byte>
    requires Writable(a)
  {
    Be16(a.typ) + Be16(Length(a)) + Payload(a)
  }

  predicate AllWritable(attrs: seq<Attribute>) {
    forall i :: 0 <= i < |attrs| ==> Writable(attrs[i])
  }

  /** The bytes after the header. */
  function Body(attrs: seq<Attribute>): seq<byte>
    requires AllWritable(attrs)
  {
    if attrs == [] then [] else Wire(attrs[0]) + Body(attrs[1..])
  }

  /** Whatever is added, the wire size agrees with the footprint modulo 2^16. */
  lemma WireSize(a: Attribute)
    requires Writable(a)
    ensures |Wire(a)| >= 4
    ensures Low16(|Wire(a)|) == Low16(Footprint(a))
    ensures |Wire(a)| < 0x1_0000 ==> |Wire(a)| == Footprint(a)
  {
    match a
    case ErrorCode(_, _, _, reason) =>
      var n: nat := 4 + |reason|;
      assert |Wire(a)| == 4 + n + Padding(Length(a));
      CutByWholeTurns(n, 4 + Padding(Length(a)));
    case _ =>
      assert |Wire(a)| == Footprint(a);
  }

  lemma CutByWholeTurns(n: nat, more: nat)
    requires more < 8
    ensures Low16(n + more) == Low16(Low16(n) + more)
    ensures n + more < 0x1_0000 ==> Low16(n) == n
  {
  }

  lemma PaddingAligns(n: nat)
    ensures (n + Padding(n)) % 4 == 0
    ensures Padding(Low16(n)) == Padding(n)
  {
    var q, r, turns := n / 4, n % 4, n / 0x1_0000;
    assert n == 4 * q + r;
    assert Low16(n) == 4 * (q - 0x4000 * turns) + r;
    if r != 0 {
      assert n + Padding(n) == 4 * (q + 1);
    }
  }

  lemma AlignedSize(a: Attribute, n: nat)
    requires Writable(a) && |Wire(a)| == 4 + n + Padding(n)
    ensures |Wire(a)| % 4 == 0
  {
    hide *;
    PaddingAligns(n);
  }

  lemma WireIsAligned(a: Attribute)
    requires Writable(a)
    ensures |Wire(a)| % 4 == 0
  {
    match a
    case ByteString(_, bytes) =>
      AlignedSize(a, Length(a));
    case ErrorCode(_, _, _, reason) =>
      assert Padding(Low16(4 + |reason|)) == Padding(4 + |reason|) by { PaddingAligns(4 + |reason|); }
      AlignedSize(a, 4 + |reason|);
    case _ =>
  }

  lemma BodyUnfolds(attrs: seq<Attribute>)
    requires AllWritable(attrs) && attrs != []
    ensures Writable(attrs[0]) && AllWritable(attrs[1..]) && Body(attrs) == Wire(attrs[0]) + Body(attrs[1..])
  {
  }

  lemma AlignedCons(attrs: seq<Attribute>)
    requires AllWritable(attrs) && attrs != [] && |Body(attrs[1..])| % 4 == 0
    ensures |Body(attrs)| % 4 == 0
  {
    hide *;
    BodyUnfolds(attrs);
    WireIsAligned(attrs[0]);
  }

  lemma {:induction false} BodyIsAligned(attrs: seq<Attribute>)
    requires AllWritable(attrs)
    ensures |Body(attrs)| % 4 == 0
  {
    if attrs != [] {
      BodyIsAligned(attrs[1..]);
      AlignedCons(attrs);
    }
  }

  lemma {:induction false} BodyAppend(attrs: seq<Attribute>, more: seq<Attribute>)
    requires AllWritable(attrs) && AllWritable(more)
    ensures AllWritable(attrs + more)
    ensures Body(attrs + more) == Body(attrs) + Body(more)
  {
    if attrs == [] {
      assert attrs + more == more;
    } else {
      BodyAppend(attrs[1..], more);
      BodyAppendOne(attrs, more);
    }
  }

  lemma BodyAppendOne(attrs: seq<Attribute>, more: seq<Attribute>)
    requires attrs != [] && AllWritable(attrs) && AllWritable(attrs[1..] + more) && AllWritable(more)
    requires Body(attrs[1..] + more) == Body(attrs[1..]) + Body(more)
    ensures AllWritable(attrs + more)
    ensures Body(attrs + more) == Body(attrs) + Body(more)
  {
    hide *;
    WritableAppend(attrs, more);
    AppendParts(attrs, more);
    BodyUnfolds(attrs);
    BodyUnfolds(attrs + more);
    AppendAssoc(Wire(attrs[0]), Body(attrs[1..]), Body(more));
  }

  lemma WritableAppend(attrs: seq<Attribute>, more: seq<Attribute>)
    requires AllWritable(attrs) && AllWritable(more)
    ensures AllWritable(attrs + more)
  {
  }

  lemma {:induction false} BodyOfOne(a: Attribute)
    requires Writable(a)
    ensures AllWritable([a]) && Body([a]) == Wire(a)
  {
    assert [a][1..] == [];
  }

  // ---- Reading --------------------------------------------------------------------------------

  /** The concrete attribute class agrees with the one the reader creates for the type code. */
  predicate KindMatches(a: Attribute) {
    match GetAttributeValueType(a.typ)
    case UnknownValue => true
    case UInt32Value => a.UInt32?
    case ByteStringValue => a.ByteString?
  }

  predicate AllKindsMatch(attrs: seq<Attribute>) {
    forall i :: 0 <= i < |attrs| ==> KindMatches(attrs[i])
  }

  /** The attribute as a reader gets it back: nothing for a skipped type. */
  function VisibleOne(a: Attribute): seq<Attribute> {
    if GetAttributeValueType(a.typ).UnknownValue? then []
    else if a.ByteString? then [a.(bytes := a.bytes[..Length(a)])]
    else [a]
  }

  function Visible(attrs: seq<Attribute>): seq<Attribute> {
    if attrs == [] then [] else VisibleOne(attrs[0]) + Visible(attrs[1..])
  }

  /** The attribute loop of `read`, on the bytes that are left. */
  function ParseAttributes(data: seq<byte>): Option<seq<Attribute>> {
    if data == [] then Some([])
    else if |data| < 4 then None
    else
      var typ, length := GetBe16(data, 0), GetBe16(data, 2);
      match GetAttributeValueType(typ)
      case UnknownValue =>
        var skip := Low16(length + Padding(length));
        if 4 + skip > |data| then None else ParseAttributes(data[4 + skip..])
      case UInt32Value =>
        if length != 4 || |data| < 8 then None
        else Prepend(UInt32(typ, GetBe32(data, 4)), ParseAttributes(data[8..]))
      case ByteStringValue =>
        if 4 + length > |data| then None
        else
          var next := if 4 + length + Padding(length) <= |data| then 4 + length + Padding(length) else 4 + length;
          Prepend(ByteString(typ, data[4..4 + length]), ParseAttributes(data[next..]))
  }

  /** Whatever the bytes, an attribute of a known type is of the class the reader makes for it. */
  lemma {:induction false} ParsedKinds(data: seq<byte>)
    ensures ParseAttributes(data).Some? ==> AllKindsMatch(ParseAttributes(data).value)
    decreases |data|
  {
    if |data| >= 4 {
      var typ, length := GetBe16(data, 0), GetBe16(data, 2);
      match GetAttributeValueType(typ) {
        case UnknownValue =>
          var skip := Low16(length + Padding(length));
          if 4 + skip <= |data| {
            ParsedKinds(data[4 + skip..]);
          }
        case UInt32Value =>
          if |data| >= 8 {
            ParsedKinds(data[8..]);
          }
        case ByteStringValue =>
          if 4 + length <= |data| {
            ParsedKinds(data[4 + length..]);
            if 4 + length + Padding(length) <= |data| {
              ParsedKinds(data[4 + length + Padding(length)..]);
            }
          }
      }
    }
  }

  // ---- Exactly what is read ---------------------------------------------------------------------

  /** Type, length field and what follows up to the next attribute. */
  datatype Chunk = Chunk(typ: uint16, length: uint16, content: seq<byte>)

  /**
   * USERNAME and MESSAGE-INTEGRITY hold as many bytes as their length says and their padding, which only the last may
   * lack; PRIORITY four; of every other type only the size matters, and that wraps at 2^16.
   */
  predicate Fits(c: Chunk, isLast: bool) {
    if c.typ == 0x0006 || c.typ == 0x0008
    then |c.content| == c.length + Padding(c.length) || (isLast && |c.content| == c.length)
    else if c.typ == 0x0024 then c.length == 4 && |c.content| == 4
    else |c.content| == Low16(c.length + Padding(c.length))
  }

  predicate AllFit(chunks: seq<Chunk>) {
    forall i :: 0 <= i < |chunks| ==> Fits(chunks[i], i == |chunks| - 1)
  }

  function ChunkBytes(c: Chunk): seq<byte> {
    Be16(c.typ) + Be16(c.length) + c.content
  }

  function ChunksBytes(chunks: seq<Chunk>): seq<byte> {
    if chunks == [] then [] else ChunkBytes(chunks[0]) + ChunksBytes(chunks[1..])
  }

  function ReadOne(c: Chunk): seq<Attribute> {
    if (c.typ == 0x0006 || c.typ == 0x0008) && |c.content| >= c.length
    then [ByteString(c.typ, c.content[..c.length])]
    else if c.typ == 0x0024 && |c.content| >= 4 then [UInt32(c.typ, GetBe32(c.content, 0))]
    else []
  }

  function ReadAll(chunks: seq<Chunk>): seq<Attribute> {
    if chunks == [] then [] else ReadOne(chunks[0]) + ReadAll(chunks[1..])
  }

  /** How many bytes behind the header belong to an attribute, when so many are left. */
  function ContentSize(typ: uint16, length: uint16, left: nat): nat {
    var padded: nat := length + Padding(length);
    if typ == 0x0024 then 4
    else if typ != 0x0006 && typ != 0x0008 then Low16(padded)
    else if 4 + padded <= left then padded
    else length
  }

  function FirstChunk(data: seq<byte>): Option<Chunk> {
    if |data| < 4 then None
    else
      var typ, length := GetBe16(data, 0), GetBe16(data, 2);
      var n := ContentSize(typ, length, |data|);
      if 4 + n > |data| || (typ == 0x0024 && length != 4) then None else Some(Chunk(typ, length, data[4..4 + n]))
  }

  lemma WordAtFour(data: seq<byte>)
    requires |data| >= 8
    ensures GetBe32(data[4..8], 0) == GetBe32(data, 4)
  {
  }

  /** The reader takes one chunk off the front. */
  lemma ParseStep(data: seq<byte>)
    requires data != []
    ensures ParseAttributes(data) ==
            match FirstChunk(data)
            case None => None
            case Some(c) => PrependAll(ReadOne(c), ParseAttributes(data[4 + |c.content|..]))
  {
    hide Low16, Padding, GetBe16;
    if |data| >= 4 {
      var typ, length := GetBe16(data, 0), GetBe16(data, 2);
      var n := ContentSize(typ, length, |data|);
      if 4 + n <= |data| {
        PrependAllEnds([], ParseAttributes(data[4 + n..]));
        if typ == 0x0024 {
          WordAtFour(data);
        } else if typ == 0x0006 || typ == 0x0008 {
          assert data[4..4 + n][..length] == data[4..4 + length];
        }
      }
    }
  }

  lemma ChunkRead(c: Chunk, rest: seq<byte>)
    requires Fits(c, rest == [])
    ensures FirstChunk(ChunkBytes(c) + rest) == Some(c) && (ChunkBytes(c) + rest)[4 + |c.content|..] == rest
  {
    var data := ChunkBytes(c) + rest;
    assert GetBe16(data, 0) == c.typ && GetBe16(data, 2) == c.length;
    assert data[4..4 + |c.content|] == c.content;
  }

  lemma {:induction false} ChunksRead(chunks: seq<Chunk>)
    requires AllFit(chunks)
    ensures ParseAttributes(ChunksBytes(chunks)) == Some(ReadAll(chunks))
  {
    if chunks != [] {
      var tail := chunks[1..];
      assert forall i :: 0 <= i < |tail| ==> tail[i] == chunks[i + 1];
      ChunksRead(tail);
      hide Fits, ChunkBytes, FirstChunk, ReadOne, ParseAttributes;
      ChunkRead(chunks[0], ChunksBytes(tail));
      ParseStep(ChunksBytes(chunks));
    }
  }

  lemma FirstFits(data: seq<byte>, c: Chunk, rest: seq<byte>)
    requires FirstChunk(data) == Some(c) && 4 + |c.content| <= |data| && rest == data[4 + |c.content|..]
    requires |rest| >= 4 || rest == []
    ensures data == ChunkBytes(c) + rest && Fits(c, rest == [])
  {
    assert Be16(GetBe16(data, 0)) + Be16(GetBe16(data, 2)) == data[..4];
    hide Be16, GetBe16;
  }

  /** Whatever is read is a sequence of such chunks. */
  lemma {:induction false} ReadIsChunks(data: seq<byte>) returns (chunks: seq<Chunk>)
    requires ParseAttributes(data).Some?
    ensures AllFit(chunks) && ChunksBytes(chunks) == data
    decreases |data|
  {
    if data == [] {
      chunks := [];
    } else {
      hide ParseAttributes, Fits, ChunkBytes, FirstChunk, ReadOne, ReadAll, GetBe16;
      ParseStep(data);
      var c := FirstChunk(data).value;
      var rest := data[4 + |c.content|..];
      FirstFits(data, c, rest);
      var tail := ReadIsChunks(rest);
      chunks := [c] + tail;
      assert chunks[1..] == tail;
    }
  }

  /** The reader accepts exactly the concatenations of such chunks. */
  lemma ReaderAccepts(data: seq<byte>)
    ensures ParseAttributes(data).Some? <==> exists chunks :: AllFit(chunks) && ChunksBytes(chunks) == data
    ensures forall chunks :: AllFit(chunks) && ChunksBytes(chunks) == data ==>
              ParseAttributes(data) == Some(ReadAll(chunks))
  {
    if ParseAttributes(data).Some? {
      var chunks := ReadIsChunks(data);
    }
    forall chunks | AllFit(chunks) && ChunksBytes(chunks) == data
      ensures ParseAttributes(data) == Some(ReadAll(chunks))
    {
      ChunksRead(chunks);
    }
  }

  function Prepend(a: Attribute, rest: Option<seq<Attribute>>): Option<seq<Attribute>> {
    match rest
    case None => None
    case Some(attrs) => Some([a] + attrs)
  }

  function PrependAll(attrs: seq<Attribute>, rest: Option<seq<Attribute>>): Option<seq<Attribute>> {
    match rest
    case None => None
    case Some(more) => Some(attrs + more)
  }

  lemma PrependAllEnds(attrs: seq<Attribute>, rest: Option<seq<Attribute>>)
    ensures PrependAll([], rest) == rest
    ensures PrependAll(attrs, Some([])) == Some(attrs)
  {
    if rest.Some? {
      assert [] + rest.value == rest.value;
    }
    assert attrs + [] == attrs;
  }

  lemma PrependAllTwice(attrs: seq<Attribute>, more: seq<Attribute>, rest: Option<seq<Attribute>>)
    ensures PrependAll(attrs, PrependAll(more, rest)) == PrependAll(attrs + more, rest)
  {
    if rest.Some? {
      AppendAssoc(attrs, more, rest.value);
    }
  }

  lemma WireHeader(a: Attribute, rest: seq<byte>)
    requires Writable(a)
    ensures |Wire(a)| >= 4
    ensures GetBe16(Wire(a) + rest, 0) == a.typ && GetBe16(Wire(a) + rest, 2) == Length(a)
  {
  }

  /** A skipped type moves the reader by exactly the bytes that were written. */
  lemma SkipFits(a: Attribute)
    requires Writable(a) && |Wire(a)| < 0x1_0000
    ensures 4 + Low16(Length(a) + Padding(Length(a))) == |Wire(a)|
  {
    WireSize(a);
  }

  lemma ParseSkipped(a: Attribute, rest: seq<byte>)
    requires Writable(a) && GetAttributeValueType(a.typ).UnknownValue? && |Wire(a)| < 0x1_0000
    ensures ParseAttributes(Wire(a) + rest) == ParseAttributes(rest)
  {
    hide *;
    SkipFits(a);
    WireHeader(a, rest);
    AppendParts(Wire(a), rest);
    ParseUnknown(Wire(a) + rest);
  }

  lemma ParseUnknown(data: seq<byte>)
    requires |data| >= 4 && GetAttributeValueType(GetBe16(data, 0)).UnknownValue?
    requires 4 + Low16(GetBe16(data, 2) + Padding(GetBe16(data, 2))) <= |data|
    ensures ParseAttributes(data) == ParseAttributes(data[4 + Low16(GetBe16(data, 2) + Padding(GetBe16(data, 2)))..])
  {
  }

  lemma ParseByteString(a: Attribute, rest: seq<byte>)
    requires a.ByteString? && GetAttributeValueType(a.typ).ByteStringValue?
    ensures ParseAttributes(Wire(a) + rest) == Prepend(a.(bytes := a.bytes[..Length(a)]), ParseAttributes(rest))
  {
    var data := Wire(a) + rest;
    var n: nat, pad := Length(a), Padding(Length(a));
    WireHeader(a, rest);
    assert Wire(a) == Be16(a.typ) + Be16(n) + (a.bytes[..n] + Zeros(pad));
    assert data[4 + n + pad..] == rest;
    assert data[4..4 + n] == a.bytes[..n];
  }

  /** Reading past one written attribute. */
  lemma ParseOne(a: Attribute, rest: seq<byte>, attrs: seq<Attribute>)
    requires Writable(a) && KindMatches(a) && |Wire(a)| < 0x1_0000
    requires ParseAttributes(rest) == Some(attrs)
    ensures ParseAttributes(Wire(a) + rest) == Some(VisibleOne(a) + attrs)
  {
    match GetAttributeValueType(a.typ)
    case UnknownValue =>
      ParseSkipped(a, rest);
      assert VisibleOne(a) + attrs == attrs;
    case UInt32Value =>
    case ByteStringValue =>
      ParseByteString(a, rest);
  }

  /** The reader sees, in order, exactly the attributes it knows, whatever stands between them. */
  lemma {:induction false} ParseBody(attrs: seq<Attribute>)
    requires AllWritable(attrs) && AllKindsMatch(attrs) && |Body(attrs)| < 0x1_0000
    ensures ParseAttributes(Body(attrs)) == Some(Visible(attrs))
  {
    if attrs != [] {
      WireSize(attrs[0]);
      ParseBody(attrs[1..]);
      ParseOne(attrs[0], Body(attrs[1..]), Visible(attrs[1..]));
    }
  }

  lemma {:induction false} VisibleAppend(attrs: seq<Attribute>, more: seq<Attribute>)
    ensures Visible(attrs + more) == Visible(attrs) + Visible(more)
  {
    if attrs == [] {
      assert attrs + more == more;
    } else {
      AppendParts(attrs, more);
      VisibleAppend(attrs[1..], more);
    }
  }

  // ---- The address a client recovers (RFC 5389, section 15.2) -----------------------------------

  function UnmaskAddress(payload: seq<byte>): Option<Address> {
    if |payload| != 8 || payload[1] != 1 then None
    else Some(Inet4(Xor32(GetBe32(payload, 4), MAGIC_COOKIE), Xor16(GetBe16(payload, 2), MAGIC_COOKIE / 0x1_0000)))
  }

  /** The client that undoes the mask of RFC 5389 section 15.2 gets the transport address back. */
  lemma XorAddressUnmasks(typ: uint16, ip: uint32, port: uint16)
    ensures UnmaskAddress(Payload(XorAddress(typ, Inet4(ip, port)))) == Some(Inet4(ip, port))
  {
    var masked := XorMasked(Inet4(ip, port));
    var payload := AddressBytes(masked);
    GetBe32Reads(payload[..4], masked.ip4, []);
    assert payload == payload[..4] + Be32(masked.ip4) + [];
    Xor32UndoesItself(ip, MAGIC_COOKIE);
    Pow2Words();
    XorUndoesItself(port, MAGIC_COOKIE / 0x1_0000, 16);
  }
}
