/**
 * The STUN message object: fields that its methods update in place, each held to its function on values in module
 * StunFormat.
 */
module Stun {
  import opened Octets
  import opened StunAttributes
  import opened StunFormat

  class StunMessage {
    var typ: uint16
    var length: uint16
    var transactionId: seq<byte>
    var attrs: seq<Attribute>
    var integrity: Integrity
    var password: seq<byte>
    var buffer: seq<byte>

    function Value(): Message
      reads this
    {
      Message(typ, length, transactionId, attrs, integrity, password, buffer)
    }

    constructor ()
      ensures Value() == EMPTY_MESSAGE
    {
      typ, length, transactionId, attrs := 0, 0, Repeat(48, TRANSACTION_ID_LENGTH), [];
      integrity, password, buffer := NotSet, [], [];
    }

    method AddAttribute(a: Attribute)
      modifies this
      ensures Value() == Added(old(Value()), a)
    {
      var size: nat := Length(a);
      if size % 4 != 0 {
        size := size + (4 - size % 4);
      }
      length := Low16(length + (size + ATTRIBUTE_HEADER_SIZE));
      attrs := attrs + [a];
    }

    method Write() returns (r: Option<seq<byte>>)
      ensures r == Encode(Value())
    {
      hide Wire, Body;
      var buf := Be16(typ) + Be16(length) + Be32(MAGIC_COOKIE) + transactionId;
      NothingWritten(attrs, buf);
      for i := 0 to |attrs|
        invariant AllWritable(attrs[..i]) && buf == Header(typ, length, transactionId) + Body(attrs[..i])
      {
        if !Writable(attrs[i]) {
          return None;
        }
        OneMoreWritten(attrs, i, Header(typ, length, transactionId));
        buf := buf + Wire(attrs[i]);
      }
      assert attrs[..|attrs|] == attrs;
      return Some(buf);
    }

    /** A message that fails to read is discarded by its callers; only its buffer is defined then. */
    method Read(data: seq<byte>) returns (ok: bool)
      modifies this
      ensures ok <==> Parse(data).Some?
      ensures buffer == data && integrity == old(integrity) && password == old(password)
      ensures ok ==> Parse(data) == Some(Parsed(typ, length, transactionId, attrs))
    {
      buffer := data;
      if |data| < 2 {
        return false;
      }
      typ := GetBe16(data, 0);
      if LooksLikeRtp(typ) || |data| < HEADER_SIZE {
        return false;
      }
      length := GetBe16(data, 2);
      transactionId := data[8..20];
      if GetBe32(data, 4) != MAGIC_COOKIE {
        transactionId := data[4..8] + transactionId;
        assert transactionId == data[4..20];
      }
      if |data| - HEADER_SIZE != length {
        return false;
      }
      attrs := [];
      ok := ReadAttributes(data[20..]);
    }

    /** The attribute loop of `Read`. */
    method ReadAttributes(data: seq<byte>) returns (ok: bool)
      requires attrs == []
      modifies this`attrs
      ensures ok <==> ParseAttributes(data).Some?
      ensures ok ==> ParseAttributes(data) == Some(attrs)
    {
      var rest := data;
      PrependAllEnds(attrs, ParseAttributes(data));
      while |rest| > 0
        invariant ParseAttributes(data) == PrependAll(attrs, ParseAttributes(rest))
        decreases |rest|
      {
        var r := ReadAttribute(rest);
        if r.None? {
          return false;
        }
        var (added, next) := r.value;
        PrependAllTwice(attrs, added, ParseAttributes(next));
        attrs := attrs + added;
        rest := next;
      }
      PrependAllEnds(attrs, None);
      return true;
    }

    /** Appends a placeholder, hashes what precedes it, then fills the attribute in place. */
    method AddMessageIntegrity(key: seq<byte>, hmac: HmacSha1) returns (ok: bool)
      modifies this
      ensures ok == AllWritable(old(attrs))
      ensures Value() == AfterAddMessageIntegrity(old(Value()), key, hmac)
    {
      hide Wire, Footprint, Body, PrefixWith, AllWritable, Encode, Low16;
      var slot := |attrs|;
      ghost var before := Value();
      AddAttribute(INTEGRITY_PLACEHOLDER);
      AppendKeepsWritable(before.attrs, INTEGRITY_PLACEHOLDER);
      EncodesWhenWritable(Value());
      var buf := Write();
      if buf.None? {
        return false;
      }
      PlaceholderCut(before, INTEGRITY_PLACEHOLDER, buf.value);
      ReplaceLast(before.attrs, INTEGRITY_PLACEHOLDER, IntegrityOf(before, key, hmac));
      var covered := buf.value[..|buf.value| - ATTRIBUTE_HEADER_SIZE - MESSAGE_INTEGRITY_SIZE];
      attrs := attrs[slot := ByteString(ATTR_MESSAGE_INTEGRITY, hmac(key, covered))];
      password := key;
      integrity := IntegrityOk;
      return true;
    }

    /** Appends a zero fingerprint, sums what precedes it, then patches the value. */
    method AddFingerprint(crc: Crc32) returns (ok: bool)
      modifies this
      ensures ok == AllWritable(old(attrs))
      ensures Value() == AfterAddFingerprint(old(Value()), crc)
    {
      hide Wire, Footprint, Body, PrefixWith, AllWritable, Encode, Low16;
      var slot := |attrs|;
      ghost var before := Value();
      var zero := UInt32(ATTR_FINGERPRINT, 0);
      AddAttribute(zero);
      AppendKeepsWritable(before.attrs, zero);
      EncodesWhenWritable(Value());
      var buf := Write();
      if buf.None? {
        return false;
      }
      PlaceholderCut(before, zero, buf.value);
      ReplaceLast(before.attrs, zero, FingerprintOf(before, crc));
      var covered := buf.value[..|buf.value| - FINGERPRINT_ATTRIBUTE_SIZE];
      attrs := attrs[slot := UInt32(ATTR_FINGERPRINT, Xor32(crc(covered), FINGERPRINT_XOR_VALUE))];
      return true;
    }

    method ValidateMessageIntegrity(key: seq<byte>, hmac: HmacSha1) returns (status: Integrity)
      modifies this
      ensures Value() == Validated(old(Value()), key, hmac) && status == integrity
    {
      password := key;
      if FindAttribute(attrs, ATTR_MESSAGE_INTEGRITY) == None {
        integrity := NotSet;
      } else {
        var ok := ValidateIntegrityOfType(buffer, key, hmac);
        integrity := if ok then IntegrityOk else IntegrityBad;
      }
      return integrity;
    }
  }

  lemma NothingWritten(attrs: seq<Attribute>, header: seq<byte>)
    ensures AllWritable(attrs[..0]) && header == header + Body(attrs[..0])
  {
    assert attrs[..0] == [];
  }

  lemma OneMoreWritten(attrs: seq<Attribute>, i: nat, header: seq<byte>)
    requires i < |attrs| && AllWritable(attrs[..i]) && Writable(attrs[i])
    ensures AllWritable(attrs[..i + 1])
    ensures header + Body(attrs[..i + 1]) == header + Body(attrs[..i]) + Wire(attrs[i])
  {
    hide *;
    assert attrs[..i + 1] == attrs[..i] + [attrs[i]];
    BodyOfOne(attrs[i]);
    BodyAppend(attrs[..i], [attrs[i]]);
    AppendAssoc(header, Body(attrs[..i]), Wire(attrs[i]));
  }

  /** One attribute off the front: a known one is created and read, an unknown one is skipped with its padding. */
  method ReadAttribute(data: seq<byte>) returns (r: Option<(seq<Attribute>, seq<byte>)>)
    requires data != []
    ensures r.None? ==> ParseAttributes(data) == None
    ensures r.Some? ==> |r.value.1| < |data|
                        && ParseAttributes(data) == PrependAll(r.value.0, ParseAttributes(r.value.1))
  {
    if |data| < 4 {
      return None;
    }
    var typ, length := GetBe16(data, 0), GetBe16(data, 2);
    match GetAttributeValueType(typ) {
      case UnknownValue =>
        var skip := Low16(length + Padding(length));
        if 4 + skip > |data| {
          return None;
        }
        PrependAllEnds([], ParseAttributes(data[4 + skip..]));
        return Some(([], data[4 + skip..]));
      case UInt32Value =>
        if length != 4 || |data| < 8 {
          return None;
        }
        return Some(([UInt32(typ, GetBe32(data, 4))], data[8..]));
      case ByteStringValue =>
        var size: nat := length;
        if 4 + size > |data| {
          return None;
        }
        var next := 4 + size + Padding(size);
        if next > |data| {
          next := 4 + size;
        }
        return Some(([ByteString(typ, data[4..4 + size])], data[next..]));
    }
  }

  /** The walk to MESSAGE-INTEGRITY, the rewritten length field and the comparison. */
  method ValidateIntegrityOfType(data: seq<byte>, key: seq<byte>, hmac: HmacSha1) returns (ok: bool)
    ensures ok == IntegrityHolds(data, key, hmac)
  {
    if |data| % 4 != 0 || |data| < HEADER_SIZE || GetBe16(data, 2) + HEADER_SIZE != |data| {
      return false;
    }
    var at := HEADER_SIZE;
    var found := false;
    while at + ATTRIBUTE_HEADER_SIZE <= |data| && !found
      invariant at >= HEADER_SIZE
      invariant found ==> Walk(data, HEADER_SIZE, ATTR_MESSAGE_INTEGRITY) == Some(at)
      invariant !found ==> Walk(data, HEADER_SIZE, ATTR_MESSAGE_INTEGRITY) == Walk(data, at, ATTR_MESSAGE_INTEGRITY)
      decreases |data| - at, !found
    {
      var n: nat := GetBe16(data, at + 2);
      if GetBe16(data, at) == ATTR_MESSAGE_INTEGRITY {
        found := true;
      } else {
        at := at + ATTRIBUTE_HEADER_SIZE + n + Padding(n);
      }
    }
    if !found || at + INTEGRITY_ATTRIBUTE_SIZE > |data| {
      return false;
    }
    var covered := data[..at];
    if |data| > at + INTEGRITY_ATTRIBUTE_SIZE {
      covered := data[..2] + Be16(Low16(at + INTEGRITY_ATTRIBUTE_SIZE - HEADER_SIZE)) + data[4..at];
    }
    return data[at + 4..at + 24] == hmac(key, covered);
  }

  lemma EncodesWhenWritable(m: Message)
    ensures Encode(m).Some? <==> AllWritable(m.attrs)
  {
  }

  lemma AppendKeepsWritable(attrs: seq<Attribute>, a: Attribute)
    requires Writable(a)
    ensures AllWritable(attrs + [a]) == AllWritable(attrs)
  {
    assert forall i :: 0 <= i < |attrs| ==> (attrs + [a])[i] == attrs[i];
  }

  /** Cutting the placeholder off the written bytes leaves the prefix under the new length. */
  lemma PlaceholderCut(m: Message, a: Attribute, data: seq<byte>)
    requires AllWritable(m.attrs) && Writable(a) && Encode(Added(m, a)) == Some(data)
    requires a.UInt32? || (a.ByteString? && |a.bytes| == MESSAGE_INTEGRITY_SIZE)
    ensures |Wire(a)| == Footprint(a) <= |data| && data[..|data| - |Wire(a)|] == PrefixWith(m, Footprint(a))
    ensures Footprint(a) == if a.UInt32? then FINGERPRINT_ATTRIBUTE_SIZE else INTEGRITY_ATTRIBUTE_SIZE
  {
    hide *;
    FootprintOfFixed(a);
    BodyAppend(m.attrs, [a]);
    BodyOfOne(a);
    EncodedAdded(m, a);
    PrefixIs(m, Footprint(a));
    AppendAssoc(Header(m.typ, Low16(m.length + Footprint(a)), m.transactionId), Body(m.attrs), Wire(a));
    AppendParts(PrefixWith(m, Footprint(a)), Wire(a));
  }

  lemma EncodedAdded(m: Message, a: Attribute)
    requires AllWritable(m.attrs + [a])
    ensures Encode(Added(m, a)) ==
            Some(Header(m.typ, Low16(m.length + Footprint(a)), m.transactionId) + Body(m.attrs + [a]))
  {
  }
}
