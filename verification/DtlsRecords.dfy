/** The walk over the records of a DTLS datagram (RFC 6347 section 4.1). */
module DtlsRecords {
  import opened Octets

  const HEADER_LENGTH: nat := 13

  /** A record: the 11 bytes before the length, and the payload. */
  datatype Record = Record(front: seq<byte>, payload: seq<byte>)

  predicate WellFormed(records: seq<Record>) {
    forall i :: 0 <= i < |records| ==> |records[i].front| == 11 && |records[i].payload| < 0x1_0000
  }

  function Wire(r: Record): seq<byte>
    requires |r.payload| < 0x1_0000
  {
    r.front + Be16(|r.payload|) + r.payload
  }

  function WireAll(records: seq<Record>): seq<byte>
    requires WellFormed(records)
  {
    if records == [] then [] else Wire(records[0]) + WireAll(records[1..])
  }

  /** The first record of a buffer, if a whole one is there. */
  function FirstLength(data: seq<byte>): Option<nat> {
    if |data| < HEADER_LENGTH then None
    else
      var length: nat := GetBe16(data, 11);
      if length + HEADER_LENGTH > |data| then None else Some(length)
  }

  function Records(data: seq<byte>): Option<seq<Record>> {
    if data == [] then Some([])
    else
      match FirstLength(data)
      case None => None
      case Some(length) =>
        match Records(data[HEADER_LENGTH + length..])
        case None => None
        case Some(rest) => Some([Record(data[..11], data[HEADER_LENGTH..HEADER_LENGTH + length])] + rest)
  }

  lemma FirstOfWire(r: Record, rest: seq<byte>)
    requires |r.front| == 11 && |r.payload| < 0x1_0000
    ensures var data := Wire(r) + rest;
            && FirstLength(data) == Some(|r.payload|)
            && data[..11] == r.front && data[HEADER_LENGTH..HEADER_LENGTH + |r.payload|] == r.payload
            && data[HEADER_LENGTH + |r.payload|..] == rest
  {
    var data := Wire(r) + rest;
    assert data[11] == Be16(|r.payload|)[0] && data[12] == Be16(|r.payload|)[1];
    assert |Wire(r)| == HEADER_LENGTH + |r.payload|;
  }

  /** What was written record by record is found again record by record. */
  lemma {:induction false} RecordsFound(records: seq<Record>)
    requires WellFormed(records)
    ensures Records(WireAll(records)) == Some(records)
  {
    if records != [] {
      RecordsFound(records[1..]);
      FirstOfWire(records[0], WireAll(records[1..]));
      assert records == [records[0]] + records[1..];
    }
  }

  lemma {:induction false} FoundIsWritten(data: seq<byte>)
    ensures Records(data).Some? ==> WellFormed(Records(data).value) && WireAll(Records(data).value) == data
  {
    if data != [] && Records(data).Some? {
      var length := FirstLength(data).value;
      FirstIsWritten(data);
      FoundIsWritten(data[HEADER_LENGTH + length..]);
      hide Wire, FirstLength;
      assert Records(data).value[1..] == Records(data[HEADER_LENGTH + length..]).value;
    }
  }

  lemma FirstIsWritten(data: seq<byte>)
    requires FirstLength(data).Some?
    ensures var length := FirstLength(data).value;
            && length < 0x1_0000 && |data[HEADER_LENGTH..HEADER_LENGTH + length]| == length
            && data == Wire(Record(data[..11], data[HEADER_LENGTH..HEADER_LENGTH + length]))
                       + data[HEADER_LENGTH + length..]
  {
    var length := FirstLength(data).value;
    assert Be16(length) == data[11..13];
    assert data == data[..11] + data[11..13] + data[HEADER_LENGTH..HEADER_LENGTH + length]
                   + data[HEADER_LENGTH + length..];
  }

  /** A datagram is accepted exactly when it is a concatenation of records. */
  lemma AcceptedIsConcatenation(data: seq<byte>)
    ensures Records(data).Some? <==> exists records :: WellFormed(records) && WireAll(records) == data
  {
    FoundIsWritten(data);
    if records :| WellFormed(records) && WireAll(records) == data {
      RecordsFound(records);
    }
  }

  /** And it is one in only one way. */
  lemma DecompositionIsUnique(a: seq<Record>, b: seq<Record>)
    requires WellFormed(a) && WellFormed(b) && WireAll(a) == WireAll(b)
    ensures a == b
  {
    RecordsFound(a);
    RecordsFound(b);
  }

  lemma WalkStep(data: seq<byte>, at: nat)
    requires at < |data|
    ensures var left := |data| - at;
            if left < HEADER_LENGTH then Records(data[at..]).None?
            else
              var length := data[at + 11] as int * 0x100 + data[at + 12];
              if length + HEADER_LENGTH > left then Records(data[at..]).None?
              else Records(data[at..]).Some? <==> Records(data[at + HEADER_LENGTH + length..]).Some?
  {
    if |data| - at >= HEADER_LENGTH {
      var length: nat := data[at + 11] as int * 0x100 + data[at + 12];
      assert GetBe16(data[at..], 11) == length;
      if at + HEADER_LENGTH + length <= |data| {
        assert data[at..][HEADER_LENGTH + length..] == data[at + HEADER_LENGTH + length..];
      }
    }
  }

  lemma NothingLeft()
    ensures Records([]).Some?
  {
  }

  /** The loop of `_handle_dtls_packet`; whether the datagram may be passed on. */
  method HandleDtlsPacket(data: seq<byte>) returns (ok: bool)
    ensures ok <==> exists records :: WellFormed(records) && WireAll(records) == data
  {
    hide Records, WellFormed, WireAll;
    AcceptedIsConcatenation(data);
    NothingLeft();
    var at: nat, left := 0, |data|;
    assert data[0..] == data;
    while left > 0
      invariant left >= 0 && at + left == |data|
      invariant Records(data).Some? <==> Records(data[at..]).Some?
      decreases left
    {
      WalkStep(data, at);
      if left < HEADER_LENGTH {
        return false;
      }
      var recordLength: nat := data[at + 11] as int * 0x100 + data[at + 12];
      if recordLength + HEADER_LENGTH > left {
        return false;
      }
      at := at + HEADER_LENGTH + recordLength;
      left := left - (HEADER_LENGTH + recordLength);
    }
    assert data[at..] == [];
    return true;
  }
}
