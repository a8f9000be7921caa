/** How a signaling connection finds the request in the bytes it reads. */
module Framing {
  import opened Octets

  const XHEAD_SIZE: nat := 36
  const MAGIC_NUM: uint32 := 0xfb202309
  const AFTER_REQUEST: nat := 65535

  /** Above this many bytes the wait for 36 more than `AFTER_REQUEST` is over again. */
  const LIMIT: nat := AFTER_REQUEST + XHEAD_SIZE

  function Le32(data: seq<byte>, at: nat): uint32
    requires at + 4 <= |data|
  {
    data[at] as int + data[at + 1] as int * 0x100 + data[at + 2] as int * 0x1_0000 + data[at + 3] as int * 0x100_0000
  }

  function MagicOf(data: seq<byte>): uint32
    requires |data| >= XHEAD_SIZE
  {
    Le32(data, 24)
  }

  function BodyLength(data: seq<byte>): nat
    requires |data| >= XHEAD_SIZE
  {
    Le32(data, 32)
  }

  datatype Request = Request(header: seq<byte>, body: seq<byte>)

  /** The handler accepts a request, or fails and the connection is closed. */
  type Handler = Request -> bool

  /** `calls` lists what the handler was called with. */
  datatype Connection = Connection(querybuf: seq<byte>, inBody: bool, bytesProcessed: nat, calls: seq<Request>,
                                   open: bool)

  const NEW_CONNECTION := Connection([], false, 0, [], true)

  predicate Ready(c: Connection) {
    |c.querybuf| >= c.bytesProcessed + XHEAD_SIZE
  }

  function RequestIn(data: seq<byte>): Request
    requires |data| >= XHEAD_SIZE && |data| >= XHEAD_SIZE + BodyLength(data)
  {
    Request(data[..XHEAD_SIZE], data[XHEAD_SIZE..XHEAD_SIZE + BodyLength(data)])
  }

  predicate CanTurn(c: Connection) {
    c.open && Ready(c) && (c.inBody ==> |c.querybuf| >= XHEAD_SIZE + BodyLength(c.querybuf))
  }

  /** One turn of the loop: in the body state both the length and the body are read from the front of the buffer. */
  function Turn(c: Connection, handler: Handler): Connection
    requires CanTurn(c)
  {
    if !c.inBody then
      if MagicOf(c.querybuf) != MAGIC_NUM then c.(open := false)
      else c.(inBody := true, bytesProcessed := BodyLength(c.querybuf))
    else
      var r := RequestIn(c.querybuf);
      if handler(r) then c.(bytesProcessed := AFTER_REQUEST, calls := c.calls + [r])
      else c.(open := false, calls := c.calls + [r])
  }

  /** What the stream alone determines: what a reader of the header would do with all bytes at once. */
  function Expected(data: seq<byte>, handler: Handler): Connection {
    if |data| < XHEAD_SIZE then Connection(data, false, 0, [], true)
    else if MagicOf(data) != MAGIC_NUM then Connection(data, false, 0, [], false)
    else if |data| < XHEAD_SIZE + BodyLength(data) then Connection(data, true, BodyLength(data), [], true)
    else if handler(RequestIn(data)) then Connection(data, true, AFTER_REQUEST, [RequestIn(data)], true)
    else Connection(data, true, BodyLength(data), [RequestIn(data)], false)
  }

  /**
   * Byte by byte: a request is 36 bytes with 09 23 20 fb at 24 and the length of the body at 32, lowest byte first, and
   * the body. Until then nothing is called; another magic number closes the connection, and so does a handler that
   * fails.
   */
  lemma StreamMeans(data: seq<byte>, handler: Handler)
    ensures var e := Expected(data, handler);
            if |data| < 36 then e.open && e.calls == []
            else if data[24..28] != [0x09, 0x23, 0x20, 0xfb] then !e.open && e.calls == []
            else
              var n := 36 + data[32] as int + 0x100 * data[33] as int + 0x1_0000 * data[34] as int
                       + 0x100_0000 * data[35] as int;
              if |data| < n then e.open && e.calls == []
              else e.calls == [Request(data[..36], data[36..n])] && (e.open <==> handler(e.calls[0]))
  {
    if |data| >= 36 {
      assert data[24..28] == [data[24], data[25], data[26], data[27]];
      assert MagicOf(data) == 0xfb202309 <==> data[24..28] == [0x09, 0x23, 0x20, 0xfb];
    }
  }

  /** A complete request that the handler accepts, with so many bytes behind it that the wait for more is over. */
  predicate Endless(data: seq<byte>, handler: Handler) {
    && |data| >= LIMIT && MagicOf(data) == MAGIC_NUM
    && |data| >= XHEAD_SIZE + BodyLength(data) && handler(RequestIn(data))
  }

  /** The header and the body do not change while bytes are appended. */
  lemma PrefixDecides(data: seq<byte>, more: seq<byte>)
    requires |data| >= XHEAD_SIZE
    ensures MagicOf(data + more) == MagicOf(data) && BodyLength(data + more) == BodyLength(data)
    ensures |data| >= XHEAD_SIZE + BodyLength(data) ==> RequestIn(data + more) == RequestIn(data)
  {
    var all := data + more;
    assert forall i :: 0 <= i < XHEAD_SIZE ==> all[i] == data[i];
    if |data| >= XHEAD_SIZE + BodyLength(data) {
      assert all[..XHEAD_SIZE] == data[..XHEAD_SIZE];
      assert all[XHEAD_SIZE..XHEAD_SIZE + BodyLength(data)] == data[XHEAD_SIZE..XHEAD_SIZE + BodyLength(data)];
    }
  }

  /** The same as far as anyone can see: a closed connection keeps only its fate and its calls. */
  predicate Agrees(c: Connection, d: Connection) {
    c.open == d.open && c.calls == d.calls && (c.open ==> c == d)
  }

  // ---- The object -------------------------------------------------------------------------------------

  class TcpConnection {
    var querybuf: seq<byte>
    var inBody: bool
    var bytesProcessed: nat
    var calls: seq<Request>
    var open: bool

    constructor ()
      ensures Value() == NEW_CONNECTION
    {
      querybuf, inBody, bytesProcessed, calls, open := [], false, 0, [], true;
    }

    function Value(): Connection
      reads this
    {
      Connection(querybuf, inBody, bytesProcessed, calls, open)
    }

    /** `_process_query_buffer`, for a buffer that was processed before the last bytes came. */
    method ProcessQueryBuffer(handler: Handler, ghost before: seq<byte>)
      requires open && !Endless(querybuf, handler) && before <= querybuf
      requires Value().(querybuf := before) == Expected(before, handler)
      modifies this
      ensures Agrees(Value(), Expected(querybuf, handler)) && querybuf == old(querybuf)
    {
      assert querybuf == before + querybuf[|before|..];
      if |before| >= XHEAD_SIZE {
        PrefixDecides(before, querybuf[|before|..]);
      }
      while |querybuf| >= bytesProcessed + XHEAD_SIZE
        invariant open && querybuf == old(querybuf)
        invariant inBody ==> |querybuf| >= XHEAD_SIZE && MagicOf(querybuf) == MAGIC_NUM
        invariant !inBody ==> bytesProcessed == 0 && calls == []
        invariant inBody && bytesProcessed + XHEAD_SIZE <= |querybuf| ==>
                    bytesProcessed == BodyLength(querybuf) && calls == []
        invariant bytesProcessed + XHEAD_SIZE > |querybuf| ==> Value() == Expected(querybuf, handler)
        decreases |querybuf| >= bytesProcessed + XHEAD_SIZE, !inBody
      {
        TakeTurn(handler);
        if !open {
          return;
        }
      }
    }

    method TakeTurn(handler: Handler)
      requires CanTurn(Value())
      modifies `inBody, `bytesProcessed, `calls, `open
      ensures Value() == Turn(old(Value()), handler)
    {
      if !inBody {
        if MagicOf(querybuf) != MAGIC_NUM {
          open := false;
          return;
        }
        inBody := true;
        bytesProcessed := BodyLength(querybuf);
      } else {
        var r := Request(querybuf[..XHEAD_SIZE], querybuf[XHEAD_SIZE..XHEAD_SIZE + BodyLength(querybuf)]);
        calls := calls + [r];
        if !handler(r) {
          open := false;
          return;
        }
        bytesProcessed := AFTER_REQUEST;
      }
    }

    /** `_read_query` once bytes have come; closing ends the reading. */
    method ReadQuery(chunk: seq<byte>, handler: Handler, ghost before: seq<byte>)
      requires !Endless(before + chunk, handler) && Agrees(Value(), Expected(before, handler))
      modifies this
      ensures Agrees(Value(), Expected(before + chunk, handler))
    {
      ClosedStaysClosed(before, chunk, handler);
      if open {
        querybuf := querybuf + chunk;
        ProcessQueryBuffer(handler, before);
      }
    }

    /**
     * However the stream is cut into reads, the handler runs once, as soon as the header and the body are there, and on
     * exactly these bytes; a wrong magic number closes the connection with the header.
     */
    method ReadAll(chunks: seq<seq<byte>>, handler: Handler)
      requires Value() == NEW_CONNECTION && !Endless(Joined(chunks), handler)
      modifies this
      ensures Agrees(Value(), Expected(Joined(chunks), handler))
    {
      assert chunks[..|chunks|] == chunks;
      for i := 0 to |chunks|
        invariant Agrees(Value(), Expected(Joined(chunks[..i]), handler))
      {
        assert chunks[..i + 1][..i] == chunks[..i];
        JoinedGrows(chunks, i + 1);
        EndlessStays(Joined(chunks[..i + 1]), Joined(chunks), handler);
        ReadQuery(chunks[i], handler, Joined(chunks[..i]));
      }
    }
  }

  function Joined(chunks: seq<seq<byte>>): seq<byte> {
    if chunks == [] then [] else Joined(chunks[..|chunks| - 1]) + chunks[|chunks| - 1]
  }

  lemma {:induction false} JoinedGrows(chunks: seq<seq<byte>>, i: nat)
    requires i <= |chunks|
    ensures Joined(chunks[..i]) <= Joined(chunks)
  {
    if i < |chunks| {
      var before := chunks[..|chunks| - 1];
      assert before[..i] == chunks[..i];
      JoinedGrows(before, i);
    } else {
      assert chunks[..i] == chunks;
    }
  }

  lemma EndlessStays(data: seq<byte>, all: seq<byte>, handler: Handler)
    requires data <= all
    ensures Endless(data, handler) ==> Endless(all, handler)
  {
    assert all == data + all[|data|..];
    if Endless(data, handler) {
      PrefixDecides(data, all[|data|..]);
    }
  }

  /** What was decided stays decided. */
  lemma ClosedStaysClosed(data: seq<byte>, more: seq<byte>, handler: Handler)
    ensures !Expected(data, handler).open ==> Agrees(Expected(data, handler), Expected(data + more, handler))
  {
    if |data| >= XHEAD_SIZE {
      PrefixDecides(data, more);
    }
  }

  // ---- The limit --------------------------------------------------------------------------------------

  function Turns(c: Connection, handler: Handler, n: nat): Connection {
    if n == 0 then c
    else
      var before := Turns(c, handler, n - 1);
      if CanTurn(before) then Turn(before, handler) else before
  }

  function Copies(r: Request, n: nat): seq<Request> {
    if n == 0 then [] else Copies(r, n - 1) + [r]
  }

  /**
   * After an accepted request the loop rests exactly while fewer than 65571 bytes were read. From there on every turn
   * hands the first request to the handler again and leaves the loop ready for the next turn.
   */
  lemma {:induction false} RestsBelowTheLimit(c: Connection, handler: Handler, n: nat)
    requires c.open && c.inBody && c.bytesProcessed == AFTER_REQUEST && |c.querybuf| >= XHEAD_SIZE
    requires |c.querybuf| >= XHEAD_SIZE + BodyLength(c.querybuf) && handler(RequestIn(c.querybuf))
    ensures CanTurn(c) <==> |c.querybuf| >= LIMIT
    ensures Turns(c, handler, n) ==
            if CanTurn(c) then c.(calls := c.calls + Copies(RequestIn(c.querybuf), n)) else c
  {
    if n == 0 {
      AppendNothing(c.calls);
    } else {
      RestsBelowTheLimit(c, handler, n - 1);
      AppendAssoc(c.calls, Copies(RequestIn(c.querybuf), n - 1), [RequestIn(c.querybuf)]);
    }
  }

  lemma {:induction false} TurnsCompose(c: Connection, handler: Handler, k: nat, n: nat)
    ensures Turns(Turns(c, handler, k), handler, n) == Turns(c, handler, k + n)
  {
    if n > 0 {
      TurnsCompose(c, handler, k, n - 1);
    }
  }

  /** Where the loop stands after the turns that read the header and the body of what is in the buffer. */
  lemma TwoTurns(data: seq<byte>, more: seq<byte>, handler: Handler) returns (k: nat)
    ensures var c := Expected(data, handler).(querybuf := data + more);
            var d := Turns(c, handler, k);
            if Endless(data + more, handler)
            then d.open && d.inBody && d.bytesProcessed == AFTER_REQUEST && d.querybuf == data + more
            else !CanTurn(d)
  {
    var c := Expected(data, handler).(querybuf := data + more);
    if |data| >= XHEAD_SIZE {
      PrefixDecides(data, more);
    }
    assert Turns(c, handler, 0) == c;
    if !CanTurn(c) || (c.bytesProcessed == AFTER_REQUEST && c.calls != []) {
      k := 0;
    } else {
      var d := Turn(c, handler);
      assert Turns(c, handler, 1) == d;
      if c.inBody || !CanTurn(d) {
        k := 1;
      } else {
        assert Turns(c, handler, 2) == Turn(d, handler);
        k := 2;
      }
    }
  }

  /** On every stream, the loop rests after some turns exactly when it is not handed such a request over and over. */
  lemma RestsExactly(data: seq<byte>, more: seq<byte>, handler: Handler)
    ensures var c := Expected(data, handler).(querybuf := data + more);
            (exists n :: !CanTurn(Turns(c, handler, n))) <==> !Endless(data + more, handler)
  {
    var c := Expected(data, handler).(querybuf := data + more);
    var k := TwoTurns(data, more, handler);
    if Endless(data + more, handler) {
      var d := Turns(c, handler, k);
      forall n: nat
        ensures CanTurn(Turns(c, handler, n))
      {
        RestsBelowTheLimit(d, handler, n);
        TurnsCompose(c, handler, k, n);
        StuckBefore(c, handler, n, k);
      }
    }
  }

  /** A loop that cannot turn stays where it is. */
  lemma {:induction false} StuckBefore(c: Connection, handler: Handler, n: nat, k: nat)
    ensures !CanTurn(Turns(c, handler, n)) ==> Turns(c, handler, n + k) == Turns(c, handler, n)
  {
    if k > 0 {
      StuckBefore(c, handler, n, k - 1);
    }
  }

  /** Every request the handler accepts becomes such a stream with enough bytes behind it, whatever they are. */
  lemma AcceptedRequestRepeats(header: seq<byte>, body: seq<byte>, more: seq<byte>, handler: Handler)
    requires |header| == XHEAD_SIZE && MagicOf(header) == MAGIC_NUM && BodyLength(header) == |body|
    requires handler(Request(header, body))
    ensures Endless(header + body + more, handler) <==> |header| + |body| + |more| >= LIMIT
  {
    PrefixDecides(header, body);
    PrefixDecides(header + body, more);
    assert (header + body)[..XHEAD_SIZE] == header;
    assert (header + body)[XHEAD_SIZE..XHEAD_SIZE + |body|] == body;
  }

  /** An answer with nothing else in it: whatever comes of it goes into the reply, and the request counts as handled. */
  const ANSWER_HEADER: seq<byte> := Zeros(24) + [0x09, 0x23, 0x20, 0xfb] + Zeros(4) + [11, 0, 0, 0]

  /** The text {"cmdno":3}. */
  const ANSWER_BODY: seq<byte> := [123, 34, 99, 109, 100, 110, 111, 34, 58, 51, 125]

  /** So many bytes of any kind behind that request keep the loop busy for ever, and fewer do not. */
  lemma AnswerRepeats(more: seq<byte>, handler: Handler)
    requires handler(Request(ANSWER_HEADER, ANSWER_BODY))
    ensures Endless(ANSWER_HEADER + ANSWER_BODY + more, handler) <==> |more| >= 65524
  {
    hide Zeros, Endless;
    var h := ANSWER_HEADER;
    assert h[24] == 0x09 && h[25] == 0x23 && h[26] == 0x20 && h[27] == 0xfb;
    assert h[32] == 11 && h[33] == 0 && h[34] == 0 && h[35] == 0;
    AcceptedRequestRepeats(h, ANSWER_BODY, more, handler);
  }
}
