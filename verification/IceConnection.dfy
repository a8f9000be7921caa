/** One candidate pair: its pings, its round-trip estimate and the write state they drive. */
module IceConnections {
  import opened Octets
  import opened Priorities

  const RTT_RATIO: int := 3
  const MIN_RTT: int := 100
  const MAX_RTT: int := 60000
  const CONNECT_FAILS: nat := 5
  const CONNECT_TIMEOUT: int := 5000
  const WRITE_TIMEOUT: int := 15000
  const RECEIVE_TIMEOUT: int := 2500

  datatype WriteState = Writable | WriteUnreliable | WriteInit | WriteTimeout

  /** The numbers of the enumeration: smaller is better. */
  function Rank(s: WriteState): nat {
    match s
    case Writable => 0
    case WriteUnreliable => 1
    case WriteInit => 2
    case WriteTimeout => 3
  }

  /** `pings` holds the send times of the pings since the last response, oldest first. */
  datatype Conn = Conn(writeState: WriteState, receiving: bool, lastPingSent: int, lastResponse: int,
                       pings: seq<int>, rtt: int, rttSamples: nat, numPings: nat)

  const NEW_CONN := Conn(WriteInit, false, 0, 0, [], 3000, 0, 0)

  // ---- The transitions on values ----------------------------------------------------------------

  function Clamp(rtt: int): int {
    if 2 * rtt < MIN_RTT then MIN_RTT else if 2 * rtt > MAX_RTT then MAX_RTT else 2 * rtt
  }

  /** The new sample weighs a quarter. */
  function NextRtt(c: Conn, rtt: int): int {
    if c.rttSamples > 0 then (RTT_RATIO * c.rtt + rtt) / (RTT_RATIO + 1) else rtt
  }

  /** A 64-bit time kept in an `int` of 32 bits. */
  function Narrow(time: int): (n: int)
    ensures -0x8000_0000 <= n < 0x8000_0000 && (time - n) % 0x1_0000_0000 == 0
  {
    (time + 0x8000_0000) % 0x1_0000_0000 - 0x8000_0000
  }

  function NextReceiving(c: Conn, now: int): bool {
    c.lastPingSent < c.lastResponse || (c.lastResponse > 0 && now < c.lastResponse + RECEIVE_TIMEOUT)
  }

  /** When the answer to the fifth unanswered ping was due. */
  function FifthIsDue(c: Conn): int
    requires |c.pings| >= CONNECT_FAILS
  {
    c.pings[CONNECT_FAILS - 1] + Clamp(c.rtt)
  }

  predicate TooManyFails(c: Conn, now: int) {
    |c.pings| >= CONNECT_FAILS && now > Narrow(FifthIsDue(c))
  }

  predicate TooLong(c: Conn, limit: int, now: int) {
    c.pings != [] && now > c.pings[0] + limit
  }

  function Pinged(c: Conn, now: int): Conn {
    c.(lastPingSent := now, pings := c.pings + [now], numPings := c.numPings + 1)
  }

  /** The bookkeeping of a response, before any state is recomputed. */
  function Heard(c: Conn, rtt: int, now: int): Conn {
    c.(rtt := NextRtt(c, rtt), rttSamples := c.rttSamples + 1, lastResponse := now, pings := [])
  }

  function WithReceiving(c: Conn, now: int): Conn {
    c.(receiving := NextReceiving(c, now))
  }

  function Responded(c: Conn, rtt: int, now: int): Conn {
    WithReceiving(Heard(c, rtt, now), now).(writeState := Writable)
  }

  function Degraded(c: Conn, now: int): Conn {
    if c.writeState == Writable && TooManyFails(c, now) && TooLong(c, CONNECT_TIMEOUT, now)
    then c.(writeState := WriteUnreliable) else c
  }

  function TimedOut(c: Conn, now: int): Conn {
    if (c.writeState == WriteUnreliable || c.writeState == WriteInit) && TooLong(c, WRITE_TIMEOUT, now)
    then c.(writeState := WriteTimeout) else c
  }

  function Updated(c: Conn, now: int): Conn {
    WithReceiving(TimedOut(Degraded(c, now), now), now)
  }

  predicate MissesResponse(c: Conn, now: int) {
    c.pings != [] && Narrow(now - c.pings[0]) > 2 * c.rtt
  }

  predicate IsStable(c: Conn, now: int) {
    c.rttSamples > RTT_RATIO + 1 && !MissesResponse(c, now)
  }

  // ---- Runs --------------------------------------------------------------------------------------

  datatype Event = PingAt(time: int) | ResponseAt(time: int, rtt: int) | UpdateAt(time: int)

  function Step(c: Conn, e: Event): Conn {
    match e
    case PingAt(now) => Pinged(c, now)
    case ResponseAt(now, rtt) => Responded(c, rtt, now)
    case UpdateAt(now) => Updated(c, now)
  }

  function Run(c: Conn, events: seq<Event>): Conn {
    if events == [] then c else Step(Run(c, events[..|events| - 1]), events[|events| - 1])
  }

  function Latest(start: int, events: seq<Event>): int {
    if events == [] then start else events[|events| - 1].time
  }

  /** The clock never steps back. */
  predicate Monotone(start: int, events: seq<Event>) {
    && (forall i :: 0 <= i < |events| ==> start <= events[i].time)
    && (forall i, j :: 0 <= i < j < |events| ==> events[i].time <= events[j].time)
  }

  // ---- What a history says, read off the events alone ----------------------------------------------

  function Responses(events: seq<Event>): nat {
    if events == [] then 0
    else Responses(events[..|events| - 1]) + (if events[|events| - 1].ResponseAt? then 1 else 0)
  }

  function Unanswered(events: seq<Event>): seq<int> {
    if events == [] then []
    else
      var e, before := events[|events| - 1], Unanswered(events[..|events| - 1]);
      match e
      case PingAt(now) => before + [now]
      case ResponseAt(_, _) => []
      case UpdateAt(_) => before
  }

  function LastResponse(events: seq<Event>): int {
    if events == [] then 0
    else if events[|events| - 1].ResponseAt? then events[|events| - 1].time
    else LastResponse(events[..|events| - 1])
  }

  function LastPing(events: seq<Event>): int {
    if events == [] then 0
    else if events[|events| - 1].PingAt? then events[|events| - 1].time
    else LastPing(events[..|events| - 1])
  }

  function Pings(events: seq<Event>): nat {
    if events == [] then 0
    else Pings(events[..|events| - 1]) + (if events[|events| - 1].PingAt? then 1 else 0)
  }

  predicate Sorted(s: seq<int>) {
    forall i, j :: 0 <= i < j < |s| ==> s[i] <= s[j]
  }

  /** What holds of a connection at every moment; `now` is the time of the latest event. */
  predicate Consistent(c: Conn, now: int) {
    && 0 <= c.lastResponse <= now && 0 <= c.lastPingSent <= now
    && Sorted(c.pings)
    && (forall i :: 0 <= i < |c.pings| ==> c.lastResponse <= c.pings[i] <= c.lastPingSent)
    && |c.pings| <= c.numPings
    && (c.writeState == Writable ==> c.rttSamples > 0)
    && (c.writeState == WriteInit ==> c.rttSamples == 0 && c.lastResponse == 0)
    && (c.writeState == WriteUnreliable ==> |c.pings| >= CONNECT_FAILS && now > c.pings[0] + CONNECT_TIMEOUT)
    && (c.writeState == WriteTimeout ==> c.pings != [] && now > c.pings[0] + WRITE_TIMEOUT)
  }

  lemma StepKeepsConsistent(c: Conn, now: int, e: Event)
    requires Consistent(c, now) && e.time >= now
    ensures Consistent(Step(c, e), e.time)
  {
  }

  lemma MonotonePrefix(start: int, events: seq<Event>)
    requires Monotone(start, events) && events != []
    ensures var before := events[..|events| - 1];
            && Monotone(start, before)
            && events[|events| - 1].time >= Latest(start, before)
  {
  }

  /** Every run keeps the connection consistent, and its fields are exactly what the history says. */
  lemma {:induction false} RunIsConsistent(events: seq<Event>)
    requires Monotone(0, events)
    ensures var c := Run(NEW_CONN, events);
            && Consistent(c, Latest(0, events))
            && c.pings == Unanswered(events)
            && c.lastResponse == LastResponse(events)
            && c.rttSamples == Responses(events)
            && c.lastPingSent == LastPing(events) && c.numPings == Pings(events)
            && (Responses(events) == 0 ==> c.rtt == 3000)
  {
    if events != [] {
      MonotonePrefix(0, events);
      var before := events[..|events| - 1];
      RunIsConsistent(before);
      StepKeepsConsistent(Run(NEW_CONN, before), Latest(0, before), events[|events| - 1]);
    }
  }

  /**
   * A pair receives, after a response or an update, exactly when the last ping was answered since or the last response
   * is less than 2.5 seconds old; a ping changes nothing of it.
   */
  lemma ReceivingIsHistory(events: seq<Event>)
    requires Monotone(0, events) && events != []
    ensures var last, before := events[|events| - 1], events[..|events| - 1];
            Run(NEW_CONN, events).receiving ==
            if last.PingAt? then Run(NEW_CONN, before).receiving
            else LastPing(events) < LastResponse(events)
                 || (LastResponse(events) > 0 && last.time < LastResponse(events) + 2500)
  {
    MonotonePrefix(0, events);
    RunIsConsistent(events[..|events| - 1]);
  }

  /** A pair is stable from its fifth response on, while the oldest open ping waits no longer than two round trips. */
  lemma StableIsHistory(events: seq<Event>, now: int)
    requires Monotone(0, events)
    ensures var c, open := Run(NEW_CONN, events), Unanswered(events);
            IsStable(c, now) <==> Responses(events) >= 5 && (open == [] || Narrow(now - open[0]) <= 2 * c.rtt)
  {
    RunIsConsistent(events);
  }

  /** The write state after an update, for every pair and clock. */
  lemma UpdateIsExact(c: Conn, now: int)
    ensures var waited, n := if c.pings == [] then 0 else now - c.pings[0], |c.pings|;
            var patience := if c.rtt < 50 then 100 else if c.rtt > 30000 then 60000 else 2 * c.rtt;
            var lost := n >= 5 && now > Narrow(c.pings[4] + patience) && waited > 5000;
            Updated(c, now).writeState ==
            match c.writeState
            case Writable => if lost && waited > 15000 then WriteTimeout else if lost then WriteUnreliable else Writable
            case WriteTimeout => WriteTimeout
            case s => if waited > 15000 then WriteTimeout else s
  {
  }

  /** Only a response improves the write state, and it always makes the pair writable. */
  lemma OnlyResponsesImprove(c: Conn, e: Event)
    ensures e.ResponseAt? ==> Step(c, e).writeState == Writable
    ensures !e.ResponseAt? && Step(c, e).writeState != c.writeState ==>
            && Rank(Step(c, e).writeState) > Rank(c.writeState)
            && e.UpdateAt? && Step(c, e).writeState in {WriteUnreliable, WriteTimeout}
  {
  }

  /** The first sample is taken as it is; a later one moves the estimate a quarter of the way, rounded down. */
  lemma EstimateMovesAQuarter(c: Conn, sample: int, now: int)
    ensures var next := Responded(c, sample, now).rtt;
            if c.rttSamples == 0 then next == sample
            else
              && 4 * next <= 3 * c.rtt + sample < 4 * next + 4
              && (c.rtt <= sample ==> c.rtt <= next <= sample)
              && (sample <= c.rtt ==> sample <= next <= c.rtt)
  {
  }

  /**
   * The narrowed deadline is the real one exactly when it is below 2^31 or has passed anyway. Once the clock is beyond
   * 2^31 (some 24 days of milliseconds) five unanswered pings are always too many, however short the wait.
   */
  lemma DeadlineIsExact(c: Conn, now: int)
    requires |c.pings| >= CONNECT_FAILS && 0 <= c.pings[CONNECT_FAILS - 1] <= now
    ensures (TooManyFails(c, now) <==> now > FifthIsDue(c)) <==> FifthIsDue(c) < 0x8000_0000 || now > FifthIsDue(c)
    ensures FifthIsDue(c) >= 0x8000_0000 ==> TooManyFails(c, now)
  {
    var due := FifthIsDue(c);
    var turns := (due + 0x8000_0000) / 0x1_0000_0000;
    assert Narrow(due) == due - turns * 0x1_0000_0000;
    if due < 0x8000_0000 {
      assert turns == 0;
    } else {
      assert turns >= 1;
    }
  }

  // ---- When exactly a pair that hears nothing degrades -------------------------------------------------

  predicate Silent(events: seq<Event>) {
    forall i :: 0 <= i < |events| ==> !events[i].ResponseAt?
  }

  /** At update number `k` of the run, at least `fails` pings are unanswered and the limits have passed. */
  predicate Overdue(c: Conn, events: seq<Event>, k: nat, limit: int)
    requires k < |events|
  {
    && events[k].UpdateAt?
    && TooManyFails(Run(c, events[..k]), events[k].time)
    && TooLong(Run(c, events[..k]), limit, events[k].time)
  }

  predicate Late(c: Conn, events: seq<Event>, k: nat)
    requires k < |events|
  {
    events[k].UpdateAt? && TooLong(Run(c, events[..k]), WRITE_TIMEOUT, events[k].time)
  }

  /** Without responses the list of pings only grows and the estimate stays. */
  lemma {:induction false} SilentRun(c: Conn, events: seq<Event>, k: nat)
    requires Silent(events) && k <= |events|
    ensures Run(c, events[..k]).pings <= Run(c, events).pings
    ensures Run(c, events[..k]).rtt == Run(c, events).rtt
  {
    if k < |events| {
      var before := events[..|events| - 1];
      assert events[..k] == before[..k];
      SilentRun(c, before, k);
    } else {
      assert events[..k] == events;
    }
  }

  /** An overdue update stays overdue at every later update of a silent run. */
  lemma OverdueStays(c: Conn, events: seq<Event>, start: int, j: nat, k: nat, limit: int)
    requires Silent(events) && Monotone(start, events) && j <= k < |events|
    requires Overdue(c, events, j, limit) && events[k].UpdateAt?
    ensures Overdue(c, events, k, limit)
  {
    assert events[..k][..j] == events[..j];
    SilentRun(c, events[..k], j);
  }

  /** Some update among the first `n` events found the pair overdue. */
  predicate EverOverdue(c: Conn, events: seq<Event>, n: nat, limit: int)
    requires n <= |events|
  {
    exists k :: 0 <= k < n && Overdue(c, events, k, limit)
  }

  lemma EverOverdueSteps(c: Conn, events: seq<Event>, limit: int)
    requires events != []
    ensures var last := |events| - 1;
            && (EverOverdue(c, events, |events|, limit) <==>
                EverOverdue(c, events[..last], last, limit) || Overdue(c, events, last, limit))
  {
    var last := |events| - 1;
    var before := events[..last];
    forall k | 0 <= k < last
      ensures Overdue(c, events, k, limit) <==> Overdue(c, before, k, limit)
    {
      assert events[..k] == before[..k];
    }
  }

  /**
   * From a writable pair with no ping outstanding, over any run without responses: the pair leaves the writable state
   * exactly when some update found 5 pings unanswered, the fifth past its narrowed deadline and the oldest for more
   * than 5 seconds; it is timed out exactly when at such an update the oldest was more than 15 seconds old.
   */
  lemma {:induction false} DegradesExactly(c: Conn, events: seq<Event>, start: int)
    requires c.writeState == Writable && c.pings == []
    requires Silent(events) && Monotone(start, events)
    ensures var s := Run(c, events).writeState;
            && s != WriteInit
            && (s != Writable <==> EverOverdue(c, events, |events|, CONNECT_TIMEOUT))
            && (s == WriteTimeout <==> EverOverdue(c, events, |events|, WRITE_TIMEOUT))
  {
    if events != [] {
      var last := |events| - 1;
      var before := events[..last];
      MonotonePrefix(start, events);
      DegradesExactly(c, before, start);
      EverOverdueSteps(c, events, CONNECT_TIMEOUT);
      EverOverdueSteps(c, events, WRITE_TIMEOUT);
      EverOverdueLasts(c, events, start);
    }
  }

  lemma EverOverdueLasts(c: Conn, events: seq<Event>, start: int)
    requires events != [] && Silent(events) && Monotone(start, events)
    ensures var last := |events| - 1;
            EverOverdue(c, events[..last], last, CONNECT_TIMEOUT) && events[last].UpdateAt? ==>
            Overdue(c, events, last, CONNECT_TIMEOUT)
  {
    var last := |events| - 1;
    var before := events[..last];
    if EverOverdue(c, before, last, CONNECT_TIMEOUT) && events[last].UpdateAt? {
      var j :| 0 <= j < last && Overdue(c, before, j, CONNECT_TIMEOUT);
      assert events[..j] == before[..j];
      OverdueStays(c, events, start, j, last, CONNECT_TIMEOUT);
    }
  }

  /** A new pair that hears nothing times out exactly when an update comes more than 15 seconds after its first ping. */
  lemma {:induction false} ConnectTimesOutExactly(events: seq<Event>)
    requires Silent(events) && Monotone(0, events)
    ensures var s := Run(NEW_CONN, events).writeState;
            && s in {WriteInit, WriteTimeout}
            && (s == WriteTimeout <==> exists k :: 0 <= k < |events| && Late(NEW_CONN, events, k))
  {
    if events != [] {
      var last := |events| - 1;
      var before := events[..last];
      MonotonePrefix(0, events);
      ConnectTimesOutExactly(before);
      forall k | 0 <= k < last
        ensures Late(NEW_CONN, events, k) <==> Late(NEW_CONN, before, k)
      {
        assert events[..k] == before[..k];
      }
      assert Late(NEW_CONN, events, last) <==>
             events[last].UpdateAt? && TooLong(Run(NEW_CONN, before), WRITE_TIMEOUT, events[last].time);
    }
  }

  // ---- The object -------------------------------------------------------------------------------------

  /**
   * A candidate pair. Where a change of state raises a signal, the channel makes the change and reacts to it.
   */
  class IceConnection {
    const localPriority: uint32
    const remotePriority: uint32
    const remoteUfrag: string
    var remotePwd: string
    var writeState: WriteState
    var receiving: bool
    var lastPingSent: int
    var lastResponse: int
    var pings: seq<int>
    var rtt: int
    var rttSamples: nat
    var numPings: nat

    constructor (localPriority: uint32, remotePriority: uint32, ufrag: string, pwd: string)
      ensures Value() == NEW_CONN
      ensures this.localPriority == localPriority && this.remotePriority == remotePriority
      ensures remoteUfrag == ufrag && remotePwd == pwd
    {
      this.localPriority, this.remotePriority := localPriority, remotePriority;
      remoteUfrag, remotePwd := ufrag, pwd;
      writeState, receiving, lastPingSent, lastResponse := WriteInit, false, 0, 0;
      pings, rtt, rttSamples, numPings := [], 3000, 0, 0;
    }

    function Value(): Conn
      reads `writeState, `receiving, `lastPingSent, `lastResponse, `pings, `rtt, `rttSamples, `numPings
    {
      Conn(writeState, receiving, lastPingSent, lastResponse, pings, rtt, rttSamples, numPings)
    }

    predicate Writes()
      reads `writeState
    {
      writeState == Writable
    }

    predicate Weak()
      reads `writeState, `receiving
    {
      !(Writes() && receiving)
    }

    predicate Credentialed()
      reads `remotePwd
    {
      remoteUfrag != "" && remotePwd != ""
    }

    function Priority(): uint64 {
      PairPriority(localPriority, remotePriority)
    }

    method Ping(now: int)
      modifies `lastPingSent, `pings, `numPings
      ensures Value() == Pinged(old(Value()), now)
    {
      lastPingSent := now;
      pings := pings + [now];
      numPings := numPings + 1;
    }

    /** The part of `received_ping_response` before its first signal. */
    method RecordResponse(sample: int, now: int)
      modifies `rtt, `rttSamples, `lastResponse, `pings
      ensures Value() == Heard(old(Value()), sample, now)
    {
      if rttSamples > 0 {
        rtt := (RTT_RATIO * rtt + sample) / (RTT_RATIO + 1);
      } else {
        rtt := sample;
      }
      rttSamples := rttSamples + 1;
      lastResponse := now;
      pings := [];
    }

    /** The value `update_receiving` finds. */
    method FindsReceiving(now: int) returns (hears: bool)
      ensures hears == NextReceiving(Value(), now)
    {
      if lastPingSent < lastResponse {
        hears := true;
      } else {
        hears := lastResponse > 0 && now < lastResponse + RECEIVE_TIMEOUT;
      }
    }

    method SetReceiving(hears: bool)
      modifies `receiving
      ensures Value() == old(Value()).(receiving := hears)
    {
      receiving := hears;
    }

    method SetWriteState(state: WriteState)
      modifies `writeState
      ensures Value() == old(Value()).(writeState := state)
    {
      writeState := state;
    }

    /** The first test of `update_state`. */
    method FindsUnreliable(now: int) returns (lost: bool)
      ensures Degraded(Value(), now) == if lost then Value().(writeState := WriteUnreliable) else Value()
    {
      var limit := 2 * rtt;
      if limit < MIN_RTT {
        limit := MIN_RTT;
      } else if limit > MAX_RTT {
        limit := MAX_RTT;
      }
      lost := writeState == Writable
              && |pings| >= CONNECT_FAILS && now > Narrow(pings[CONNECT_FAILS - 1] + limit)
              && pings != [] && now > pings[0] + CONNECT_TIMEOUT;
    }

    /** The second test of `update_state`. */
    method FindsTimeout(now: int) returns (lost: bool)
      ensures TimedOut(Value(), now) == if lost then Value().(writeState := WriteTimeout) else Value()
    {
      lost := (writeState == WriteUnreliable || writeState == WriteInit)
              && pings != [] && now > pings[0] + WRITE_TIMEOUT;
    }

    /** A password is taken over only for the right fragment and only once. */
    method MaybeSetRemoteIceParams(ufrag: string, pwd: string)
      modifies `remotePwd
      ensures remotePwd == (if remoteUfrag == ufrag && old(remotePwd) == "" then pwd else old(remotePwd))
      ensures old(Credentialed()) ==> Credentialed()
    {
      if remoteUfrag == ufrag && remotePwd == "" {
        remotePwd := pwd;
      }
    }
  }
}
