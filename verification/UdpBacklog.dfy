/** The datagrams an asynchronous socket could not send at once. */
module UdpBacklogs {
  import opened Octets

  /** What one attempt on the socket comes to. */
  datatype Outcome = Sent | WouldBlock | Failed

  /**
   * Datagrams are numbered in the order of the `send_to` calls. Every number is in one list: `wire` has those that
   * left, in the order in which they left; `rejected` those whose call returned an error.
   */
  datatype Ledger<P> = Ledger(offered: seq<P>, wire: seq<nat>, waiting: seq<nat>, dropped: seq<nat>, rejected: seq<nat>,
                              armed: bool, attempts: nat)

  function Fresh<P>(): Ledger<P> {
    Ledger([], [], [], [], [], false, 0)
  }

  /** The answers of the socket, attempt by attempt. */
  type Socket = nat -> Outcome

  datatype DrainEnd = Emptied | Blocked | Broke

  function Tried<P>(l: Ledger<P>): Ledger<P> {
    l.(attempts := l.attempts + 1)
  }

  function SentFront<P>(l: Ledger<P>): Ledger<P>
    requires l.waiting != []
  {
    l.(waiting := l.waiting[1..], wire := l.wire + [l.waiting[0]])
  }

  function DroppedFront<P>(l: Ledger<P>): Ledger<P>
    requires l.waiting != []
  {
    l.(waiting := l.waiting[1..], dropped := l.dropped + [l.waiting[0]])
  }

  /** Sends from the front until the list is empty, the socket would block or an attempt fails. */
  function Drained<P>(l: Ledger<P>, socket: Socket): (Ledger<P>, DrainEnd)
    decreases |l.waiting|
  {
    if l.waiting == [] then (l, Emptied)
    else
      match socket(l.attempts)
      case Failed => (DroppedFront(Tried(l)), Broke)
      case WouldBlock => (Tried(l), Blocked)
      case Sent => Drained(SentFront(Tried(l)), socket)
  }

  function Queued<P>(l: Ledger<P>, n: nat): Ledger<P> {
    l.(waiting := l.waiting + [n], armed := true)
  }

  /** A `send_to`: the backlog first, then the new datagram if the backlog is gone. */
  function Offered<P>(l: Ledger<P>, p: P, socket: Socket): Ledger<P> {
    var n := |l.offered|;
    var (d, end) := Drained(l.(offered := l.offered + [p]), socket);
    match end
    case Broke => d.(rejected := d.rejected + [n])
    case Blocked => Queued(d, n)
    case Emptied =>
      match socket(d.attempts)
      case Failed => Tried(d).(rejected := d.rejected + [n])
      case WouldBlock => Queued(Tried(d), n)
      case Sent => Tried(d).(wire := d.wire + [n])
  }

  /** The socket became writable. */
  function Flushed<P>(l: Ledger<P>, socket: Socket): Ledger<P> {
    var (d, end) := Drained(l, socket);
    if end == Emptied then d.(armed := false) else d
  }

  // ---- The invariant --------------------------------------------------------------------------------

  predicate Increasing(s: seq<nat>) {
    forall i, j :: 0 <= i < j < |s| ==> s[i] < s[j]
  }

  function Fates<P>(l: Ledger<P>): multiset<nat> {
    multiset(l.wire) + multiset(l.waiting) + multiset(l.dropped) + multiset(l.rejected)
  }

  /** Everything offered has exactly one fate, what left and what waits is in order, and a waiting list is watched. */
  ghost predicate Sound<P>(l: Ledger<P>) {
    && (forall n: nat :: Fates(l)[n] == if n < |l.offered| then 1 else 0)
    && Increasing(l.wire + l.waiting)
    && (l.waiting != [] ==> l.armed)
  }

  lemma IncreasingFront(a: seq<nat>, b: seq<nat>)
    requires b != [] && Increasing(a + b)
    ensures Increasing(a + b[1..])
  {
    var c := a + b[1..];
    assert forall i :: 0 <= i < |c| ==> c[i] == (a + b)[if i < |a| then i else i + 1];
  }

  /** The last datagram dropped was offered before everything that waits. */
  predicate OldestDropped<P>(l: Ledger<P>) {
    l.dropped != [] && l.waiting != [] ==> l.dropped[|l.dropped| - 1] < l.waiting[0]
  }

  lemma FrontMoves<P>(l: Ledger<P>)
    requires l.waiting != [] && Increasing(l.wire + l.waiting)
    ensures Fates(SentFront(l)) == Fates(l) && Fates(DroppedFront(l)) == Fates(l)
    ensures Increasing(SentFront(l).wire + SentFront(l).waiting)
    ensures Increasing(DroppedFront(l).wire + DroppedFront(l).waiting)
  {
    assert l.waiting == [l.waiting[0]] + l.waiting[1..];
    AppendAssoc(l.wire, [l.waiting[0]], l.waiting[1..]);
    IncreasingFront(l.wire, l.waiting);
  }

  lemma FrontIsOldest<P>(l: Ledger<P>)
    requires l.waiting != [] && Increasing(l.wire + l.waiting)
    ensures OldestDropped(DroppedFront(l))
  {
    var line := l.wire + l.waiting;
    assert |l.waiting| > 1 ==> line[|l.wire|] == l.waiting[0] && line[|l.wire| + 1] == l.waiting[1];
  }

  /** Draining loses nothing and keeps the order; it ends with an empty list exactly when nothing stopped it. */
  lemma {:induction false} DrainedKeeps<P>(l: Ledger<P>, socket: Socket)
    requires Increasing(l.wire + l.waiting)
    ensures var (d, end) := Drained(l, socket);
            && Fates(d) == Fates(l) && Increasing(d.wire + d.waiting)
            && d.offered == l.offered && d.armed == l.armed && d.rejected == l.rejected
            && (end == Emptied ==> d.waiting == []) && (end == Blocked ==> d.waiting != [])
            && (l.waiting == [] ==> d == l) && (end == Broke ==> OldestDropped(d))
    decreases |l.waiting|
  {
    hide Increasing, OldestDropped;
    if l.waiting != [] {
      FrontMoves(Tried(l));
      FrontIsOldest(Tried(l));
      if socket(l.attempts) == Sent {
        DrainedKeeps(SentFront(Tried(l)), socket);
      }
      hide Fates;
    }
  }

  /** Everything but the newest datagram has its one fate. */
  ghost predicate SoundBut<P>(l: Ledger<P>, n: nat) {
    && |l.offered| == n + 1
    && (forall k: nat :: Fates(l)[k] == if k < n then 1 else 0)
    && Increasing(l.wire + l.waiting)
    && (l.waiting != [] ==> l.armed)
  }

  lemma NewestIsLargest<P>(l: Ledger<P>, n: nat)
    requires SoundBut(l, n)
    ensures Increasing(l.wire + l.waiting + [n])
  {
    var line: seq<nat> := l.wire + l.waiting;
    forall i | 0 <= i < |line|
      ensures line[i] < n
    {
      var k: nat := line[i];
      assert multiset(line) == multiset(l.wire) + multiset(l.waiting);
      assert k in multiset(line);
      assert Fates(l)[k] > 0;
    }
    assert forall i :: 0 <= i < |line| ==> (line + [n])[i] == line[i];
  }

  lemma NewestRejected<P>(l: Ledger<P>, n: nat)
    requires SoundBut(l, n)
    ensures Sound(l.(rejected := l.rejected + [n]))
  {
    hide Increasing;
    assert Fates(l.(rejected := l.rejected + [n])) == Fates(l) + multiset{n};
  }

  lemma NewestQueued<P>(l: Ledger<P>, n: nat)
    requires SoundBut(l, n)
    ensures Sound(Queued(l, n))
  {
    NewestIsLargest(l, n);
    hide Increasing;
    AppendAssoc(l.wire, l.waiting, [n]);
    assert Fates(Queued(l, n)) == Fates(l) + multiset{n};
  }

  lemma NewestSent<P>(l: Ledger<P>, n: nat)
    requires SoundBut(l, n) && l.waiting == []
    ensures Sound(l.(wire := l.wire + [n]))
  {
    NewestIsLargest(l, n);
    hide Increasing;
    AppendNothing(l.wire);
    AppendNothing(l.wire + [n]);
    assert Fates(l.(wire := l.wire + [n])) == Fates(l) + multiset{n};
  }

  // ---- Runs -------------------------------------------------------------------------------------------

  datatype Event<P> = SendTo(p: P) | Writable

  function Step<P>(l: Ledger<P>, e: Event<P>, socket: Socket): Ledger<P> {
    match e
    case SendTo(p) => Offered(l, p, socket)
    case Writable => Flushed(l, socket)
  }

  function Run<P>(l: Ledger<P>, events: seq<Event<P>>, socket: Socket): Ledger<P>
    decreases |events|
  {
    if events == [] then l else Run(Step(l, events[0], socket), events[1..], socket)
  }

  lemma StepKeepsSound<P>(l: Ledger<P>, e: Event<P>, socket: Socket)
    requires Sound(l)
    ensures Sound(Step(l, e, socket))
  {
    var n := |l.offered|;
    var noted := if e.SendTo? then l.(offered := l.offered + [e.p]) else l;
    DrainedKeeps(noted, socket);
    var (d, end) := Drained(noted, socket);
    assert Fates(d) == Fates(noted) == Fates(l);
    if e.SendTo? {
      assert SoundBut(d, n) && SoundBut(Tried(d), n) by {
        assert Fates(Tried(d)) == Fates(d);
        if d.waiting != [] {
          assert l.waiting != [];
        }
      }
      hide Increasing, Fates, Drained, Sound, SoundBut;
      match end {
        case Broke => NewestRejected(d, n);
        case Blocked => NewestQueued(d, n);
        case Emptied =>
          match socket(d.attempts) {
            case Failed => NewestRejected(Tried(d), n);
            case WouldBlock => NewestQueued(Tried(d), n);
            case Sent => NewestSent(Tried(d), n);
          }
      }
    }
  }

  /**
   * For every sequence of calls and events and every behaviour of the socket: each datagram has exactly one fate, the
   * datagrams leave in the order of the calls and before all that still wait, and write interest is armed whenever
   * something waits.
   */
  lemma {:induction false} EveryRunIsSound<P>(l: Ledger<P>, events: seq<Event<P>>, socket: Socket)
    requires Sound(l)
    ensures Sound(Run(l, events, socket))
    decreases |events|
  {
    hide Sound;
    if events != [] {
      StepKeepsSound(l, events[0], socket);
      EveryRunIsSound(Step(l, events[0], socket), events[1..], socket);
    }
  }

  // ---- What the socket's answers decide ---------------------------------------------------------------

  /** How many of the attempts from `from` up to `until` ended like this. */
  function Count(socket: Socket, o: Outcome, from: nat, until: nat): nat
    requires from <= until
    decreases until - from
  {
    if from == until then 0 else (if socket(from) == o then 1 else 0) + Count(socket, o, from + 1, until)
  }

  lemma {:induction false} CountOneMore(socket: Socket, o: Outcome, from: nat, until: nat)
    requires from <= until
    ensures Count(socket, o, from, until + 1) == Count(socket, o, from, until) + (if socket(until) == o then 1 else 0)
    decreases until - from
  {
    if from < until {
      CountOneMore(socket, o, from + 1, until);
    }
  }

  lemma {:induction false} CountSplits(socket: Socket, o: Outcome, from: nat, mid: nat, until: nat)
    requires from <= mid <= until
    ensures Count(socket, o, from, until) == Count(socket, o, from, mid) + Count(socket, o, mid, until)
    decreases until - from
  {
    if from < mid {
      CountSplits(socket, o, from + 1, mid, until);
    }
  }

  /**
   * From `l` to `r`, one datagram left for every attempt that was sent, and only failures cost a datagram: the oldest
   * unsent one in a drain. While anything waits, the socket's last answer was not that it had sent.
   */
  predicate Accounts<P>(l: Ledger<P>, r: Ledger<P>, socket: Socket) {
    && l.attempts <= r.attempts
    && |r.wire| == |l.wire| + Count(socket, Sent, l.attempts, r.attempts)
    && l.dropped <= r.dropped && |r.dropped| <= |l.dropped| + Count(socket, Failed, l.attempts, r.attempts)
    && (r.waiting != [] ==> r.attempts > l.attempts && socket(r.attempts - 1) != Sent)
  }

  lemma {:induction false} DrainAccounts<P>(l: Ledger<P>, socket: Socket)
    ensures var (d, end) := Drained(l, socket);
            && Accounts(l, d, socket)
            && Count(socket, Failed, l.attempts, d.attempts) == (if end == Broke then 1 else 0)
            && |d.dropped| == |l.dropped| + (if end == Broke then 1 else 0)
    decreases |l.waiting|
  {
    if l.waiting != [] && socket(l.attempts) == Sent {
      DrainAccounts(SentFront(Tried(l)), socket);
    }
  }

  /**
   * One call or event has at most one failed attempt. A call is refused exactly when it had one; a write event without
   * one leaves write interest armed exactly while something waits.
   */
  predicate Answers<P>(l: Ledger<P>, r: Ledger<P>, calls: bool, socket: Socket) {
    && Accounts(l, r, socket)
    && var failed := Count(socket, Failed, l.attempts, r.attempts);
    && failed <= 1
    && r.rejected == l.rejected + (if calls && failed == 1 then [|l.offered|] else [])
    && (|r.dropped| > |l.dropped| ==> OldestDropped(r))
    && (!calls ==> |r.dropped| == |l.dropped| + failed)
    && (!calls && failed == 0 ==> (r.armed <==> r.waiting != []))
  }

  /** Every step answers for its attempts. */
  lemma StepAnswers<P>(l: Ledger<P>, e: Event<P>, socket: Socket)
    requires Sound(l)
    ensures Answers(l, Step(l, e, socket), e.SendTo?, socket)
  {
    hide Drained, Increasing, Fates, Count;
    var noted := if e.SendTo? then l.(offered := l.offered + [e.p]) else l;
    var (d, end) := Drained(noted, socket);
    DrainAccounts(noted, socket);
    DrainedKeeps(noted, socket);
    CountOneMore(socket, Sent, l.attempts, d.attempts);
    CountOneMore(socket, Failed, l.attempts, d.attempts);
  }

  /**
   * Over every run: what left is counted by the attempts that were sent, and no more calls are refused and no more
   * datagrams dropped than attempts failed; so while none fails, a socket that would block costs nothing.
   */
  lemma {:induction false} OnlyFailuresCost<P>(l: Ledger<P>, events: seq<Event<P>>, socket: Socket)
    requires Sound(l)
    ensures var r := Run(l, events, socket);
            && l.attempts <= r.attempts
            && var failed := Count(socket, Failed, l.attempts, r.attempts);
            && failed <= |events|
            && |r.wire| == |l.wire| + Count(socket, Sent, l.attempts, r.attempts)
            && l.rejected <= r.rejected && |r.rejected| <= |l.rejected| + failed
            && l.dropped <= r.dropped && |r.dropped| <= |l.dropped| + failed
            && (failed == 0 ==> r.rejected == l.rejected && r.dropped == l.dropped)
    decreases |events|
  {
    if events != [] {
      hide Sound, Count, Step;
      var next := Step(l, events[0], socket);
      var r := Run(l, events, socket);
      StepAnswers(l, events[0], socket);
      StepKeepsSound(l, events[0], socket);
      OnlyFailuresCost(next, events[1..], socket);
      CountSplits(socket, Sent, l.attempts, next.attempts, r.attempts);
      CountSplits(socket, Failed, l.attempts, next.attempts, r.attempts);
    }
  }

  // ---- The object -------------------------------------------------------------------------------------

  /** The socket object; `answers` is what its socket does, attempt by attempt. */
  class AsyncUdpSocket<P> {
    const answers: Socket
    var attempts: nat
    var list: seq<P>
    var watchesWrite: bool
    ghost var ledger: Ledger<P>

    constructor (answers: Socket)
      ensures Valid() && ledger == Fresh() && this.answers == answers
    {
      this.answers := answers;
      attempts, list, watchesWrite, ledger := 0, [], false, Fresh();
    }

    ghost predicate Valid()
      reads this
    {
      && Sound(ledger) && Matches(ledger, list)
      && watchesWrite == ledger.armed && attempts == ledger.attempts
    }

    method SendSocket() returns (o: Outcome)
      modifies `attempts
      ensures o == answers(old(attempts)) && attempts == old(attempts) + 1
    {
      o := answers(attempts);
      attempts := attempts + 1;
    }

    /** The loop `send_data` and `_add_udp_packet` share. */
    method Drain() returns (end: DrainEnd)
      requires Matches(ledger, list) && attempts == ledger.attempts && Increasing(ledger.wire + ledger.waiting)
      modifies `attempts, `list, `ledger
      ensures (ledger, end) == Drained(old(ledger), answers)
      ensures Matches(ledger, list) && attempts == ledger.attempts
    {
      while list != []
        invariant Matches(ledger, list) && attempts == ledger.attempts
        invariant Drained(ledger, answers) == Drained(old(ledger), answers)
        decreases |list|
      {
        var sent := SendSocket();
        if sent == Failed {
          list := list[1..];
          ledger := DroppedFront(Tried(ledger));
          return Broke;
        } else if sent == WouldBlock {
          ledger := Tried(ledger);
          return Blocked;
        }
        list := list[1..];
        ledger := SentFront(Tried(ledger));
      }
      return Emptied;
    }

    /** `send_to`; the result is false where the source returns -1. */
    method AddUdpPacket(p: P) returns (ok: bool)
      requires Valid()
      modifies this
      ensures Valid() && ledger == Offered(old(ledger), p, answers)
      ensures !ok <==> ledger.rejected == old(ledger).rejected + [|old(ledger).offered|]
    {
      hide Sound, Increasing, Fates, Drained;
      StepKeepsSound(ledger, SendTo(p), answers);
      SoundIsIncreasing(ledger);
      DrainedKeeps(ledger.(offered := ledger.offered + [p]), answers);
      ledger := ledger.(offered := ledger.offered + [p]);
      var end := Drain();
      if end == Broke {
        ledger := ledger.(rejected := ledger.rejected + [|ledger.offered| - 1]);
        return false;
      }
      if end == Emptied {
        var sent := SendSocket();
        ledger := Tried(ledger);
        if sent == Failed {
          ledger := ledger.(rejected := ledger.rejected + [|ledger.offered| - 1]);
          return false;
        } else if sent == Sent {
          ledger := ledger.(wire := ledger.wire + [|ledger.offered| - 1]);
          return true;
        }
      }
      list := list + [p];
      watchesWrite := true;
      ledger := Queued(ledger, |ledger.offered| - 1);
      return true;
    }

    /** The write event. */
    method SendData()
      requires Valid()
      modifies this
      ensures Valid() && ledger == Flushed(old(ledger), answers)
    {
      StepKeepsSound(ledger, Event<P>.Writable, answers);
      DrainedKeeps(ledger, answers);
      var end := Drain();
      if end == Emptied {
        watchesWrite := false;
        ledger := ledger.(armed := false);
      }
    }
  }

  lemma SoundIsIncreasing<P>(l: Ledger<P>)
    requires Sound(l)
    ensures Increasing(l.wire + l.waiting)
  {
  }

  /** The list holds the waiting datagrams. */
  ghost predicate Matches<P>(l: Ledger<P>, list: seq<P>) {
    && |list| == |l.waiting|
    && forall i :: 0 <= i < |list| ==> l.waiting[i] < |l.offered| && list[i] == l.offered[l.waiting[i]]
  }
}
