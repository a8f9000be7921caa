/** Requests on their way from the signaling workers through the server thread to the RTC workers. */
module Pipelines {
  import opened Octets
  import opened Mailboxes

  datatype Msg = Msg(streamName: string, uid: nat)

  /** The number of workers and the checksum that `_get_worker` spreads stream names with. */
  datatype Config = Config(workers: nat, crc32: string -> uint32)

  /** `init` fails unless every configured worker was created. */
  predicate Started(c: Config) {
    c.workers > 0
  }

  function WorkerOf(c: Config, name: string): nat
    requires Started(c)
  {
    c.crc32(name) % c.workers
  }

  /** The worker is below their number, and the checksum is that many more than a multiple of it. */
  lemma WorkerIsRemainder(c: Config, name: string)
    requires Started(c)
    ensures WorkerOf(c, name) < c.workers
    ensures c.crc32(name) == c.crc32(name) / c.workers * c.workers + WorkerOf(c, name)
  {
  }

  /** Where the server thread stands after a pop. */
  datatype ServerPhase = AtRest | Holding(m: Msg) | Announcing(worker: nat)

  /** The server's mailbox has many senders; each worker's has the server thread as its only one. */
  datatype State = State(server: Mailbox<Msg>, workers: seq<Mailbox<Msg>>, phase: ServerPhase)

  function EmptyBoxes(n: nat): (boxes: seq<Mailbox<Msg>>)
    ensures |boxes| == n && forall i :: 0 <= i < n ==> boxes[i] == Empty()
  {
    if n == 0 then [] else EmptyBoxes(n - 1) + [Empty()]
  }

  function Initial(c: Config): State {
    State(Empty(), EmptyBoxes(c.workers), AtRest)
  }

  datatype Action =
    | Send(m: Msg)
    | SenderAnnounces
    | ServerReads
    | ServerPops
    | ServerForwards
    | ServerAnnounces
    | WorkerReads(worker: nat)
    | WorkerPops(worker: nat)

  predicate CanDo(c: Config, s: State, a: Action) {
    match a
    case Send(_) => true
    case SenderAnnounces => Possible(s.server, Announce)
    case ServerReads => s.phase.AtRest? && Possible(s.server, ReadToken)
    case ServerPops => s.phase.AtRest? && Possible(s.server, Pop)
    case ServerForwards => s.phase.Holding? && Started(c) && |s.workers| == c.workers
    case ServerAnnounces =>
      s.phase.Announcing? && s.phase.worker < |s.workers| && Possible(s.workers[s.phase.worker], Announce)
    case WorkerReads(w) => w < |s.workers| && Possible(s.workers[w], ReadToken)
    case WorkerPops(w) => w < |s.workers| && Possible(s.workers[w], Pop)
  }

  function AtWorker(s: State, w: nat, e: Event<Msg>): State
    requires w < |s.workers| && Possible(s.workers[w], e)
  {
    s.(workers := s.workers[w := Step(s.workers[w], e)])
  }

  function Do(c: Config, s: State, a: Action): State
    requires CanDo(c, s, a)
  {
    match a
    case Send(m) => s.(server := Step(s.server, Push(m)))
    case SenderAnnounces => s.(server := Step(s.server, Announce))
    case ServerReads => s.(server := Step(s.server, ReadToken))
    case ServerPops =>
      State(Step(s.server, Pop), s.workers, if s.server.queue == [] then AtRest else Holding(s.server.queue[0]))
    case ServerForwards =>
      var w := WorkerOf(c, s.phase.m.streamName);
      AtWorker(s, w, Push(s.phase.m)).(phase := Announcing(w))
    case ServerAnnounces => AtWorker(s, s.phase.worker, Announce).(phase := AtRest)
    case WorkerReads(w) => AtWorker(s, w, ReadToken)
    case WorkerPops(w) => AtWorker(s, w, Pop)
  }

  predicate IsRun(c: Config, s: State, actions: seq<Action>)
    decreases |actions|
  {
    actions == [] || (CanDo(c, s, actions[0]) && IsRun(c, Do(c, s, actions[0]), actions[1..]))
  }

  function Run(c: Config, s: State, actions: seq<Action>): State
    requires IsRun(c, s, actions)
    decreases |actions|
  {
    if actions == [] then s else Run(c, Do(c, s, actions[0]), actions[1..])
  }

  // ---- The invariant --------------------------------------------------------------------------------

  /** The messages for one worker, in order. */
  function Routed(c: Config, s: seq<Msg>, w: nat): seq<Msg>
    requires Started(c)
  {
    if s == [] then []
    else
      var last := s[|s| - 1];
      Routed(c, s[..|s| - 1], w) + if WorkerOf(c, last.streamName) == w then [last] else []
  }

  /** The messages of one stream, in order. */
  function OfStream(s: seq<Msg>, name: string): seq<Msg> {
    if s == [] then []
    else
      var last := s[|s| - 1];
      OfStream(s[..|s| - 1], name) + if last.streamName == name then [last] else []
  }

  function Held(s: State): seq<Msg> {
    if s.phase.Holding? then [s.phase.m] else []
  }

  function AllArrived(s: State, w: nat): seq<Msg>
    requires w < |s.workers|
  {
    s.workers[w].arrived
  }

  /** `passed` is what the server has forwarded so far. */
  ghost predicate Inv(c: Config, s: State, passed: seq<Msg>)
    requires Started(c)
  {
    && Sound(s.server) && (s.server.reading ==> s.phase.AtRest?)
    && s.server.done == passed + Held(s)
    && |s.workers| == c.workers
    && (s.phase.Announcing? ==> s.phase.worker < c.workers)
    && forall w :: 0 <= w < c.workers ==>
         && Sound(s.workers[w])
         && s.workers[w].unannounced == (if s.phase == Announcing(w) then 1 else 0)
         && AllArrived(s, w) == Routed(c, passed, w)
  }

  lemma StepKeepsInv(c: Config, s: State, passed: seq<Msg>, a: Action) returns (passed': seq<Msg>)
    requires Started(c) && Inv(c, s, passed) && CanDo(c, s, a)
    ensures Inv(c, Do(c, s, a), passed')
  {
    passed' := passed;
    match a
    case Send(m) => StepKeepsSound(s.server, Push(m));
    case SenderAnnounces => StepKeepsSound(s.server, Announce);
    case ServerReads => StepKeepsSound(s.server, ReadToken);
    case ServerPops => StepKeepsSound(s.server, Pop);
    case ServerForwards =>
      passed' := passed + [s.phase.m];
    case ServerAnnounces => StepKeepsSound(s.workers[s.phase.worker], Announce);
    case WorkerReads(w) => StepKeepsSound(s.workers[w], ReadToken);
    case WorkerPops(w) => StepKeepsSound(s.workers[w], Pop);
  }

  lemma {:induction false} RunKeepsInv(c: Config, s: State, passed: seq<Msg>, actions: seq<Action>)
    returns (passed': seq<Msg>)
    requires Started(c) && Inv(c, s, passed) && IsRun(c, s, actions)
    ensures Inv(c, Run(c, s, actions), passed')
    decreases |actions|
  {
    passed' := passed;
    if actions != [] {
      passed' := StepKeepsInv(c, s, passed, actions[0]);
      passed' := RunKeepsInv(c, Do(c, s, actions[0]), passed', actions[1..]);
    }
  }

  // ---- Filtering --------------------------------------------------------------------------------------

  lemma {:induction false} OfStreamAppend(a: seq<Msg>, b: seq<Msg>, name: string)
    ensures OfStream(a + b, name) == OfStream(a, name) + OfStream(b, name)
  {
    if b == [] {
      assert a + b == a;
    } else {
      var last := |b| - 1;
      assert (a + b)[..|a| + last] == a + b[..last];
      OfStreamAppend(a, b[..last], name);
      AppendAssoc(OfStream(a, name), OfStream(b[..last], name), if b[last].streamName == name then [b[last]] else []);
    }
  }

  /** Everything of a stream goes to the worker its name selects, in order, and nothing of it to any other. */
  lemma {:induction false} RoutedKeepsStreams(c: Config, s: seq<Msg>, w: nat, name: string)
    requires Started(c)
    ensures OfStream(Routed(c, s, w), name) == if WorkerOf(c, name) == w then OfStream(s, name) else []
  {
    if s != [] {
      var before, last := s[..|s| - 1], s[|s| - 1];
      RoutedKeepsStreams(c, before, w, name);
      OfStreamAppend(Routed(c, before, w), [last], name);
      AppendNothing(Routed(c, before, w));
      AppendNothing(OfStream(Routed(c, before, w), name));
      AppendNothing(OfStream(s, name));
      assert [last][..0] == [];
      assert OfStream([last], name) == if last.streamName == name then [last] else [];
    }
  }

  // ---- Over whole runs ----------------------------------------------------------------------------------

  lemma InitialHasInv(c: Config)
    requires Started(c)
    ensures Inv(c, Initial(c), [])
  {
  }

  /**
   * In every interleaving each queue holds exactly one message for every token in its pipe, sender between push and
   * write, and owner between read and pop, so no token finds its queue empty.
   */
  lemma NothingIsStranded(c: Config, actions: seq<Action>)
    requires Started(c) && IsRun(c, Initial(c), actions)
    ensures var s := Run(c, Initial(c), actions);
            && |s.workers| == c.workers
            && !s.server.missed
            && |s.server.queue| == s.server.tokens + s.server.unannounced + (if s.server.reading then 1 else 0)
            && forall w :: 0 <= w < c.workers ==>
                 var b := s.workers[w];
                 && !b.missed
                 && |b.queue| == b.tokens + (if s.phase == Announcing(w) then 1 else 0) + if b.reading then 1 else 0
  {
    InitialHasInv(c);
    var passed := RunKeepsInv(c, Initial(c), [], actions);
  }

  /**
   * The messages of a stream are dequeued by the one worker its name selects, in the order in which they reached the
   * server; no other worker ever sees one.
   */
  lemma StreamsKeepTheirOrder(c: Config, actions: seq<Action>, name: string)
    requires Started(c) && IsRun(c, Initial(c), actions)
    ensures var s := Run(c, Initial(c), actions);
            && |s.workers| == c.workers
            && forall w :: 0 <= w < c.workers ==>
                 if w == WorkerOf(c, name)
                 then OfStream(s.workers[w].done, name) <= OfStream(s.server.arrived, name)
                 else OfStream(s.workers[w].arrived, name) == []
  {
    InitialHasInv(c);
    var passed := RunKeepsInv(c, Initial(c), [], actions);
    var s := Run(c, Initial(c), actions);
    forall w | 0 <= w < c.workers
      ensures if w == WorkerOf(c, name)
              then OfStream(s.workers[w].done, name) <= OfStream(s.server.arrived, name)
              else OfStream(s.workers[w].arrived, name) == []
    {
      WorkerSeesPrefix(c, s, passed, w, name);
    }
  }

  lemma WorkerSeesPrefix(c: Config, s: State, passed: seq<Msg>, w: nat, name: string)
    requires Started(c) && Inv(c, s, passed) && w < c.workers
    ensures if w == WorkerOf(c, name)
            then OfStream(s.workers[w].done, name) <= OfStream(s.server.arrived, name)
            else OfStream(s.workers[w].arrived, name) == []
  {
    hide OfStream, Routed;
    var b := s.workers[w];
    assert AllArrived(s, w) == Routed(c, passed, w);
    RoutedKeepsStreams(c, passed, w, name);
    OfStreamAppend(b.done, b.queue, name);
    AppendAssoc(passed, Held(s), s.server.queue);
    OfStreamAppend(passed, Held(s) + s.server.queue, name);
  }

  predicate AllQuiet(s: State) {
    Quiet(s.server) && s.phase.AtRest? && forall w :: 0 <= w < |s.workers| ==> Quiet(s.workers[w])
  }

  /** When no thread is in the middle of anything and no token is left, every message was dequeued by its worker. */
  lemma QuietMeansDelivered(c: Config, actions: seq<Action>)
    requires Started(c) && IsRun(c, Initial(c), actions)
    ensures var s := Run(c, Initial(c), actions);
            AllQuiet(s) ==>
            && |s.workers| == c.workers && s.server.done == s.server.arrived
            && forall w :: 0 <= w < c.workers ==> s.workers[w].done == Routed(c, s.server.arrived, w)
  {
    InitialHasInv(c);
    var passed := RunKeepsInv(c, Initial(c), [], actions);
    var s := Run(c, Initial(c), actions);
    if AllQuiet(s) {
      QuietMeansDrained(s.server);
      assert passed + [] == passed;
      forall w | 0 <= w < c.workers
        ensures s.workers[w].done == Routed(c, s.server.arrived, w)
      {
        QuietMeansDrained(s.workers[w]);
        assert AllArrived(s, w) == Routed(c, passed, w);
      }
    }
  }

  /** While something is undelivered, some thread can move. */
  lemma NeverStuck(c: Config, actions: seq<Action>)
    requires Started(c) && IsRun(c, Initial(c), actions)
    ensures var s := Run(c, Initial(c), actions);
            !AllQuiet(s) ==> exists a: Action :: !a.Send? && CanDo(c, s, a)
  {
    InitialHasInv(c);
    var passed := RunKeepsInv(c, Initial(c), [], actions);
    var s := Run(c, Initial(c), actions);
    if !AllQuiet(s) {
      if s.phase.Holding? {
        assert CanDo(c, s, ServerForwards);
      } else if s.phase.Announcing? {
        assert CanDo(c, s, ServerAnnounces);
      } else if !Quiet(s.server) {
        assert CanDo(c, s, SenderAnnounces) || CanDo(c, s, ServerReads) || CanDo(c, s, ServerPops);
      } else {
        var w :| 0 <= w < |s.workers| && !Quiet(s.workers[w]);
        assert CanDo(c, s, WorkerReads(w)) || CanDo(c, s, WorkerPops(w));
      }
    }
  }

  // ---- How much is left to do -------------------------------------------------------------------------

  /** A message at the server is seven steps from its worker, one at a worker's queue at most three. */
  function ServerWork(s: State): nat {
    7 * s.server.unannounced + 6 * s.server.tokens + (if s.server.reading then 5 else 0)
    + if s.phase.Holding? then 4 else 0
  }

  function BoxWork(b: Mailbox<Msg>): nat {
    3 * b.unannounced + 2 * b.tokens + if b.reading then 1 else 0
  }

  function BoxesWork(boxes: seq<Mailbox<Msg>>): nat {
    if boxes == [] then 0 else BoxesWork(boxes[..|boxes| - 1]) + BoxWork(boxes[|boxes| - 1])
  }

  function Work(s: State): nat {
    ServerWork(s) + BoxesWork(s.workers)
  }

  lemma {:induction false} OneBoxChanges(boxes: seq<Mailbox<Msg>>, w: nat, b: Mailbox<Msg>)
    requires w < |boxes|
    ensures BoxesWork(boxes[w := b]) == BoxesWork(boxes) - BoxWork(boxes[w]) + BoxWork(b)
  {
    var last := |boxes| - 1;
    if w < last {
      assert boxes[w := b][..last] == boxes[..last][w := b];
      OneBoxChanges(boxes[..last], w, b);
    } else {
      assert boxes[w := b][..last] == boxes[..last];
    }
  }

  /** A send adds seven steps; every other step of every thread is one of them. */
  lemma StepCountsDown(c: Config, s: State, passed: seq<Msg>, a: Action)
    requires Started(c) && Inv(c, s, passed) && CanDo(c, s, a)
    ensures Work(Do(c, s, a)) == if a.Send? then Work(s) + 7 else Work(s) - 1
  {
    match a
    case ServerForwards =>
      var w := WorkerOf(c, s.phase.m.streamName);
      OneBoxChanges(s.workers, w, Step(s.workers[w], Push(s.phase.m)));
    case ServerAnnounces =>
      OneBoxChanges(s.workers, s.phase.worker, Step(s.workers[s.phase.worker], Announce));
    case WorkerReads(w) => OneBoxChanges(s.workers, w, Step(s.workers[w], ReadToken));
    case WorkerPops(w) => OneBoxChanges(s.workers, w, Step(s.workers[w], Pop));
    case _ =>
  }

  function Sends(actions: seq<Action>): nat {
    if actions == [] then 0 else (if actions[0].Send? then 1 else 0) + Sends(actions[1..])
  }

  lemma {:induction false} RunCountsDown(c: Config, s: State, passed: seq<Msg>, actions: seq<Action>)
    requires Started(c) && Inv(c, s, passed) && IsRun(c, s, actions)
    ensures Work(Run(c, s, actions)) + (|actions| - Sends(actions)) == Work(s) + 7 * Sends(actions)
    decreases |actions|
  {
    if actions != [] {
      StepCountsDown(c, s, passed, actions[0]);
      var passed' := StepKeepsInv(c, s, passed, actions[0]);
      RunCountsDown(c, Do(c, s, actions[0]), passed', actions[1..]);
    }
  }

  lemma {:induction false} NoWorkMeansQuiet(boxes: seq<Mailbox<Msg>>)
    ensures BoxesWork(boxes) == 0 <==> forall w :: 0 <= w < |boxes| ==> Quiet(boxes[w])
  {
    if boxes != [] {
      var last := |boxes| - 1;
      NoWorkMeansQuiet(boxes[..last]);
      assert forall w :: 0 <= w < last ==> boxes[..last][w] == boxes[w];
    }
  }

  /**
   * Delivery takes seven steps per message, however the threads are interleaved: over any run the steps taken besides
   * sends and the steps still to come are seven times the sends, and none are left exactly when all threads rest.
   */
  lemma DeliveryTakesSevenSteps(c: Config, actions: seq<Action>)
    requires Started(c) && IsRun(c, Initial(c), actions)
    ensures var s := Run(c, Initial(c), actions);
            && (|actions| - Sends(actions)) + Work(s) == 7 * Sends(actions)
            && (Work(s) == 0 <==> AllQuiet(s))
  {
    InitialHasInv(c);
    NoWorkMeansQuiet(Initial(c).workers);
    RunCountsDown(c, Initial(c), [], actions);
    var passed := RunKeepsInv(c, Initial(c), [], actions);
    NoWorkMeansQuiet(Run(c, Initial(c), actions).workers);
  }
}
