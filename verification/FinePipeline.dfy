/** The pipeline with every worker's queue taken apart into the single steps of its two threads. */
module FinePipelines {
  import opened Octets
  import opened Mailboxes
  import opened Pipelines
  import Q = QueueInterleavings

  /**
   * A queue and its pipe. `writing` lasts from the call of `produce` until the token is written, `reading` from the
   * token read until `consume` returns; `missed` is raised by a `consume` that finds nothing.
   */
  datatype Piped<M> = Piped(queue: Q.State<M>, tokens: nat, writing: bool, reading: bool, missed: bool)

  function EmptyPiped<M>(blank: M, at: Q.Addr): Piped<M> {
    Piped(Q.Initial(blank, at), 0, false, false, false)
  }

  datatype PipedStep<M> = Begin(m: M) | Producing(address: Q.Addr) | WriteToken | TakeToken | Ask | Consuming

  predicate Enabled<M>(p: Piped<M>, a: PipedStep<M>) {
    match a
    case Begin(m) => !p.writing && Q.Possible(p.queue, Q.Offer(m))
    case Producing(address) => Q.Possible(p.queue, Q.ProducerStep(address))
    case WriteToken => p.writing && p.queue.producer.Resting?
    case TakeToken => !p.reading && p.tokens > 0
    case Ask => p.reading && Q.Possible(p.queue, Q.Ask)
    case Consuming => Q.Possible(p.queue, Q.ConsumerStep)
  }

  function Act<M>(p: Piped<M>, a: PipedStep<M>): Piped<M>
    requires Enabled(p, a)
  {
    match a
    case Begin(m) => p.(queue := Q.Step(p.queue, Q.Offer(m)), writing := true)
    case Producing(address) => p.(queue := Q.Step(p.queue, Q.ProducerStep(address)))
    case WriteToken => p.(writing := false, tokens := p.tokens + 1)
    case TakeToken => p.(reading := true, tokens := p.tokens - 1)
    case Ask => p.(queue := Q.Step(p.queue, Q.Ask))
    case Consuming =>
      var q := Q.Step(p.queue, Q.ConsumerStep);
      p.(queue := q, reading := !q.consumer.Idle?, missed := p.missed || FindsNothing(p))
  }

  predicate FindsNothing<M>(p: Piped<M>) {
    p.queue.consumer.Testing? && p.queue.divider == p.queue.last
  }

  // ---- The mailbox it amounts to ----------------------------------------------------------------------

  /** What has reached the list: everything offered but the argument still on its way. */
  function Arrived<M>(q: Q.State<M>): seq<M> {
    if |Q.Arriving(q)| <= |q.offered| then q.offered[..|q.offered| - |Q.Arriving(q)|] else []
  }

  /** What has left the list: everything taken and the result on its way. */
  function Gone<M>(q: Q.State<M>): seq<M> {
    q.taken + Q.Leaving(q)
  }

  ghost predicate Accounted<M>(q: Q.State<M>) {
    && |Q.Arriving(q)| <= |q.offered|
    && Gone(q) <= Arrived(q)
    && Arrived(q) + Q.Arriving(q) == q.offered
  }

  /** A push takes effect when `last` moves, a pop when the divider does. */
  function Abstract<M>(p: Piped<M>): Mailbox<M> {
    Box(Arrived(p.queue), Gone(p.queue), p.tokens, if p.writing && Q.Arriving(p.queue) == [] then 1 else 0,
        p.reading && !p.queue.consumer.Discounting?, p.missed)
  }

  function Box<M>(arrived: seq<M>, gone: seq<M>, tokens: nat, unannounced: nat, reading: bool, missed: bool)
    : Mailbox<M>
  {
    Mailbox(if |gone| <= |arrived| then arrived[|gone|..] else [], tokens, unannounced, reading, arrived, gone, missed)
  }

  lemma BoxPops<M>(arrived: seq<M>, gone: seq<M>, v: M, tokens: nat, unannounced: nat, missed: bool)
    requires gone + [v] <= arrived
    ensures Possible(Box(arrived, gone, tokens, unannounced, true, missed), Pop)
    ensures Step(Box(arrived, gone, tokens, unannounced, true, missed), Pop) ==
            Box(arrived, gone + [v], tokens, unannounced, false, missed)
  {
    assert arrived[|gone|] == (gone + [v])[|gone|];
    assert arrived[|gone|..][1..] == arrived[|gone + [v]|..];
  }

  lemma BoxMisses<M>(arrived: seq<M>, tokens: nat, unannounced: nat, missed: bool)
    ensures Possible(Box(arrived, arrived, tokens, unannounced, true, missed), Pop)
    ensures Step(Box(arrived, arrived, tokens, unannounced, true, missed), Pop) ==
            Box(arrived, arrived, tokens, unannounced, false, true)
  {
  }

  /** The list is as some interleaving leaves it. */
  ghost predicate Shaped<M>(q: Q.State<M>) {
    exists chain, d :: Q.Inv(q, chain, d)
  }

  ghost predicate Sane<M>(p: Piped<M>) {
    && Accounted(p.queue)
    && Shaped(p.queue)
    && (!p.queue.producer.Resting? ==> p.writing)
    && (!p.queue.consumer.Idle? ==> p.reading)
  }

  /** The mailbox event that a step amounts to, if any. */
  function Shown<M>(p: Piped<M>, a: PipedStep<M>): Option<Event<M>> {
    match a
    case Producing(_) => if p.queue.producer.Advancing? then Some(Push(p.queue.producer.t)) else None
    case WriteToken => Some(Announce)
    case TakeToken => Some(ReadToken)
    case Consuming => if p.queue.consumer.StoringDivider? || FindsNothing(p) then Some(Pop) else None
    case _ => None
  }

  lemma InvIsAccounted<M>(q: Q.State<M>, chain: seq<Q.Addr>, d: nat)
    requires Q.Inv(q, chain, d)
    ensures Accounted(q) && Q.AllIn(chain, q.nodes) && d < |chain|
    ensures Arrived(q) == Gone(q) + Q.Pending(q, chain, d)
    ensures Arrived(q)[|Gone(q)|..] == Q.Pending(q, chain, d)
    ensures q.divider == q.last ==> Q.Pending(q, chain, d) == []
    ensures !q.fault
  {
    hide Q.Values, Q.Members, Q.Held;
    var stored := Gone(q) + Q.Pending(q, chain, d);
    assert q.offered == stored + Q.Arriving(q);
    assert q.offered[..|stored|] == stored;
  }

  lemma EmptySane<M>(blank: M, at: Q.Addr)
    ensures Sane(EmptyPiped(blank, at)) && Abstract(EmptyPiped(blank, at)) == Empty()
  {
    Q.InitialHasInv(blank, at);
  }

  // ---- Every step is one of the mailbox, or none -------------------------------------------------------

  /** A step of the queue by itself. */
  lemma QueueStepIsSafe<M>(q: Q.State<M>, a: Q.Action<M>)
    requires Shaped(q) && Q.Possible(q, a)
    ensures Shaped(Q.Step(q, a))
    ensures Accounted(q) && Accounted(Q.Step(q, a)) && !Q.Step(q, a).fault
    ensures q.divider == q.last ==> Gone(q) == Arrived(q)
  {
    hide Q.Inv, Q.Step, Q.Possible, Accounted;
    var chain, d :| Q.Inv(q, chain, d);
    InvIsAccounted(q, chain, d);
    var chain', d' := Q.StepKeepsInv(q, chain, d, a);
    InvIsAccounted(Q.Step(q, a), chain', d');
    AppendNothing(Gone(q));
  }

  /** The action of the queue inside a step. */
  function QueueAction<M>(a: PipedStep<M>): Option<Q.Action<M>> {
    match a
    case Begin(m) => Some(Q.Offer(m))
    case Producing(address) => Some(Q.ProducerStep(address))
    case Ask => Some(Q.Ask)
    case Consuming => Some(Q.ConsumerStep)
    case _ => None
  }

  lemma ActKeepsSane<M>(p: Piped<M>, a: PipedStep<M>)
    requires Sane(p) && Enabled(p, a)
    ensures Sane(Act(p, a))
  {
    hide Shaped, Accounted;
    if QueueAction(a).Some? {
      QueueStepIsSafe(p.queue, QueueAction(a).value);
    }
  }

  /** A step is the mailbox event it shows, or changes nothing that the mailbox has. */
  ghost predicate ShowsAs<M>(p: Piped<M>, a: PipedStep<M>)
    requires Enabled(p, a)
  {
    match Shown(p, a)
    case None => Abstract(Act(p, a)) == Abstract(p)
    case Some(e) => Possible(Abstract(p), e) && Abstract(Act(p, a)) == Step(Abstract(p), e)
  }

  /** What one step of the producer does to the accounts of the queue. */
  lemma ProducerMoves<M>(q: Q.State<M>, address: Q.Addr)
    requires !q.producer.Resting? && !Q.Produce(q, address).fault
    ensures var r := Q.Produce(q, address);
            && r.offered == q.offered && r.taken == q.taken && r.consumer == q.consumer
            && Q.Arriving(r) == (if q.producer.Advancing? then [] else Q.Arriving(q))
            && (q.producer.Advancing? ==> Q.Arriving(q) == [q.producer.t])
  {
    hide Q.Next;
  }

  /** A step of the producer's, seen from outside. */
  lemma ProducingShows<M>(p: Piped<M>, address: Q.Addr)
    requires Enabled(p, Producing(address)) && !Act(p, Producing(address)).queue.fault && p.writing
    requires Accounted(p.queue) && Accounted(Act(p, Producing(address)).queue)
    ensures var after := Abstract(Act(p, Producing(address)));
            if p.queue.producer.Advancing? then after == Step(Abstract(p), Push(p.queue.producer.t))
            else after == Abstract(p)
  {
    ProducerMoves(p.queue, address);
    hide Q.Produce, Q.Arriving;
    var q, r := p.queue, Act(p, Producing(address)).queue;
    assert Gone(r) == Gone(q);
    hide Gone;
    if q.producer.Advancing? {
      var n := |q.offered| - 1;
      assert q.offered == Arrived(q) + [q.producer.t];
      assert Arrived(r) == q.offered;
      assert Arrived(r)[|Gone(q)|..] == Arrived(q)[|Gone(q)|..] + [q.producer.t];
    }
  }

  /** What one step of the consumer does to them. */
  lemma ConsumerMoves<M>(q: Q.State<M>)
    requires !q.consumer.Idle? && !Q.Consume(q).fault
    ensures var r := Q.Consume(q);
            && r.offered == q.offered && r.producer == q.producer && Q.Arriving(r) == Q.Arriving(q)
            && Gone(r) == Gone(q) + (if q.consumer.StoringDivider? then [q.consumer.v] else [])
            && (r.consumer.Idle? <==>
                  q.consumer.Discounting? || (q.consumer.Testing? && q.divider == q.last))
            && (r.consumer.Discounting? <==> q.consumer.StoringDivider?)
  {
    hide Q.Next;
    AppendNothing(q.taken);
    AppendNothing(Gone(q));
  }

  /** A step of the consumer's, seen from outside. */
  lemma ConsumingShows<M>(p: Piped<M>)
    requires Enabled(p, Consuming) && !Act(p, Consuming).queue.fault && p.reading
    requires Accounted(p.queue) && Accounted(Act(p, Consuming).queue)
    requires p.queue.divider == p.queue.last ==> Gone(p.queue) == Arrived(p.queue)
    ensures var after := Abstract(Act(p, Consuming));
            if p.queue.consumer.StoringDivider? || FindsNothing(p)
            then Possible(Abstract(p), Pop) && after == Step(Abstract(p), Pop)
            else after == Abstract(p)
  {
    ConsumerMoves(p.queue);
    var q, r := p.queue, Act(p, Consuming).queue;
    var unannounced := if p.writing && Q.Arriving(q) == [] then 1 else 0;
    hide Q.Consume, Q.Arriving, Gone, Box, Step, Possible;
    AppendNothing(Gone(q));
    assert Arrived(r) == Arrived(q);
    if q.consumer.StoringDivider? {
      BoxPops(Arrived(q), Gone(q), q.consumer.v, p.tokens, unannounced, p.missed);
    } else if FindsNothing(p) {
      BoxMisses(Arrived(q), p.tokens, unannounced, p.missed);
    }
  }

  /** The calls and the pipe. */
  lemma OthersShow<M>(p: Piped<M>, a: PipedStep<M>)
    requires Sane(p) && Enabled(p, a) && Sane(Act(p, a)) && !a.Producing? && !a.Consuming?
    ensures ShowsAs(p, a)
  {
    hide Shaped;
    if a.Begin? {
      assert Arrived(Act(p, a).queue) == Arrived(p.queue);
    }
  }

  /** Every step of the two threads is the mailbox event it shows, or changes nothing that the mailbox has. */
  lemma StepRefines<M>(p: Piped<M>, a: PipedStep<M>)
    requires Sane(p) && Enabled(p, a)
    ensures Sane(Act(p, a))
    ensures ShowsAs(p, a)
  {
    hide *;
    ActKeepsSane(p, a);
    if a.Producing? || a.Consuming? {
      QueueActRefines(p, a);
    } else {
      OthersShow(p, a);
    }
  }

  lemma QueueActRefines<M>(p: Piped<M>, a: PipedStep<M>)
    requires Sane(p) && Enabled(p, a) && (a.Producing? || a.Consuming?)
    ensures ShowsAs(p, a)
  {
    ActKeepsSane(p, a);
    QueueStepIsSafe(p.queue, QueueAction(a).value);
    hide Shaped, Accounted, Abstract, Step, Q.Step, Q.Produce, Q.Consume;
    if a.Producing? {
      ProducingShows(p, a.address);
    } else {
      ConsumingShows(p);
    }
  }

  // ---- The whole pipeline -----------------------------------------------------------------------------

  /** The server thread forwards a message from the call of `produce` until the token is written. */
  datatype FinePhase = Resting | Carrying(m: Msg) | Forwarding(worker: nat)

  datatype Fine = Fine(server: Mailbox<Msg>, workers: seq<Piped<Msg>>, phase: FinePhase)

  datatype FineAction =
    | Sending(m: Msg)
    | SenderWrites
    | ServerTakes
    | ServerDequeues
    | ServerBegins
    | ServerProduces(address: Q.Addr)
    | ServerWrites
    | WorkerTakes(worker: nat)
    | WorkerAsks(worker: nat)
    | WorkerConsumes(worker: nat)

  /** The worker whose queue an action touches and the step it makes there. */
  function Touched(c: Config, s: Fine, a: FineAction): Option<(nat, PipedStep<Msg>)>
    requires Started(c)
  {
    match a
    case ServerBegins => if s.phase.Carrying? then Some((WorkerOf(c, s.phase.m.streamName), Begin(s.phase.m))) else None
    case ServerProduces(address) => if s.phase.Forwarding? then Some((s.phase.worker, Producing(address))) else None
    case ServerWrites => if s.phase.Forwarding? then Some((s.phase.worker, WriteToken)) else None
    case WorkerTakes(w) => Some((w, TakeToken))
    case WorkerAsks(w) => Some((w, Ask))
    case WorkerConsumes(w) => Some((w, Consuming))
    case _ => None
  }

  predicate FineCanDo(c: Config, s: Fine, a: FineAction)
    requires Started(c)
  {
    match a
    case Sending(_) => true
    case SenderWrites => Possible(s.server, Announce)
    case ServerTakes => s.phase.Resting? && Possible(s.server, ReadToken)
    case ServerDequeues => s.phase.Resting? && Possible(s.server, Pop)
    case _ =>
      && |s.workers| == c.workers && Touched(c, s, a).Some?
      && Touched(c, s, a).value.0 < |s.workers|
      && Enabled(s.workers[Touched(c, s, a).value.0], Touched(c, s, a).value.1)
  }

  function PhaseAfter(c: Config, s: Fine, a: FineAction): FinePhase
    requires Started(c)
  {
    match a
    case ServerDequeues => if s.server.queue == [] then Resting else Carrying(s.server.queue[0])
    case ServerBegins => if s.phase.Carrying? then Forwarding(WorkerOf(c, s.phase.m.streamName)) else s.phase
    case ServerWrites => Resting
    case _ => s.phase
  }

  function FineDo(c: Config, s: Fine, a: FineAction): Fine
    requires Started(c) && FineCanDo(c, s, a)
  {
    var phase := PhaseAfter(c, s, a);
    match a
    case Sending(m) => Fine(Step(s.server, Push(m)), s.workers, phase)
    case SenderWrites => Fine(Step(s.server, Announce), s.workers, phase)
    case ServerTakes => Fine(Step(s.server, ReadToken), s.workers, phase)
    case ServerDequeues => Fine(Step(s.server, Pop), s.workers, phase)
    case _ =>
      var (w, e) := Touched(c, s, a).value;
      Fine(s.server, s.workers[w := Act(s.workers[w], e)], phase)
  }

  predicate IsFineRun(c: Config, s: Fine, actions: seq<FineAction>)
    requires Started(c)
    decreases |actions|
  {
    actions == [] || (FineCanDo(c, s, actions[0]) && IsFineRun(c, FineDo(c, s, actions[0]), actions[1..]))
  }

  function FineRun(c: Config, s: Fine, actions: seq<FineAction>): Fine
    requires Started(c) && IsFineRun(c, s, actions)
    decreases |actions|
  {
    if actions == [] then s else FineRun(c, FineDo(c, s, actions[0]), actions[1..])
  }

  function EmptyQueues(n: nat, blank: Msg, at: Q.Addr): (queues: seq<Piped<Msg>>)
    ensures |queues| == n && forall i :: 0 <= i < n ==> queues[i] == EmptyPiped(blank, at)
  {
    if n == 0 then [] else EmptyQueues(n - 1, blank, at) + [EmptyPiped(blank, at)]
  }

  function FineInitial(c: Config, blank: Msg, at: Q.Addr): Fine {
    Fine(Empty(), EmptyQueues(c.workers, blank, at), Resting)
  }

  // ---- The coarse state it amounts to -----------------------------------------------------------------

  ghost predicate AllSane(workers: seq<Piped<Msg>>) {
    forall i :: 0 <= i < |workers| ==> Sane(workers[i])
  }

  function Boxes(workers: seq<Piped<Msg>>): (boxes: seq<Mailbox<Msg>>)
    ensures |boxes| == |workers| && forall i :: 0 <= i < |workers| ==> boxes[i] == Abstract(workers[i])
  {
    if workers == [] then []
    else Boxes(workers[..|workers| - 1]) + [Abstract(workers[|workers| - 1])]
  }

  /** A message counts as held until it is in the list. */
  function CoarsePhase(s: Fine): ServerPhase {
    match s.phase
    case Resting => AtRest
    case Carrying(m) => Holding(m)
    case Forwarding(w) =>
      var arriving := if w < |s.workers| then Q.Arriving(s.workers[w].queue) else [];
      if arriving == [] then Announcing(w) else Holding(arriving[0])
  }

  ghost predicate Coupled(c: Config, s: Fine)
    requires Started(c)
  {
    && |s.workers| == c.workers && AllSane(s.workers)
    && (forall w :: 0 <= w < |s.workers| ==> (s.workers[w].writing <==> s.phase == Forwarding(w)))
    && (s.phase.Forwarding? ==>
          && s.phase.worker < |s.workers|
          && forall m :: m in Q.Arriving(s.workers[s.phase.worker].queue) ==>
               WorkerOf(c, m.streamName) == s.phase.worker)
  }

  function Coarse(s: Fine): State {
    State(s.server, Boxes(s.workers), CoarsePhase(s))
  }

  /** The step of the coarse pipeline that an action amounts to, if any. */
  function CoarseAction(c: Config, s: Fine, a: FineAction): Option<Action>
    requires Started(c) && FineCanDo(c, s, a)
  {
    match a
    case Sending(m) => Some(Send(m))
    case SenderWrites => Some(SenderAnnounces)
    case ServerTakes => Some(ServerReads)
    case ServerDequeues => Some(ServerPops)
    case _ =>
      var (w, e) := Touched(c, s, a).value;
      match Shown(s.workers[w], e)
      case None => None
      case Some(Push(_)) => Some(ServerForwards)
      case Some(Announce) => Some(ServerAnnounces)
      case Some(ReadToken) => Some(WorkerReads(w))
      case Some(Pop) => Some(WorkerPops(w))
  }

  lemma BoxesUpdated(workers: seq<Piped<Msg>>, w: nat, p: Piped<Msg>)
    requires AllSane(workers) && w < |workers| && Sane(p)
    ensures AllSane(workers[w := p]) && Boxes(workers[w := p]) == Boxes(workers)[w := Abstract(p)]
  {
    hide Sane, Abstract;
    var after := workers[w := p];
    assert forall i :: 0 <= i < |after| && i != w ==> after[i] == workers[i];
  }

  /** What is on its way into a list, and whether its writer is still busy, after a step. */
  lemma ArrivingAfter<M>(p: Piped<M>, e: PipedStep<M>)
    requires Sane(p) && Enabled(p, e)
    ensures var r := Act(p, e);
            && Q.Arriving(r.queue) ==
               (match e
                case Begin(m) => [m]
                case Producing(_) => if p.queue.producer.Advancing? then [] else Q.Arriving(p.queue)
                case _ => Q.Arriving(p.queue))
            && (p.queue.producer.Advancing? ==> Q.Arriving(p.queue) == [p.queue.producer.t])
            && r.writing == (if e.Begin? then true else if e.WriteToken? then false else p.writing)
            && (e.WriteToken? ==> Q.Arriving(p.queue) == [])
  {
    hide Shaped, Accounted;
    if QueueAction(e).Some? {
      QueueStepIsSafe(p.queue, QueueAction(e).value);
    }
    if e.Producing? {
      ProducerMoves(p.queue, e.address);
    } else if e.Consuming? {
      ConsumerMoves(p.queue);
    }
  }

  /** What one action of the fine pipeline is in the coarse one. */
  ghost predicate Refines(c: Config, s: Fine, a: FineAction)
    requires Started(c) && FineCanDo(c, s, a)
  {
    && Coupled(c, FineDo(c, s, a))
    && match CoarseAction(c, s, a)
       case None => Coarse(FineDo(c, s, a)) == Coarse(s)
       case Some(b) => CanDo(c, Coarse(s), b) && Coarse(FineDo(c, s, a)) == Do(c, Coarse(s), b)
  }

  lemma ServerRefines(c: Config, s: Fine, a: FineAction)
    requires Started(c) && Coupled(c, s) && FineCanDo(c, s, a)
    requires a.Sending? || a.SenderWrites? || a.ServerTakes? || a.ServerDequeues?
    ensures Refines(c, s, a)
  {
    hide Sane, Step, Possible, Boxes;
  }

  /** A step at one worker's queue and its mailbox. */
  lemma QueueRefines(s: Fine, w: nat, e: PipedStep<Msg>)
    requires AllSane(s.workers) && w < |s.workers| && Enabled(s.workers[w], e)
    ensures var p, r := s.workers[w], Act(s.workers[w], e);
            && AllSane(s.workers[w := r]) && Boxes(s.workers[w := r]) == Boxes(s.workers)[w := Abstract(r)]
            && Boxes(s.workers)[w] == Abstract(p) && Sane(p)
            && (match Shown(p, e)
                case None => Boxes(s.workers[w := r]) == Boxes(s.workers)
                case Some(event) =>
                  Possible(Abstract(p), event) && Abstract(r) == Step(Abstract(p), event))
  {
    hide Sane, Step, Possible, Act, Enabled, Shown, Abstract;
    StepRefines(s.workers[w], e);
    BoxesUpdated(s.workers, w, Act(s.workers[w], e));
  }

  lemma BeginMeans(c: Config, s: Fine)
    requires Started(c) && FineCanDo(c, s, ServerBegins)
    ensures s.phase.Carrying? && |s.workers| == c.workers && CoarseAction(c, s, ServerBegins) == None
    ensures var w := WorkerOf(c, s.phase.m.streamName);
            && w < |s.workers| && Enabled(s.workers[w], Begin(s.phase.m))
            && FineDo(c, s, ServerBegins) ==
               Fine(s.server, s.workers[w := Act(s.workers[w], Begin(s.phase.m))], Forwarding(w))
  {
    hide Act, Enabled, WorkerOf;
  }

  lemma BeginRefines(c: Config, s: Fine)
    requires Started(c) && Coupled(c, s) && FineCanDo(c, s, ServerBegins)
    ensures Refines(c, s, ServerBegins)
  {
    hide FineCanDo, FineDo, CoarseAction, WorkerOf, CanDo, Do;
    hide Sane, AllSane, Step, Possible, Boxes, Act, Enabled, Abstract, Q.Arriving;
    BeginMeans(c, s);
    var w := WorkerOf(c, s.phase.m.streamName);
    QueueRefines(s, w, Begin(s.phase.m));
    ArrivingAfter(s.workers[w], Begin(s.phase.m));
  }

  lemma ForwardingMeans(c: Config, s: Fine, a: FineAction)
    requires Started(c) && FineCanDo(c, s, a) && (a.ServerProduces? || a.ServerWrites?)
    ensures s.phase.Forwarding? && |s.workers| == c.workers && s.phase.worker < |s.workers|
    ensures var w, e := s.phase.worker, if a.ServerProduces? then Producing(a.address) else WriteToken;
            && Enabled(s.workers[w], e)
            && FineDo(c, s, a) ==
               Fine(s.server, s.workers[w := Act(s.workers[w], e)], if a.ServerWrites? then Resting else s.phase)
            && CoarseAction(c, s, a) ==
               if a.ServerWrites? then Some(ServerAnnounces)
               else if s.workers[w].queue.producer.Advancing? then Some(ServerForwards) else None
  {
    hide Act, Enabled;
  }

  lemma ForwardingRefines(c: Config, s: Fine, a: FineAction)
    requires Started(c) && Coupled(c, s) && FineCanDo(c, s, a) && (a.ServerProduces? || a.ServerWrites?)
    ensures Refines(c, s, a)
  {
    hide FineCanDo, FineDo, CoarseAction, WorkerOf;
    hide Sane, AllSane, Step, Possible, Boxes, Act, Enabled, Abstract, Q.Arriving;
    ForwardingMeans(c, s, a);
    var w, e := s.phase.worker, if a.ServerProduces? then Producing(a.address) else WriteToken;
    QueueRefines(s, w, e);
    ArrivingAfter(s.workers[w], e);
  }

  lemma WorkerMeans(c: Config, s: Fine, a: FineAction)
    requires Started(c) && FineCanDo(c, s, a) && (a.WorkerTakes? || a.WorkerAsks? || a.WorkerConsumes?)
    ensures |s.workers| == c.workers && a.worker < |s.workers|
    ensures var w, e := a.worker, if a.WorkerTakes? then TakeToken else if a.WorkerAsks? then Ask else Consuming;
            && Enabled(s.workers[w], e)
            && FineDo(c, s, a) == Fine(s.server, s.workers[w := Act(s.workers[w], e)], s.phase)
            && CoarseAction(c, s, a) ==
               (match Shown(s.workers[w], e)
                case None => None
                case Some(event) => if event.ReadToken? then Some(WorkerReads(w)) else Some(WorkerPops(w)))
            && (Shown(s.workers[w], e).Some? ==> Shown(s.workers[w], e).value in {ReadToken, Pop})
  {
    hide Act, Enabled;
  }

  lemma WorkerRefines(c: Config, s: Fine, a: FineAction)
    requires Started(c) && Coupled(c, s) && FineCanDo(c, s, a)
    requires a.WorkerTakes? || a.WorkerAsks? || a.WorkerConsumes?
    ensures Refines(c, s, a)
  {
    hide FineCanDo, FineDo, CoarseAction, WorkerOf, Shown;
    hide Sane, AllSane, Step, Possible, Boxes, Act, Enabled, Abstract, Q.Arriving;
    WorkerMeans(c, s, a);
    var e := if a.WorkerTakes? then TakeToken else if a.WorkerAsks? then Ask else Consuming;
    QueueRefines(s, a.worker, e);
    ArrivingAfter(s.workers[a.worker], e);
  }

  lemma ActionRefines(c: Config, s: Fine, a: FineAction)
    requires Started(c) && Coupled(c, s) && FineCanDo(c, s, a)
    ensures Refines(c, s, a)
  {
    hide *;
    match a
    case ServerBegins => BeginRefines(c, s);
    case ServerProduces(_) => ForwardingRefines(c, s, a);
    case ServerWrites => ForwardingRefines(c, s, a);
    case WorkerTakes(_) => WorkerRefines(c, s, a);
    case WorkerAsks(_) => WorkerRefines(c, s, a);
    case WorkerConsumes(_) => WorkerRefines(c, s, a);
    case _ => ServerRefines(c, s, a);
  }

  // ---- Over whole runs ----------------------------------------------------------------------------------

  lemma InitialCoupled(c: Config, blank: Msg, at: Q.Addr)
    requires Started(c)
    ensures Coupled(c, FineInitial(c, blank, at)) && Coarse(FineInitial(c, blank, at)) == Initial(c)
  {
    EmptySane(blank, at);
    hide Sane, Abstract;
    assert EmptyPiped(blank, at).writing == false;
    assert Boxes(EmptyQueues(c.workers, blank, at)) == EmptyBoxes(c.workers);
  }

  lemma {:induction false} RunRefines(c: Config, s: Fine, actions: seq<FineAction>) returns (coarse: seq<Action>)
    requires Started(c) && Coupled(c, s) && IsFineRun(c, s, actions)
    ensures Coupled(c, FineRun(c, s, actions))
    ensures IsRun(c, Coarse(s), coarse) && Run(c, Coarse(s), coarse) == Coarse(FineRun(c, s, actions))
    decreases |actions|
  {
    hide Coupled, FineCanDo, FineDo, CoarseAction, Coarse, CanDo, Do;
    coarse := [];
    if actions != [] {
      ActionRefines(c, s, actions[0]);
      coarse := RunRefines(c, FineDo(c, s, actions[0]), actions[1..]);
      var b := CoarseAction(c, s, actions[0]);
      if b.Some? {
        assert ([b.value] + coarse)[1..] == coarse;
        coarse := [b.value] + coarse;
      }
    }
  }

  /**
   * Every run of the fine pipeline, from empty queues at any address, is a run of the coarse one; the coarse state is
   * the one in which a message joins a queue when `last` moves and leaves it when the divider does.
   */
  lemma EveryFineRunRefines(c: Config, blank: Msg, at: Q.Addr, actions: seq<FineAction>)
    returns (coarse: seq<Action>)
    requires Started(c) && IsFineRun(c, FineInitial(c, blank, at), actions)
    ensures IsRun(c, Initial(c), coarse)
    ensures Run(c, Initial(c), coarse) == Coarse(FineRun(c, FineInitial(c, blank, at), actions))
    ensures Coupled(c, FineRun(c, FineInitial(c, blank, at), actions))
  {
    hide *;
    InitialCoupled(c, blank, at);
    coarse := RunRefines(c, FineInitial(c, blank, at), actions);
  }

  /** What was taken of a stream, against the mailbox the queue amounts to. */
  lemma TakenOfStream(p: Piped<Msg>, name: string)
    requires Sane(p)
    ensures OfStream(p.queue.taken, name) <= OfStream(Abstract(p).done, name)
    ensures OfStream(p.queue.taken, name) <= OfStream(Abstract(p).arrived, name)
    ensures !p.queue.fault && Abstract(p).missed == p.missed
  {
    var q := p.queue;
    var rest := Arrived(q)[|Gone(q)|..];
    assert Arrived(q) == Gone(q) + rest;
    OfStreamAppend(q.taken, Q.Leaving(q), name);
    OfStreamAppend(Gone(q), rest, name);
    hide OfStream;
  }

  /**
   * So with the queues taken apart, too, no worker that has read a token ever finds its queue empty, and what it has
   * taken of a stream is a prefix of what reached the server, at the stream's worker and at no other.
   */
  lemma FineRunsDeliver(c: Config, blank: Msg, at: Q.Addr, actions: seq<FineAction>, name: string)
    requires Started(c) && IsFineRun(c, FineInitial(c, blank, at), actions)
    ensures var s := FineRun(c, FineInitial(c, blank, at), actions);
            && |s.workers| == c.workers
            && forall w :: 0 <= w < c.workers ==>
                 && !s.workers[w].missed && !s.workers[w].queue.fault
                 && (if w == WorkerOf(c, name)
                     then OfStream(s.workers[w].queue.taken, name) <= OfStream(s.server.arrived, name)
                     else OfStream(s.workers[w].queue.taken, name) == [])
  {
    var s := FineRun(c, FineInitial(c, blank, at), actions);
    var coarse := EveryFineRunRefines(c, blank, at, actions);
    NothingIsStranded(c, coarse);
    StreamsKeepTheirOrder(c, coarse, name);
    hide IsFineRun, FineRun, OfStream, IsRun, Run;
    forall w | 0 <= w < c.workers
      ensures !s.workers[w].missed && !s.workers[w].queue.fault
      ensures if w == WorkerOf(c, name)
              then OfStream(s.workers[w].queue.taken, name) <= OfStream(s.server.arrived, name)
              else OfStream(s.workers[w].queue.taken, name) == []
    {
      TakenOfStream(s.workers[w], name);
    }
  }

  predicate FineQuiet(s: Fine) {
    && Quiet(s.server) && s.phase.Resting?
    && forall w :: 0 <= w < |s.workers| ==> s.workers[w].tokens == 0 && !s.workers[w].reading
  }

  /** And once all threads rest and no token is left, every worker has taken exactly its messages, in order. */
  lemma FineQuietMeansDelivered(c: Config, blank: Msg, at: Q.Addr, actions: seq<FineAction>)
    requires Started(c) && IsFineRun(c, FineInitial(c, blank, at), actions)
    ensures var s := FineRun(c, FineInitial(c, blank, at), actions);
            FineQuiet(s) ==>
            && |s.workers| == c.workers
            && forall w :: 0 <= w < c.workers ==> s.workers[w].queue.taken == Routed(c, s.server.arrived, w)
  {
    var s := FineRun(c, FineInitial(c, blank, at), actions);
    var coarse := EveryFineRunRefines(c, blank, at, actions);
    QuietMeansDelivered(c, coarse);
    hide IsFineRun, FineRun, IsRun, Run, Routed;
    if FineQuiet(s) {
      forall w | 0 <= w < |s.workers|
        ensures Quiet(Boxes(s.workers)[w]) && Boxes(s.workers)[w].done == s.workers[w].queue.taken
      {
        AppendNothing(s.workers[w].queue.taken);
      }
    }
  }
}
