/** A queue with a pipe beside it: a sender pushes and then writes one token, the owner reads a token and then pops. */
module Mailboxes {
  import opened Octets

  /**
   * `unannounced` senders have pushed and not yet written their token; `reading` says that the owner has read a token
   * and not yet popped. `arrived` lists all pushes and `done` all pops; `missed` is raised by a pop that finds nothing.
   */
  datatype Mailbox<M> = Mailbox(queue: seq<M>, tokens: nat, unannounced: nat, reading: bool,
                                arrived: seq<M>, done: seq<M>, missed: bool)

  function Empty<M>(): Mailbox<M> {
    Mailbox([], 0, 0, false, [], [], false)
  }

  datatype Event<M> = Push(m: M) | Announce | ReadToken | Pop

  predicate Possible<M>(b: Mailbox<M>, e: Event<M>) {
    match e
    case Push(_) => true
    case Announce => b.unannounced > 0
    case ReadToken => b.tokens > 0 && !b.reading
    case Pop => b.reading
  }

  function Step<M>(b: Mailbox<M>, e: Event<M>): Mailbox<M>
    requires Possible(b, e)
  {
    match e
    case Push(m) => b.(queue := b.queue + [m], unannounced := b.unannounced + 1, arrived := b.arrived + [m])
    case Announce => b.(unannounced := b.unannounced - 1, tokens := b.tokens + 1)
    case ReadToken => b.(tokens := b.tokens - 1, reading := true)
    case Pop =>
      if b.queue == [] then b.(reading := false, missed := true)
      else b.(reading := false, queue := b.queue[1..], done := b.done + [b.queue[0]])
  }

  /** Nothing is lost or reordered, and every queued message has exactly one token or thread accounting for it. */
  ghost predicate Sound<M>(b: Mailbox<M>) {
    && !b.missed
    && b.done + b.queue == b.arrived
    && |b.queue| == b.tokens + b.unannounced + if b.reading then 1 else 0
  }

  lemma StepKeepsSound<M>(b: Mailbox<M>, e: Event<M>)
    requires Sound(b) && Possible(b, e)
    ensures Sound(Step(b, e))
  {
    match e
    case Push(m) => AppendAssoc(b.done, b.queue, [m]);
    case Pop =>
      assert b.queue == [b.queue[0]] + b.queue[1..];
      AppendAssoc(b.done, [b.queue[0]], b.queue[1..]);
    case _ =>
  }

  predicate Quiet<M>(b: Mailbox<M>) {
    b.unannounced == 0 && b.tokens == 0 && !b.reading
  }

  /** When nobody is in the middle of anything, no message is left behind; otherwise somebody can move. */
  lemma QuietMeansDrained<M>(b: Mailbox<M>)
    requires Sound(b)
    ensures Quiet(b) ==> b.queue == [] && b.done == b.arrived
    ensures b.queue != [] ==> Possible(b, Announce) || Possible(b, ReadToken) || Possible(b, Pop)
  {
  }

  // ---- Two queues behind one pipe -------------------------------------------------------------------

  /** A signaling worker's pipe carries tokens of two kinds, read in the order they were written. */
  datatype Kind = NewConn | RtcMsg

  datatype Shared<C, M> = Shared(conns: Mailbox<C>, msgs: Mailbox<M>, pipe: seq<Kind>)

  datatype SharedEvent<C, M> = OnConns(c: Event<C>) | OnMsgs(m: Event<M>)

  function Tokens(pipe: seq<Kind>, k: Kind): nat {
    if pipe == [] then 0 else Tokens(pipe[..|pipe| - 1], k) + if pipe[|pipe| - 1] == k then 1 else 0
  }

  lemma {:induction false} TokensFront(k: Kind, pipe: seq<Kind>, x: Kind)
    ensures Tokens([x] + pipe, k) == Tokens(pipe, k) + if x == k then 1 else 0
  {
    if pipe == [] {
      assert [x] + pipe == [x];
      assert [x][..0] == [];
    } else {
      assert ([x] + pipe)[..|pipe|] == [x] + pipe[..|pipe| - 1];
      TokensFront(k, pipe[..|pipe| - 1], x);
    }
  }

  /** The owner reads the token at the front of the pipe, and only between two dispatches. */
  predicate SharedPossible<C, M>(s: Shared<C, M>, e: SharedEvent<C, M>) {
    match e
    case OnConns(c) =>
      Possible(s.conns, c) && (c.ReadToken? ==> s.pipe != [] && s.pipe[0] == NewConn && !s.msgs.reading)
    case OnMsgs(m) =>
      Possible(s.msgs, m) && (m.ReadToken? ==> s.pipe != [] && s.pipe[0] == RtcMsg && !s.conns.reading)
  }

  function PipeAfter(pipe: seq<Kind>, k: Kind, announces: bool, takes: bool): seq<Kind>
    requires takes ==> pipe != []
  {
    if announces then pipe + [k] else if takes then pipe[1..] else pipe
  }

  function SharedStep<C, M>(s: Shared<C, M>, e: SharedEvent<C, M>): Shared<C, M>
    requires SharedPossible(s, e)
  {
    match e
    case OnConns(c) => Shared(Step(s.conns, c), s.msgs, PipeAfter(s.pipe, NewConn, c.Announce?, c.ReadToken?))
    case OnMsgs(m) => Shared(s.conns, Step(s.msgs, m), PipeAfter(s.pipe, RtcMsg, m.Announce?, m.ReadToken?))
  }

  ghost predicate SharedSound<C, M>(s: Shared<C, M>) {
    && Sound(s.conns) && Sound(s.msgs)
    && Tokens(s.pipe, NewConn) == s.conns.tokens && Tokens(s.pipe, RtcMsg) == s.msgs.tokens
    && !(s.conns.reading && s.msgs.reading)
  }

  lemma PipeCounts(pipe: seq<Kind>, k: Kind, j: Kind, announces: bool, takes: bool)
    requires takes ==> pipe != [] && pipe[0] == k && !announces
    ensures Tokens(PipeAfter(pipe, k, announces, takes), j) ==
            Tokens(pipe, j) + (if announces && j == k then 1 else 0) - if takes && j == k then 1 else 0
  {
    if announces {
    } else if takes {
      assert pipe == [pipe[0]] + pipe[1..];
      TokensFront(j, pipe[1..], pipe[0]);
    }
  }

  /** Each kind of token is dispatched to the queue it was written for, so neither queue misses or strands anything. */
  lemma SharedStepKeepsSound<C, M>(s: Shared<C, M>, e: SharedEvent<C, M>)
    requires SharedSound(s) && SharedPossible(s, e)
    ensures SharedSound(SharedStep(s, e))
  {
    match e {
      case OnConns(c) => StepKeepsSound(s.conns, c);
      case OnMsgs(m) => StepKeepsSound(s.msgs, m);
    }
    var kind := if e.OnConns? then NewConn else RtcMsg;
    var announces := if e.OnConns? then e.c.Announce? else e.m.Announce?;
    var takes := if e.OnConns? then e.c.ReadToken? else e.m.ReadToken?;
    PipeCounts(s.pipe, kind, NewConn, announces, takes);
    PipeCounts(s.pipe, kind, RtcMsg, announces, takes);
    hide Sound, Tokens;
  }

  predicate IsSharedRun<C, M>(s: Shared<C, M>, events: seq<SharedEvent<C, M>>)
    decreases |events|
  {
    events == [] || (SharedPossible(s, events[0]) && IsSharedRun(SharedStep(s, events[0]), events[1..]))
  }

  function SharedRun<C, M>(s: Shared<C, M>, events: seq<SharedEvent<C, M>>): Shared<C, M>
    requires IsSharedRun(s, events)
    decreases |events|
  {
    if events == [] then s else SharedRun(SharedStep(s, events[0]), events[1..])
  }

  lemma {:induction false} SharedRunKeepsSound<C, M>(s: Shared<C, M>, events: seq<SharedEvent<C, M>>)
    requires SharedSound(s) && IsSharedRun(s, events)
    ensures SharedSound(SharedRun(s, events))
    decreases |events|
  {
    if events != [] {
      SharedStepKeepsSound(s, events[0]);
      SharedRunKeepsSound(SharedStep(s, events[0]), events[1..]);
    }
  }

  /**
   * Over every run from the empty worker: both queues keep their order and miss nothing, each holds one entry per token
   * of its kind in the pipe, per sender that has not written and per owner that has not popped; and when the pipe is
   * empty and nobody is in between, both are drained.
   */
  lemma EverySharedRunIsSound<C, M>(events: seq<SharedEvent<C, M>>)
    requires IsSharedRun(Shared(Empty<C>(), Empty<M>(), []), events)
    ensures var s := SharedRun(Shared(Empty<C>(), Empty<M>(), []), events);
            && !s.conns.missed && s.conns.done + s.conns.queue == s.conns.arrived
            && !s.msgs.missed && s.msgs.done + s.msgs.queue == s.msgs.arrived
            && |s.conns.queue| == Tokens(s.pipe, NewConn) + s.conns.unannounced + (if s.conns.reading then 1 else 0)
            && |s.msgs.queue| == Tokens(s.pipe, RtcMsg) + s.msgs.unannounced + (if s.msgs.reading then 1 else 0)
            && (s.pipe == [] && s.conns.unannounced + s.msgs.unannounced == 0 && !s.conns.reading && !s.msgs.reading ==>
                  s.conns.done == s.conns.arrived && s.msgs.done == s.msgs.arrived)
  {
    SharedRunKeepsSound(Shared(Empty<C>(), Empty<M>(), []), events);
    var s := SharedRun(Shared(Empty<C>(), Empty<M>(), []), events);
    if s.pipe == [] {
      AppendNothing(s.conns.done);
      AppendNothing(s.msgs.done);
    }
  }

  /** While the owner is idle, a token at the front of the pipe can always be dispatched to a message. */
  lemma EveryTokenFindsAMessage<C, M>(s: Shared<C, M>)
    requires SharedSound(s) && s.pipe != [] && !s.conns.reading && !s.msgs.reading
    ensures s.pipe[0] == NewConn ==> SharedPossible(s, OnConns(ReadToken)) && s.conns.queue != []
    ensures s.pipe[0] == RtcMsg ==> SharedPossible(s, OnMsgs(ReadToken)) && s.msgs.queue != []
  {
    assert s.pipe == [s.pipe[0]] + s.pipe[1..];
    TokensFront(NewConn, s.pipe[1..], s.pipe[0]);
    TokensFront(RtcMsg, s.pipe[1..], s.pipe[0]);
  }
}
