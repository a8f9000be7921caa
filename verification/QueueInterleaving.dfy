/** The queue of LockFreeQueues with its two threads interleaved in any sequentially consistent order. */
module QueueInterleavings {
  import opened Octets

  /** Addresses that were deleted may be handed out again. */
  type Addr = nat

  datatype Cell<T> = Cell(value: T, next: Option<Addr>)

  /** Where the producer stands inside `produce`. */
  datatype Producer<T> =
    | Resting
    | Allocating(t: T)
    | Linking(t: T, node: Addr)
    | Advancing(t: T, node: Addr)
    | Counting
    | Comparing
    | Unlinking(temp: Addr)
    | Deleting(temp: Addr)

  /** Where the consumer stands inside `consume`. */
  datatype Consumer<T> =
    | Idle
    | Testing
    | ReadingNext
    | ReadingValue(node: Addr)
    | LoadingNext(v: T)
    | StoringDivider(v: T, node: Addr)
    | Discounting(v: T)

  /**
   * `offered` lists the arguments of all calls to `produce`, `taken` the results of all calls to `consume` that
   * returned true. `fault` is raised by a step that follows a pointer that is null or deleted.
   */
  datatype State<T> = State(nodes: map<Addr, Cell<T>>, first: Addr, divider: Addr, last: Addr, size: int,
                            producer: Producer<T>, consumer: Consumer<T>,
                            offered: seq<T>, taken: seq<T>, fault: bool)

  function Initial<T>(blank: T, at: Addr): State<T> {
    State(map[at := Cell(blank, None)], at, at, at, 0, Resting, Idle, [], [], false)
  }

  /** A step reads or writes one shared pointer or the counter. */
  datatype Action<T> = Offer(t: T) | ProducerStep(address: Addr) | Ask | ConsumerStep

  predicate Possible<T>(s: State<T>, a: Action<T>) {
    match a
    case Offer(_) => s.producer.Resting?
    case ProducerStep(address) => !s.producer.Resting? && (s.producer.Allocating? ==> address !in s.nodes)
    case Ask => s.consumer.Idle?
    case ConsumerStep => !s.consumer.Idle?
  }

  function Next<T>(s: State<T>, at: Addr): Option<Addr> {
    if at in s.nodes then s.nodes[at].next else None
  }

  function Faulted<T>(s: State<T>): State<T> {
    s.(fault := true)
  }

  function Produce<T>(s: State<T>, address: Addr): State<T> {
    match s.producer
    case Resting => s
    case Allocating(t) => s.(nodes := s.nodes[address := Cell(t, None)], producer := Linking(t, address))
    case Linking(t, n) =>
      if s.last !in s.nodes then Faulted(s)
      else s.(nodes := s.nodes[s.last := s.nodes[s.last].(next := Some(n))], producer := Advancing(t, n))
    case Advancing(_, _) =>
      if Next(s, s.last).None? then Faulted(s)
      else s.(last := Next(s, s.last).value, producer := Counting)
    case Counting => s.(size := s.size + 1, producer := Comparing)
    case Comparing => s.(producer := if s.divider != s.first then Unlinking(s.first) else Resting)
    case Unlinking(temp) =>
      if Next(s, s.first).None? then Faulted(s)
      else s.(first := Next(s, s.first).value, producer := Deleting(temp))
    case Deleting(temp) =>
      if temp !in s.nodes then Faulted(s) else s.(nodes := s.nodes - {temp}, producer := Comparing)
  }

  function Consume<T>(s: State<T>): State<T> {
    match s.consumer
    case Idle => s
    case Testing => s.(consumer := if s.divider != s.last then ReadingNext else Idle)
    case ReadingNext =>
      if Next(s, s.divider).None? then Faulted(s) else s.(consumer := ReadingValue(Next(s, s.divider).value))
    case ReadingValue(n) =>
      if n !in s.nodes then Faulted(s) else s.(consumer := LoadingNext(s.nodes[n].value))
    case LoadingNext(v) =>
      if Next(s, s.divider).None? then Faulted(s) else s.(consumer := StoringDivider(v, Next(s, s.divider).value))
    case StoringDivider(v, n) => s.(divider := n, consumer := Discounting(v))
    case Discounting(v) => s.(size := s.size - 1, taken := s.taken + [v], consumer := Idle)
  }

  function Step<T>(s: State<T>, a: Action<T>): State<T> {
    match a
    case Offer(t) => s.(offered := s.offered + [t], producer := Allocating(t))
    case ProducerStep(address) => Produce(s, address)
    case Ask => s.(consumer := Testing)
    case ConsumerStep => Consume(s)
  }

  predicate IsRun<T>(s: State<T>, actions: seq<Action<T>>)
    decreases |actions|
  {
    actions == [] || (Possible(s, actions[0]) && IsRun(Step(s, actions[0]), actions[1..]))
  }

  function Run<T>(s: State<T>, actions: seq<Action<T>>): State<T>
    decreases |actions|
  {
    if actions == [] then s else Run(Step(s, actions[0]), actions[1..])
  }

  // ---- The invariant --------------------------------------------------------------------------------

  predicate Distinct(chain: seq<Addr>) {
    forall i, j :: 0 <= i < j < |chain| ==> chain[i] != chain[j]
  }

  predicate AllIn<T>(chain: seq<Addr>, nodes: map<Addr, Cell<T>>) {
    forall i :: 0 <= i < |chain| ==> chain[i] in nodes
  }

  function Values<T>(chain: seq<Addr>, nodes: map<Addr, Cell<T>>): (values: seq<T>)
    requires AllIn(chain, nodes)
    ensures |values| == |chain|
  {
    if chain == [] then [] else [nodes[chain[0]].value] + Values(chain[1..], nodes)
  }

  function Members(chain: seq<Addr>): set<Addr> {
    set a | a in chain
  }

  /** `chain` follows the links from `first` to `last` and passes the divider at position `d`. */
  predicate Linked<T>(s: State<T>, chain: seq<Addr>, d: nat) {
    && d < |chain| && Distinct(chain) && AllIn(chain, s.nodes)
    && (forall i :: 0 <= i < |chain| - 1 ==> s.nodes[chain[i]].next == Some(chain[i + 1]))
    && s.first == chain[0] && s.divider == chain[d] && s.last == chain[|chain| - 1]
    && s.nodes[s.last].next == if s.producer.Advancing? then Some(s.producer.node) else None
  }

  /** What the producer holds outside the chain. */
  ghost predicate ProducerHolds<T>(s: State<T>, chain: seq<Addr>, d: nat) {
    match s.producer
    case Linking(t, n) => n in s.nodes && n !in chain && s.nodes[n] == Cell(t, None)
    case Advancing(t, n) => n in s.nodes && n !in chain && s.nodes[n] == Cell(t, None)
    case Unlinking(temp) => temp == s.first && d > 0
    case Deleting(temp) => temp in s.nodes && temp !in chain
    case _ => true
  }

  ghost predicate ConsumerHolds<T>(s: State<T>, chain: seq<Addr>, d: nat)
    requires AllIn(chain, s.nodes)
  {
    match s.consumer
    case ReadingNext => d + 1 < |chain|
    case ReadingValue(n) => d + 1 < |chain| && n == chain[d + 1]
    case LoadingNext(v) => d + 1 < |chain| && v == s.nodes[chain[d + 1]].value
    case StoringDivider(v, n) => d + 1 < |chain| && n == chain[d + 1] && v == s.nodes[n].value
    case _ => true
  }

  /** The argument of a `produce` that has not yet moved `last`. */
  function Arriving<T>(s: State<T>): seq<T> {
    match s.producer
    case Allocating(t) => [t]
    case Linking(t, _) => [t]
    case Advancing(t, _) => [t]
    case _ => []
  }

  /** The result of a `consume` that has moved the divider and not yet returned. */
  function Leaving<T>(s: State<T>): seq<T> {
    match s.consumer
    case Discounting(v) => [v]
    case _ => []
  }

  /** The nodes the producer holds outside the chain. */
  function Held<T>(s: State<T>): set<Addr> {
    match s.producer
    case Linking(_, n) => {n}
    case Advancing(_, n) => {n}
    case Deleting(temp) => {temp}
    case _ => {}
  }

  function Pending<T>(s: State<T>, chain: seq<Addr>, d: nat): seq<T>
    requires d < |chain| && AllIn(chain, s.nodes)
  {
    Values(chain[d + 1..], s.nodes)
  }

  function OnTheWay<T>(s: State<T>): int {
    (if s.consumer.Discounting? then 1 else 0) - (if s.producer.Counting? then 1 else 0)
  }

  ghost predicate Inv<T>(s: State<T>, chain: seq<Addr>, d: nat) {
    && !s.fault
    && Linked(s, chain, d)
    && ProducerHolds(s, chain, d)
    && ConsumerHolds(s, chain, d)
    && s.nodes.Keys == Members(chain) + Held(s)
    && s.taken + Leaving(s) + Pending(s, chain, d) + Arriving(s) == s.offered
    && s.size == |chain| - 1 - d + OnTheWay(s)
  }

  // ---- Every step keeps it ------------------------------------------------------------------------------

  lemma {:induction false} ValuesDepend<T>(chain: seq<Addr>, nodes: map<Addr, Cell<T>>, nodes': map<Addr, Cell<T>>)
    requires AllIn(chain, nodes) && AllIn(chain, nodes')
    requires forall i :: 0 <= i < |chain| ==> nodes[chain[i]].value == nodes'[chain[i]].value
    ensures Values(chain, nodes) == Values(chain, nodes')
  {
    if chain != [] {
      assert forall i :: 0 <= i < |chain| - 1 ==> chain[1..][i] == chain[i + 1];
      ValuesDepend(chain[1..], nodes, nodes');
    }
  }

  lemma {:induction false} ValuesAppend<T>(chain: seq<Addr>, n: Addr, nodes: map<Addr, Cell<T>>)
    requires AllIn(chain + [n], nodes)
    ensures AllIn(chain, nodes) && n in nodes
    ensures Values(chain + [n], nodes) == Values(chain, nodes) + [nodes[n].value]
  {
    assert (chain + [n])[|chain|] == n;
    assert forall i :: 0 <= i < |chain| ==> (chain + [n])[i] == chain[i];
    if chain != [] {
      assert (chain + [n])[1..] == chain[1..] + [n];
      assert AllIn(chain[1..] + [n], nodes);
      ValuesAppend(chain[1..], n, nodes);
    }
  }

  /** Nodes enter and leave, and links change, outside the pending values. */
  lemma PendingDepends<T>(s: State<T>, s': State<T>, chain: seq<Addr>, d: nat)
    requires d < |chain| && AllIn(chain, s.nodes) && AllIn(chain, s'.nodes)
    requires forall a :: a in chain ==> s.nodes[a].value == s'.nodes[a].value
    ensures Pending(s, chain, d) == Pending(s', chain, d)
  {
    var tail := chain[d + 1..];
    assert forall i :: 0 <= i < |tail| ==> tail[i] == chain[d + 1 + i] && tail[i] in chain;
    ValuesDepend(tail, s.nodes, s'.nodes);
  }

  /** What the chain says about the three pointers. */
  lemma ChainFacts<T>(s: State<T>, chain: seq<Addr>, d: nat)
    requires Linked(s, chain, d)
    ensures d < |chain| && AllIn(chain, s.nodes)
    ensures s.divider != s.first ==> d > 0
    ensures s.divider != s.last ==> d + 1 < |chain|
    ensures d + 1 < |chain| ==> chain[d + 1] in s.nodes && Next(s, s.divider) == Some(chain[d + 1])
  {
    hide Distinct;
    assert d + 1 < |chain| ==> s.nodes[chain[d]].next == Some(chain[d + 1]);
  }

  /** Nodes outside the chain may come and go. */
  lemma ChainUntouched<T>(s: State<T>, s': State<T>, chain: seq<Addr>, d: nat)
    requires Linked(s, chain, d)
    requires forall i :: 0 <= i < |chain| ==> chain[i] in s'.nodes && s'.nodes[chain[i]] == s.nodes[chain[i]]
    requires s'.first == s.first && s'.divider == s.divider && s'.last == s.last
    requires !s.producer.Advancing? && !s'.producer.Advancing?
    ensures Linked(s', chain, d) && Pending(s', chain, d) == Pending(s, chain, d)
  {
    hide Distinct, Values;
    var tail := chain[d + 1..];
    assert forall i :: 0 <= i < |tail| ==> tail[i] == chain[d + 1 + i];
    ValuesDepend(tail, s.nodes, s'.nodes);
  }

  lemma AllocatingKeepsInv<T>(s: State<T>, chain: seq<Addr>, d: nat, address: Addr)
    requires Inv(s, chain, d) && s.producer.Allocating? && address !in s.nodes
    ensures Inv(Produce(s, address), chain, d)
  {
    hide Linked, Values, Members, Pending;
    ChainFacts(s, chain, d);
    ChainUntouched(s, Produce(s, address), chain, d);
  }

  lemma LinkingKeepsInv<T>(s: State<T>, chain: seq<Addr>, d: nat)
    requires Inv(s, chain, d) && s.producer.Linking?
    ensures Inv(Produce(s, 0), chain, d)
  {
    assert forall a :: a in chain ==> a in s.nodes;
    PendingDepends(s, Produce(s, 0), chain, d);
  }

  lemma AdvancingLinks<T>(s: State<T>, chain: seq<Addr>, d: nat)
    requires Linked(s, chain, d) && ProducerHolds(s, chain, d) && s.producer.Advancing?
    ensures Linked(Produce(s, 0), chain + [s.producer.node], d)
  {
    var n, end := s.producer.node, |chain| - 1;
    var longer := chain + [n];
    assert forall i :: 0 <= i <= end ==> longer[i] == chain[i] && longer[i] in chain;
    assert longer[end + 1] == n;
    assert s.nodes[longer[end]].next == Some(longer[end + 1]);
  }

  lemma AdvancingCounts<T>(s: State<T>, chain: seq<Addr>, d: nat)
    requires Linked(s, chain, d) && ProducerHolds(s, chain, d) && s.producer.Advancing?
    ensures var longer := chain + [s.producer.node];
            && AllIn(longer, s.nodes)
            && Pending(Produce(s, 0), longer, d) == Pending(s, chain, d) + [s.producer.t]
            && Members(longer) == Members(chain) + {s.producer.node}
  {
    var longer := chain + [s.producer.node];
    assert longer[d + 1..] == chain[d + 1..] + [s.producer.node];
    ValuesAppend(chain[d + 1..], s.producer.node, s.nodes);
  }

  lemma AdvancingKeepsInv<T>(s: State<T>, chain: seq<Addr>, d: nat)
    requires Inv(s, chain, d) && s.producer.Advancing?
    ensures Inv(Produce(s, 0), chain + [s.producer.node], d)
  {
    hide Linked, Values, Members, Pending;
    ChainFacts(s, chain, d);
    AdvancingLinks(s, chain, d);
    AdvancingCounts(s, chain, d);
    var longer := chain + [s.producer.node];
    AppendAssoc(s.taken + Leaving(s), Pending(s, chain, d), [s.producer.t]);
    AppendNothing(s.taken + Leaving(s) + Pending(Produce(s, 0), longer, d));
    assert d + 1 < |chain| ==> longer[d + 1] == chain[d + 1];
  }

  lemma TailDistinct(chain: seq<Addr>)
    requires Distinct(chain) && chain != []
    ensures Distinct(chain[1..]) && chain[0] !in chain[1..] && Members(chain) == Members(chain[1..]) + {chain[0]}
  {
    assert chain == [chain[0]] + chain[1..];
  }

  lemma UnlinkingLinks<T>(s: State<T>, chain: seq<Addr>, d: nat)
    requires Linked(s, chain, d) && d > 0 && s.producer.Unlinking?
    ensures Linked(Produce(s, 0), chain[1..], d - 1)
    ensures chain[0] !in chain[1..] && Members(chain) == Members(chain[1..]) + {chain[0]}
    ensures chain[0] in s.nodes && Pending(Produce(s, 0), chain[1..], d - 1) == Pending(s, chain, d)
  {
    TailDistinct(chain);
    hide Distinct, Members, Values;
    assert chain[1..][d..] == chain[d + 1..];
    assert forall i :: 0 <= i < |chain| - 1 ==> chain[1..][i] == chain[i + 1];
    assert s.nodes[chain[0]].next == Some(chain[1]);
  }

  /** The unlinked node is the one the producer remembers. */
  lemma UnlinkingTemp<T>(s: State<T>, chain: seq<Addr>, d: nat)
    requires Linked(s, chain, d) && d > 0 && s.producer.Unlinking? && s.producer.temp == s.first
    ensures !Produce(s, 0).fault || s.fault
    ensures Produce(s, 0).producer == Deleting(chain[0])
  {
    hide Distinct;
    assert s.nodes[chain[0]].next == Some(chain[1]);
  }

  lemma UnlinkingKeepsInv<T>(s: State<T>, chain: seq<Addr>, d: nat)
    requires Inv(s, chain, d) && s.producer.Unlinking?
    ensures d > 0 && chain != [] && Inv(Produce(s, 0), chain[1..], d - 1)
  {
    hide Linked, Values, Members, Pending;
    ChainFacts(s, chain, d);
    UnlinkingLinks(s, chain, d);
    UnlinkingTemp(s, chain, d);
    ChainFacts(Produce(s, 0), chain[1..], d - 1);
    assert d + 1 < |chain| ==> chain[1..][d] == chain[d + 1];
  }

  lemma DeletingKeepsInv<T>(s: State<T>, chain: seq<Addr>, d: nat)
    requires Inv(s, chain, d) && s.producer.Deleting?
    ensures Inv(Produce(s, 0), chain, d)
  {
    hide Linked, Values, Pending;
    ChainFacts(s, chain, d);
    assert forall i :: 0 <= i < |chain| ==> chain[i] in chain;
    ChainUntouched(s, Produce(s, 0), chain, d);
  }

  /** A step that leaves nodes and pointers alone leaves the shape and the pending values alone. */
  lemma SameShape<T>(s: State<T>, s': State<T>, chain: seq<Addr>, d: nat)
    requires Linked(s, chain, d)
    requires s'.nodes == s.nodes && s'.first == s.first && s'.divider == s.divider && s'.last == s.last
    requires s'.producer == s.producer || (!s.producer.Advancing? && !s'.producer.Advancing?)
    ensures Linked(s', chain, d) && Pending(s', chain, d) == Pending(s, chain, d)
  {
    hide Distinct, Values;
  }

  lemma CallKeepsInv<T>(s: State<T>, chain: seq<Addr>, d: nat, a: Action<T>)
    requires Inv(s, chain, d) && Possible(s, a) && (a.Offer? || a.Ask?)
    ensures Inv(Step(s, a), chain, d)
  {
    hide Linked, Members, Values;
    ChainFacts(s, chain, d);
    SameShape(s, Step(s, a), chain, d);
    AppendNothing(s.taken + Leaving(s) + Pending(s, chain, d));
  }

  lemma CountingKeepsInv<T>(s: State<T>, chain: seq<Addr>, d: nat)
    requires Inv(s, chain, d) && (s.producer.Counting? || s.producer.Comparing?)
    ensures Inv(Produce(s, 0), chain, d)
  {
    hide Linked, Members, Values;
    ChainFacts(s, chain, d);
    SameShape(s, Produce(s, 0), chain, d);
  }

  lemma ReadingKeepsInv<T>(s: State<T>, chain: seq<Addr>, d: nat)
    requires Inv(s, chain, d) && !s.consumer.Idle? && !s.consumer.StoringDivider? && !s.consumer.Discounting?
    ensures Inv(Consume(s), chain, d)
  {
    hide Linked, Members, Values;
    ChainFacts(s, chain, d);
    SameShape(s, Consume(s), chain, d);
  }

  lemma DiscountingKeepsInv<T>(s: State<T>, chain: seq<Addr>, d: nat)
    requires Inv(s, chain, d) && s.consumer.Discounting?
    ensures Inv(Consume(s), chain, d)
  {
    hide Linked, Members, Values;
    ChainFacts(s, chain, d);
    SameShape(s, Consume(s), chain, d);
    AppendNothing(s.taken + Leaving(s));
  }

  lemma StoringLinks<T>(s: State<T>, chain: seq<Addr>, d: nat)
    requires Linked(s, chain, d) && s.consumer.StoringDivider? && d + 1 < |chain| && s.consumer.node == chain[d + 1]
    ensures Linked(Consume(s), chain, d + 1)
    ensures Pending(s, chain, d) == [s.nodes[chain[d + 1]].value] + Pending(Consume(s), chain, d + 1)
  {
    hide Distinct;
    assert chain[d + 1..][1..] == chain[d + 2..];
  }

  lemma StoringKeepsInv<T>(s: State<T>, chain: seq<Addr>, d: nat)
    requires Inv(s, chain, d) && s.consumer.StoringDivider?
    ensures Inv(Consume(s), chain, d + 1)
  {
    hide Linked, Members, Values, Pending;
    ChainFacts(s, chain, d);
    StoringLinks(s, chain, d);
    AppendNothing(s.taken);
    AppendAssoc(s.taken, [s.consumer.v], Pending(Consume(s), chain, d + 1));
  }

  lemma StepKeepsInv<T>(s: State<T>, chain: seq<Addr>, d: nat, a: Action<T>) returns (chain': seq<Addr>, d': nat)
    requires Inv(s, chain, d) && Possible(s, a)
    ensures Inv(Step(s, a), chain', d')
  {
    hide Inv;
    chain', d' := chain, d;
    if a.ConsumerStep? && s.consumer.StoringDivider? {
      StoringKeepsInv(s, chain, d);
      d' := d + 1;
    } else if a.ConsumerStep? {
      if s.consumer.Discounting? {
        DiscountingKeepsInv(s, chain, d);
      } else {
        ReadingKeepsInv(s, chain, d);
      }
    } else if !a.ProducerStep? {
      CallKeepsInv(s, chain, d, a);
    } else {
      match s.producer {
        case Allocating(_) => AllocatingKeepsInv(s, chain, d, a.address);
        case Linking(_, _) => LinkingKeepsInv(s, chain, d);
        case Advancing(_, n) =>
          AdvancingKeepsInv(s, chain, d);
          chain' := chain + [n];
        case Unlinking(_) =>
          UnlinkingKeepsInv(s, chain, d);
          chain', d' := chain[1..], d - 1;
        case Deleting(_) => DeletingKeepsInv(s, chain, d);
        case _ => CountingKeepsInv(s, chain, d);
      }
    }
  }

  // ---- Over whole runs ----------------------------------------------------------------------------------

  lemma InitialHasInv<T>(blank: T, at: Addr)
    ensures Inv(Initial(blank, at), [at], 0)
  {
  }

  lemma {:induction false} RunKeepsInv<T>(s: State<T>, chain: seq<Addr>, d: nat, actions: seq<Action<T>>)
    returns (chain': seq<Addr>, d': nat)
    requires Inv(s, chain, d) && IsRun(s, actions)
    ensures Inv(Run(s, actions), chain', d')
    decreases |actions|
  {
    hide Inv, Possible, Step;
    if actions == [] {
      chain', d' := chain, d;
    } else {
      chain', d' := StepKeepsInv(s, chain, d, actions[0]);
      chain', d' := RunKeepsInv(Step(s, actions[0]), chain', d', actions[1..]);
    }
  }

  /** `b` is reached from `a` over allocated nodes by following links. */
  ghost predicate Reaches<T>(s: State<T>, a: Addr, b: Addr) {
    exists path: seq<Addr> ::
      && path != [] && path[0] == a && path[|path| - 1] == b
      && forall i :: 0 <= i < |path| - 1 ==> Next(s, path[i]) == Some(path[i + 1])
  }

  /**
   * Every interleaving is safe: no step ever follows a null or deleted pointer; first reaches the divider and the
   * divider reaches last; what was taken, what is stored and what is in the two calls add up, in order, to what was
   * offered; the counter is off by exactly the calls between moving their pointer and counting; and every allocated
   * node is in the list or held by the producer.
   */
  lemma EveryRunIsSafe<T>(blank: T, at: Addr, actions: seq<Action<T>>)
    returns (chain: seq<Addr>, d: nat)
    requires IsRun(Initial(blank, at), actions)
    ensures var s := Run(Initial(blank, at), actions);
            && !s.fault
            && Linked(s, chain, d)
            && Reaches(s, s.first, s.divider) && Reaches(s, s.divider, s.last)
            && s.taken + Leaving(s) + Pending(s, chain, d) + Arriving(s) == s.offered
            && s.size == |Pending(s, chain, d)| + OnTheWay(s)
            && s.nodes.Keys == Members(chain) + Held(s)
  {
    InitialHasInv(blank, at);
    chain, d := RunKeepsInv(Initial(blank, at), [at], 0, actions);
    ChainReaches(Run(Initial(blank, at), actions), chain, d);
  }

  lemma ChainReaches<T>(s: State<T>, chain: seq<Addr>, d: nat)
    requires Linked(s, chain, d)
    ensures Reaches(s, s.first, s.divider) && Reaches(s, s.divider, s.last)
  {
    hide Distinct;
    var front, back := chain[..d + 1], chain[d..];
    assert forall i :: 0 <= i < |front| ==> front[i] == chain[i];
    assert forall i :: 0 <= i < |back| ==> back[i] == chain[d + i];
    assert front[0] == s.first && front[|front| - 1] == s.divider;
    assert back[0] == s.divider && back[|back| - 1] == s.last;
    assert forall i :: 0 <= i < |front| - 1 ==> Next(s, front[i]) == Some(front[i + 1]);
    assert forall i :: 0 <= i < |back| - 1 ==> Next(s, back[i]) == Some(back[i + 1]);
  }

  /** A consume that finds nothing found nothing stored: everything offered before is taken or still arriving. */
  lemma EmptyMeansDrained<T>(blank: T, at: Addr, actions: seq<Action<T>>)
    requires IsRun(Initial(blank, at), actions)
    ensures var s := Run(Initial(blank, at), actions);
            s.consumer.Testing? ==> (Consume(s).consumer.Idle? <==> s.offered == s.taken + Arriving(s))
  {
    var s := Run(Initial(blank, at), actions);
    var chain, d := EveryRunIsSafe(blank, at, actions);
    if s.consumer.Testing? {
      assert s.divider == s.last <==> d == |chain| - 1;
      assert |s.offered| == |s.taken| + |Pending(s, chain, d)| + |Arriving(s)|;
      if d == |chain| - 1 {
        AppendNothing(s.taken);
        assert chain[d + 1..] == [];
      }
    }
  }

  /**
   * Spent nodes are given back: a produce returns exactly when, besides the divider's, only nodes of values that nobody
   * has taken yet are allocated.
   */
  lemma ReturnsWhenReclaimed<T>(blank: T, at: Addr, actions: seq<Action<T>>)
    requires IsRun(Initial(blank, at), actions)
    ensures var s := Run(Initial(blank, at), actions);
            s.producer.Comparing? ==>
              (Produce(s, 0).producer.Resting? <==> |s.nodes| == 1 + |s.offered| - |s.taken| - |Leaving(s)|)
  {
    var s := Run(Initial(blank, at), actions);
    var chain, d := EveryRunIsSafe(blank, at, actions);
    if s.producer.Comparing? {
      MembersCount(chain);
      assert s.nodes.Keys == Members(chain);
      assert |s.nodes| == |s.nodes.Keys|;
      assert |s.offered| == |s.taken| + |Leaving(s)| + |Pending(s, chain, d)|;
    }
  }

  lemma {:induction false} MembersCount(chain: seq<Addr>)
    requires Distinct(chain)
    ensures |Members(chain)| == |chain|
  {
    if chain != [] {
      TailDistinct(chain);
      MembersCount(chain[1..]);
      assert chain[0] !in Members(chain[1..]);
    }
  }

  /** Whatever the interleaving, the results come in the order of the arguments: the queue is first in, first out. */
  lemma TakenIsPrefix<T>(blank: T, at: Addr, actions: seq<Action<T>>)
    requires IsRun(Initial(blank, at), actions)
    ensures var s := Run(Initial(blank, at), actions);
            s.taken <= s.offered && (s.producer.Resting? && s.consumer.Idle? ==> s.size == |s.offered| - |s.taken|)
  {
    var chain, d := EveryRunIsSafe(blank, at, actions);
  }
}
