/** A transport channel: its state over all runs, and the object that drives the controller and the connections. */
module IceTransportChannels {
  import opened Octets
  import opened IceConnections
  import opened IceControllers
  import P = PingScheduling
  import S = Selection

  const PING_INTERVAL_DIFF: int := 5

  datatype TransportState = New | Checking | Connected | Completed | Failed | Disconnected | Closed

  /** The fields the channel's state is computed from, and that state. */
  datatype Status = Status(hadConnection: bool, hasBeenConnection: bool, writable: bool, state: TransportState)

  const NEW_STATUS := Status(false, false, false, New)

  function ComputeState(v: Status, anyActive: bool): TransportState {
    if v.hadConnection && !anyActive then Failed
    else if v.hasBeenConnection && !v.writable then Disconnected
    else if !v.hadConnection && !anyActive then New
    else if anyActive && !v.writable then Checking
    else Connected
  }

  function WithWritable(v: Status, writable: bool): Status {
    if v.writable == writable then v
    else v.(writable := writable, hasBeenConnection := v.hasBeenConnection || writable)
  }

  /** `_update_state`, given whether the selected connection is writable and whether some connection is active. */
  function Refreshed(v: Status, selectedWritable: bool, anyActive: bool): Status {
    var w := WithWritable(v, selectedWritable);
    w.(state := ComputeState(w, anyActive))
  }

  /** A refresh settles the status and takes no flag back. */
  lemma RefreshSettles(v: Status, selectedWritable: bool, anyActive: bool)
    requires v.writable ==> v.hasBeenConnection
    ensures var r := Refreshed(v, selectedWritable, anyActive);
            && Refreshed(r, selectedWritable, anyActive) == r
            && (r.writable ==> r.hasBeenConnection) && (v.hasBeenConnection ==> r.hasBeenConnection)
            && (r.hasBeenConnection ==> v.hasBeenConnection || selectedWritable)
            && r.hadConnection == v.hadConnection && r.writable == selectedWritable
  {
  }

  // ---- Runs -------------------------------------------------------------------------------------------

  datatype StatusEvent = ConnectionAdded | Refresh(selectedWritable: bool, anyActive: bool)

  function StatusStep(v: Status, e: StatusEvent): Status {
    match e
    case ConnectionAdded => v.(hadConnection := true)
    case Refresh(w, a) => Refreshed(v, w, a)
  }

  function StatusRun(events: seq<StatusEvent>): Status {
    if events == [] then NEW_STATUS else StatusStep(StatusRun(events[..|events| - 1]), events[|events| - 1])
  }

  predicate EverAdded(events: seq<StatusEvent>) {
    exists i :: 0 <= i < |events| && events[i].ConnectionAdded?
  }

  predicate EverWritable(events: seq<StatusEvent>) {
    exists i :: 0 <= i < |events| && events[i].Refresh? && events[i].selectedWritable
  }

  /** A writable selection is an active connection, and an active connection was added before. */
  predicate Possible(events: seq<StatusEvent>) {
    forall i :: 0 <= i < |events| && events[i].Refresh? ==>
      && (events[i].selectedWritable ==> events[i].anyActive)
      && (events[i].anyActive ==> EverAdded(events[..i]))
  }

  lemma {:induction false} FlagsAreHistory(events: seq<StatusEvent>)
    ensures StatusRun(events).hadConnection <==> EverAdded(events)
    ensures StatusRun(events).hasBeenConnection <==> EverWritable(events)
  {
    if events != [] {
      var before, last := events[..|events| - 1], events[|events| - 1];
      FlagsAreHistory(before);
      WritableWasSeen(before);
      assert forall i :: 0 <= i < |before| ==> events[i] == before[i];
      assert EverAdded(events) <==> EverAdded(before) || last.ConnectionAdded?;
      assert EverWritable(events) <==> EverWritable(before) || (last.Refresh? && last.selectedWritable);
    }
  }

  lemma {:induction false} WritableWasSeen(events: seq<StatusEvent>)
    ensures StatusRun(events).writable ==> StatusRun(events).hasBeenConnection
  {
    if events != [] {
      WritableWasSeen(events[..|events| - 1]);
    }
  }

  /**
   * After every refresh the state is exactly what the history says. So it is connected exactly when writable, failed
   * exactly when there was a connection and none is active, new only before the first connection, and never checking
   * once the channel was writable.
   */
  lemma StateIsHistory(events: seq<StatusEvent>)
    requires Possible(events) && events != [] && events[|events| - 1].Refresh?
    ensures var now, v := events[|events| - 1], StatusRun(events);
            && v.writable == now.selectedWritable
            && (v.state == New <==> !EverAdded(events))
            && (v.state == Failed <==> EverAdded(events) && !now.anyActive)
            && (v.state == Connected <==> v.writable)
            && (v.state == Checking <==> now.anyActive && !EverWritable(events))
            && (v.state == Disconnected <==> now.anyActive && EverWritable(events) && !v.writable)
  {
    var last := |events| - 1;
    FlagsAreHistory(events);
    FlagsAreHistory(events[..last]);
    assert EverAdded(events[..last]) ==> EverAdded(events) by {
      if EverAdded(events[..last]) {
        var i :| 0 <= i < last && events[..last][i].ConnectionAdded?;
        assert events[i].ConnectionAdded?;
      }
    }
    assert events[last].selectedWritable ==> EverWritable(events);
  }

  /** A refresh that respects what the object guarantees prolongs a possible run. */
  lemma RefreshProlongs(events: seq<StatusEvent>, selectedWritable: bool, anyActive: bool)
    requires Possible(events)
    requires (selectedWritable ==> anyActive) && (anyActive ==> StatusRun(events).hadConnection)
    ensures var more := events + [Refresh(selectedWritable, anyActive)];
            Possible(more) && StatusRun(more) == Refreshed(StatusRun(events), selectedWritable, anyActive)
  {
    FlagsAreHistory(events);
    PossibleProlonged(events, Refresh(selectedWritable, anyActive));
  }

  lemma ConnectionProlongs(events: seq<StatusEvent>)
    requires Possible(events)
    ensures var more := events + [ConnectionAdded];
            Possible(more) && StatusRun(more) == StatusRun(events).(hadConnection := true)
  {
    PossibleProlonged(events, ConnectionAdded);
  }

  lemma PossibleProlonged(events: seq<StatusEvent>, e: StatusEvent)
    requires Possible(events)
    requires e.Refresh? ==> (e.selectedWritable ==> e.anyActive) && (e.anyActive ==> EverAdded(events))
    ensures Possible(events + [e]) && StatusRun(events + [e]) == StatusStep(StatusRun(events), e)
  {
    hide EverAdded;
    var more := events + [e];
    assert more[..|events|] == events;
    forall i | 0 <= i < |events|
      ensures more[..i] == events[..i] && more[i] == events[i]
    {
    }
  }

  // ---- The object -------------------------------------------------------------------------------------

  predicate SomeActive(connections: seq<IceConnection>)
    reads connections`writeState
  {
    exists i :: 0 <= i < |connections| && connections[i].writeState != WriteTimeout
  }

  predicate SomeReceiving(connections: seq<IceConnection>)
    reads connections`receiving
  {
    exists i :: 0 <= i < |connections| && connections[i].receiving
  }

  /** The first of a sorted list is ready and its round trip is at least 10 below a given one. */
  predicate Improves(sorted: seq<IceConnection>, rtt: int)
    reads sorted
  {
    sorted != [] && S.Ready(SortKey(sorted[0])) && sorted[0].rtt <= rtt - S.MIN_IMPROVEMENT
  }

  /** The clock as one run of the timer reads it: for the updates, for the choice and for the ping. */
  datatype Tick = Tick(update: int, now: int, ping: int)

  /** The steps among the outcomes of ticks; a tick that comes too early has none. */
  function StepsOf<C>(outcomes: seq<Option<P.Event<C>>>): seq<P.Event<C>> {
    if outcomes == [] then []
    else (if outcomes[0].Some? then [outcomes[0].value] else []) + StepsOf(outcomes[1..])
  }

  /**
   * Every tick has its outcome: a step at least 43 ms after the last ping, none while that is less than 475 ms ago, or
   * 43 ms when nothing is selected; and what is pinged is pinged at the tick's time.
   */
  predicate Timed<C>(last: int, unselected: bool, ticks: seq<Tick>, outcomes: seq<Option<P.Event<C>>>)
    decreases |ticks|
  {
    && |ticks| == |outcomes|
    && (ticks == [] ||
        (&& (outcomes[0].Some? ==> ticks[0].now >= last + 43)
         && (outcomes[0].None? ==> ticks[0].now < last + if unselected then 43 else 475)
         && (outcomes[0].Some? ==>
               outcomes[0].value.time == if P.Chosen(outcomes[0].value).Some? then ticks[0].ping else last)
         && Timed(if outcomes[0].Some? then outcomes[0].value.time else last, unselected, ticks[1..], outcomes[1..])))
  }

  /** What the timer reads of a channel and leaves in it; `hungry` while some connection had fewer than three pings. */
  datatype Watch<!C> =
    Watch(schedule: P.Schedule<C>, cred: set<C>, last: int, interval: int, selected: bool, weak: bool, hungry: bool)

  /**
   * One run of the timer, from `w` to `v`. The scheduler makes exactly `step`, which is due 43 ms after the last ping,
   * or 475 ms when the selection is strong and every connection had three pings; while nothing is selected it is a scan
   * over all credentialed connections.
   */
  ghost predicate Ticked<C>(w: Watch<C>, v: Watch<C>, now: int, pingTime: int, found: Option<C>,
                                  step: Option<P.Event<C>>) {
    && v.cred == w.cred
    && v.interval == (if v.weak || w.hungry then WEAK_PING_INTERVAL else STRONG_PING_INTERVAL)
    && v.last == (if found.Some? then pingTime else w.last)
    && (step.Some? <==> now + PING_INTERVAL_DIFF >= w.last + v.interval)
    && (step.None? ==> found.None? && v.schedule == w.schedule)
    && (step.Some? ==>
          && step.value.time == v.last && found == P.Chosen(step.value)
          && (step.value.Check? || step.value.CheckSelected?)
          && P.Possible(w.schedule, step.value) && v.schedule == P.Step(w.schedule, step.value))
    && (!v.selected ==> v.weak && (step.Some? ==> step.value.Check? && step.value.pingable == v.cred))
  }

  /** The ticks from `w` to `v`: a run of the scheduler, and one steady scan while nothing is selected. */
  ghost predicate Ran<C>(w: Watch<C>, v: Watch<C>, ticks: seq<Tick>, steps: seq<P.Event<C>>,
                               outcomes: seq<Option<P.Event<C>>>) {
    && v.cred == w.cred
    && steps == StepsOf(outcomes) && Timed(w.last, !v.selected, ticks, outcomes)
    && P.IsRun(w.schedule, w.last, steps) && P.Later(w.last, steps)
    && v.schedule == P.Run(w.schedule, steps) && v.last == P.Latest(w.last, steps)
    && (!v.selected && v.cred != {} ==> P.Steady(w.last, v.cred, steps))
  }

  /** A ping and the interval that was in force when it went out. */
  datatype Sent = Sent(time: int, interval: int)

  function LastTime(log: seq<Sent>): int {
    if log == [] then 0 else log[|log| - 1].time
  }

  /** Each ping keeps its distance from the one before. */
  predicate Spaced(log: seq<Sent>)
    decreases |log|
  {
    log == [] ||
    (var last := |log| - 1;
     && Spaced(log[..last])
     && log[last].interval in {WEAK_PING_INTERVAL, STRONG_PING_INTERVAL}
     && log[last].time - LastTime(log[..last]) >= log[last].interval - PING_INTERVAL_DIFF)
  }

  ghost predicate IsPaced<C>(log: seq<Sent>, last: int, schedule: P.Schedule<C>) {
    Spaced(log) && last == LastTime(log) && P.Fair(schedule, last)
  }

  /** So over any stretch of a run there are at least 43 ms for every ping. */
  lemma {:induction false} PingsAreApart(log: seq<Sent>, i: nat)
    requires Spaced(log) && i < |log|
    ensures LastTime(log) - log[i].time >= 43 * (|log| - 1 - i)
  {
    var last := |log| - 1;
    if i < last {
      PingsAreApart(log[..last], i);
    }
  }

  /**
   * The channel keeps its own selected pointer beside the controller's. Signals are delivered by calling
   * `OnConnectionStateChange` at the point where the connection raises them.
   */
  class IceTransportChannel {
    const controller: IceController
    var selected: IceConnection?
    var receiving: bool
    var writable: bool
    var hadConnection: bool
    var hasBeenConnection: bool
    var state: TransportState
    var startPinging: bool
    var lastPingSentMs: int
    var curPingInterval: int
    var remotePwd: string
    ghost var history: seq<StatusEvent>
    ghost var log: seq<Sent>

    constructor ()
      ensures Healthy() && Agree() && fresh(controller) && history == [] && log == []
      ensures Current() == NEW_STATUS && controller.Schedule() == P.Schedule({}, {}, map[])
    {
      controller := new IceController();
      selected, receiving, writable, hadConnection, hasBeenConnection := null, false, false, false, false;
      state, startPinging, lastPingSentMs, curPingInterval := New, false, 0, WEAK_PING_INTERVAL;
      remotePwd, history, log := "", [], [];
    }

    ghost predicate Valid()
      reads `selected, `hadConnection, `hasBeenConnection, `writable, `state, `history,
        controller`connections, controller`unpinged, controller`pinged
    {
      && Sound()
      && (selected != null ==> selected in controller.connections)
    }

    /** All of it but the selection: the controller is valid and the status is that of a possible run, `history`. */
    ghost predicate Sound()
      reads `hadConnection, `hasBeenConnection, `writable, `state, `history,
        controller`connections, controller`unpinged, controller`pinged
    {
      && controller.Valid() && Recorded()
      && (controller.connections != [] || hasBeenConnection ==> hadConnection)
      && (writable ==> hasBeenConnection)
    }

    ghost predicate Recorded()
      reads `hadConnection, `hasBeenConnection, `writable, `state, `history
    {
      Current() == StatusRun(history) && Possible(history)
    }

    /** The pings kept their distance, the latest went out at `lastPingSentMs`, and the schedule is fair. */
    ghost predicate Paced()
      reads `log, `lastPingSentMs,
        controller`connections, controller`unpinged, controller`pinged, controller.connections`lastPingSent
    {
      IsPaced(log, lastPingSentMs, controller.Schedule())
    }

    /** What every channel satisfies between calls. */
    ghost predicate Healthy()
      reads this, selected, controller, controller.connections
    {
      Valid() && Settled() && Paced()
    }

    /** The two selected pointers are the same. */
    predicate Agree()
      reads `selected, controller`selected
    {
      controller.selected == selected
    }

    /** The controller's pointer does not refer to a destroyed connection. */
    predicate Live()
      reads controller`selected, controller`connections
    {
      controller.selected == null || controller.selected in controller.connections
    }

    /** Reactions never part the two pointers, never leave one dangling and never clear the selection. */
    twostate predicate Keeps()
      reads `selected, controller`selected, controller`connections
    {
      && (old(Agree()) ==> Agree()) && (old(Live()) ==> Live())
      && (old(selected) != null ==> selected != null)
      && (old(controller.selected) != null ==> controller.selected != null)
    }

    function Current(): Status
      reads `hadConnection, `hasBeenConnection, `writable, `state
    {
      Status(hadConnection, hasBeenConnection, writable, state)
    }

    predicate SelectedWrites()
      reads `selected, selected
    {
      selected != null && selected.writeState == Writable
    }

    /** The state, the flags and `receiving` are those a refresh would compute now. */
    ghost predicate Settled()
      reads `hadConnection, `hasBeenConnection, `writable, `state, `receiving, `selected, selected,
        controller`connections, controller.connections`writeState, controller.connections`receiving
    {
      && Current() == Refreshed(Current(), SelectedWrites(), SomeActive(controller.connections))
      && receiving == SomeReceiving(controller.connections)
    }

    /** What no step takes back. */
    twostate predicate Progress()
      reads `hadConnection, `hasBeenConnection, `startPinging, `history
    {
      && old(history) <= history
      && (old(hadConnection) ==> hadConnection)
      && (old(hasBeenConnection) ==> hasBeenConnection)
      && (old(startPinging) ==> startPinging)
    }

    method UpdateState()
      requires Valid()
      modifies `writable, `hasBeenConnection, `receiving, `state, `history
      ensures Valid() && Settled() && Progress()
      ensures history == old(history) + [Refresh(SelectedWrites(), SomeActive(controller.connections))]
    {
      hide StatusRun, Possible, SomeActive, SomeReceiving, IceController.Valid, Refreshed;
      ghost var active := SomeActive(controller.connections);
      SelectedIsActive();
      RefreshProlongs(history, SelectedWrites(), active);
      RefreshSettles(Current(), SelectedWrites(), active);
      RefreshStatus();
      history := history + [Refresh(SelectedWrites(), active)];
    }

    method RefreshStatus()
      modifies `writable, `hasBeenConnection, `receiving, `state
      ensures Current() == Refreshed(old(Current()), SelectedWrites(), SomeActive(controller.connections))
      ensures receiving == SomeReceiving(controller.connections)
    {
      hide SomeActive, SomeReceiving;
      SetWritable(selected != null && selected.Writes());
      receiving := AnyReceiving();
      state := ComputeIceTransportState();
    }

    method AnyReceiving() returns (any: bool)
      ensures any == SomeReceiving(controller.connections)
    {
      any := false;
      for i := 0 to |controller.connections|
        invariant forall j :: 0 <= j < i ==> !controller.connections[j].receiving
      {
        if controller.connections[i].receiving {
          return true;
        }
      }
    }

    lemma SelectedIsActive()
      requires Valid()
      ensures SelectedWrites() ==> SomeActive(controller.connections)
      ensures SomeActive(controller.connections) ==> StatusRun(history).hadConnection
    {
      if SelectedWrites() {
        var i :| 0 <= i < |controller.connections| && controller.connections[i] == selected;
        assert controller.connections[i].writeState != WriteTimeout;
      }
    }

    method SetWritable(value: bool)
      modifies `writable, `hasBeenConnection
      ensures Current() == WithWritable(old(Current()), value)
    {
      if writable == value {
        return;
      }
      if value {
        hasBeenConnection := true;
      }
      writable := value;
    }

    method ComputeIceTransportState() returns (s: TransportState)
      ensures s == ComputeState(Current(), SomeActive(controller.connections))
    {
      var hasConnection := false;
      for i := 0 to |controller.connections|
        invariant !hasConnection
        invariant forall j :: 0 <= j < i ==> controller.connections[j].writeState == WriteTimeout
      {
        if controller.connections[i].writeState != WriteTimeout {
          hasConnection := true;
          break;
        }
      }
      if hadConnection && !hasConnection {
        return Failed;
      }
      if hasBeenConnection && !writable {
        return Disconnected;
      }
      if !hadConnection && !hasConnection {
        return New;
      }
      if hasConnection && !writable {
        return Checking;
      }
      return Connected;
    }

    /** Clearing the selection leaves the controller's pointer as it was. */
    method SwitchSelectedConnection(c: IceConnection?)
      modifies `selected, controller`selected
      ensures selected == c && controller.selected == if c != null then c else old(controller.selected)
    {
      selected := c;
      if selected != null {
        controller.selected := selected;
      }
    }

    method MaybeStartPinging(now: int)
      modifies `startPinging
      ensures startPinging == (old(startPinging) || controller.Pingable(now) != {})
    {
      if startPinging {
        return;
      }
      startPinging := controller.HasPingableConnection(now);
    }

    /** What one sort does to the list and to the two pointers. */
    twostate predicate Resorted()
      reads `selected, controller
    {
      && S.Keyed(old(controller.connections), old(controller.Keys()))
      && (old(controller.selected) != null ==> old(controller.selected) in old(controller.Keys()))
      && controller.connections == S.StableSort(old(controller.connections), old(controller.Keys()))
      && var switch := S.SwitchTo(controller.connections, ToOption(old(controller.selected)), old(controller.Keys()));
         && ToOption(controller.selected) == (if switch.Some? then switch else ToOption(old(controller.selected)))
         && ToOption(selected) == (if switch.Some? then switch else ToOption(old(selected)))
    }

    /** The list is in order of the fields, and its first has taken over exactly when it may. */
    twostate predicate Switched(was: IceConnection?)
      reads `selected, controller`connections, controller`selected, was,
        controller.connections`writeState, controller.connections`receiving, controller.connections`rtt
    {
      && BestFirst(controller.connections)
      && (if TakesOver(controller.connections, was)
          then selected == controller.connections[0] && controller.selected == controller.connections[0]
          else selected == old(selected) && controller.selected == was)
    }

    method SortAndMaybeSwitch()
      requires Valid()
      modifies `selected, controller`connections, controller`selected
      ensures Switched(old(controller.selected))
      ensures Valid() && Resorted() && controller.Members() == old(controller.Members())
      ensures controller.Schedule() == old(controller.Schedule())
      ensures Keeps()
    {
      hide S.StableSort, S.SwitchTo, S.Keyed, BestFirst;
      var top := controller.SortAndSwitch();
      if top != null {
        SwitchSelectedConnection(top);
      }
      assert selected != null ==> selected in controller.Members();
    }

    /** In every settled channel the state says exactly this about its connections and its own past. */
    lemma SettledMeans()
      requires Valid() && Settled()
      ensures hadConnection <==> EverAdded(history)
      ensures hasBeenConnection <==> EverWritable(history)
      ensures writable == SelectedWrites()
      ensures state == New <==> !EverAdded(history)
      ensures state == Failed <==> EverAdded(history) && !SomeActive(controller.connections)
      ensures state == Connected <==> SelectedWrites()
      ensures state == Disconnected <==>
              SomeActive(controller.connections) && EverWritable(history) && !SelectedWrites()
      ensures state == Checking <==> SomeActive(controller.connections) && !EverWritable(history)
    {
      SelectedIsActive();
      FlagsAreHistory(history);
      hide StatusRun, Possible, EverAdded, EverWritable, SomeActive;
    }

    /** Once writable, a channel is never checking again, and once it had a connection never new. */
    twostate lemma NeverGoesBack()
      requires old(Valid()) && Progress() && Valid() && Settled()
      ensures old(writable || hasBeenConnection) ==> state != Checking
      ensures old(hadConnection) ==> state != New
    {
      SettledMeans();
    }

    /** `_sort_connections_and_update_state`, also the handler of a connection's state-change signal. */
    method OnConnectionStateChange(now: int)
      requires Valid()
      modifies this`selected, `writable, `hasBeenConnection, `receiving, `state, `history, `startPinging,
        controller`connections, controller`selected
      ensures Valid() && Resorted() && Switched(old(controller.selected)) && Settled() && Progress()
      ensures Keeps()
      ensures controller.Members() == old(controller.Members())
      ensures controller.Schedule() == old(controller.Schedule())
      ensures startPinging == (old(startPinging) || controller.Pingable(now) != {})
    {
      hide Valid, Settled, Resorted, IceController.Schedule, IceController.Pingable, IceController.Members;
      hide BestFirst, TakesOver;
      SortAndMaybeSwitch();
      UpdateState();
      MaybeStartPinging(now);
    }

    /** A new pair is added, its first request is answered, and the channel sorts and refreshes. */
    method AddConnection(c: IceConnection, now: int)
      requires Healthy() && c !in controller.connections && c.Value() == NEW_CONN
      modifies this`selected, `hadConnection, `writable, `hasBeenConnection, `receiving, `state, `history,
        `startPinging, controller`connections, controller`unpinged, controller`selected
      ensures Healthy() && Progress() && Keeps() && hadConnection
      ensures controller.Members() == old(controller.Members()) + {c}
      ensures controller.Schedule() == P.Added(old(controller.Schedule()), c)
    {
      hide Settled, Resorted, StatusRun, Possible, IsPaced, P.Added;
      hide IceController.Schedule, IceController.Valid, IceController.Pingable;
      ConnectionProlongs(history);
      NewcomerIsFair(c);
      hadConnection := true;
      history := history + [ConnectionAdded];
      controller.AddConnection(c);
      OnConnectionStateChange(now);
    }

    lemma NewcomerIsFair(c: IceConnection)
      requires Healthy() && c !in controller.connections
      ensures IsPaced(log, lastPingSentMs, P.Added(controller.Schedule(), c))
    {
      assert c !in controller.Members();
      P.StepKeepsFair(controller.Schedule(), P.Add(lastPingSentMs, c), lastPingSentMs);
    }

    /**
     * The first request from an unknown address: without an advertised priority it is ignored, otherwise the peer
     * reflexive pair it comes from is created with the sender's fragment and the password known so far.
     */
    method OnUnknownAddress(localPriority: uint32, priority: Option<uint32>, remoteUfrag: string, now: int)
      returns (c: IceConnection?)
      requires Healthy()
      modifies this`selected, `hadConnection, `writable, `hasBeenConnection, `receiving, `state, `history,
        `startPinging, controller`connections, controller`unpinged, controller`selected
      ensures Healthy() && Progress() && Keeps()
      ensures c == null <==> priority.None?
      ensures c == null ==> controller.Schedule() == old(controller.Schedule()) && Current() == old(Current())
      ensures c == null ==> controller.Members() == old(controller.Members())
      ensures c != null ==>
                && fresh(c) && c.Value() == NEW_CONN && hadConnection
                && c.localPriority == localPriority && c.remotePriority == priority.value
                && c.remoteUfrag == remoteUfrag && c.remotePwd == remotePwd
                && controller.Members() == old(controller.Members()) + {c}
                && controller.Schedule() == P.Added(old(controller.Schedule()), c)
    {
      if priority.None? {
        return null;
      }
      c := new IceConnection(localPriority, priority.value, remoteUfrag, remotePwd);
      assert Healthy() by {
        assert controller.Schedule() == old(controller.Schedule());
      }
      AddConnection(c, now);
    }

    /**
     * Destroying the selected connection clears only the channel's pointer; the controller still compares against the
     * old one. So a replacement is found exactly when the best of the others, as they stood before, is ready and its
     * round trip is at least 10 below that of the pair destroyed; and the pointers agree afterwards exactly then.
     */
    method OnConnectionDestroyed(c: IceConnection, now: int)
      requires Healthy() && c in controller.connections
      modifies this`selected, `writable, `hasBeenConnection, `receiving, `state, `history, `startPinging,
        controller`connections, controller`unpinged, controller`pinged, controller`selected
      ensures Healthy() && Progress()
      ensures controller.Members() == old(controller.Members()) - {c}
      ensures controller.Schedule() == P.Removed(old(controller.Schedule()), c)
      ensures c != old(selected) ==> selected == old(selected) && controller.selected == old(controller.selected)
      ensures S.Keyed(Without(old(controller.connections), c), old(controller.Keys()))
      ensures old(Agree()) && c == old(selected) ==>
                var others := S.StableSort(Without(old(controller.connections), c), old(controller.Keys()));
                && (selected != null <==> Improves(others, c.rtt))
                && (Agree() <==> Improves(others, c.rtt))
    {
      hide Settled, Resorted, StatusRun, Possible, IsPaced, P.Removed;
      hide IceController.Schedule, IceController.Valid, IceController.Pingable, IceController.Keys, S.StableSort;
      OthersAreKeyed(c);
      RestIsFair(c);
      controller.OnConnectionDestroyed(c);
      assert c !in controller.Members();
      if selected == c {
        ReplaceSelected(now);
      } else {
        assert selected != null ==> selected in controller.Members();
        UpdateState();
      }
    }

    lemma OthersAreKeyed(c: IceConnection)
      requires Valid()
      ensures S.Keyed(Without(controller.connections, c), controller.Keys())
    {
      var others := Without(controller.connections, c);
      forall i | 0 <= i < |others|
        ensures others[i] in controller.Keys()
      {
        WithoutKeeps(controller.connections, c, i);
        assert others[i] in controller.Members();
      }
    }

    lemma RestIsFair(c: IceConnection)
      requires Paced()
      ensures IsPaced(log, lastPingSentMs, P.Removed(controller.Schedule(), c))
    {
      P.StepKeepsFair(controller.Schedule(), P.Remove(lastPingSentMs, c), lastPingSentMs);
    }

    method ReplaceSelected(now: int)
      requires Sound() && selected != null && selected !in controller.connections
      modifies this`selected, `writable, `hasBeenConnection, `receiving, `state, `history, `startPinging,
        controller`connections, controller`selected
      ensures Valid() && Settled() && Progress()
      ensures controller.Members() == old(controller.Members())
      ensures controller.Schedule() == old(controller.Schedule())
      ensures old(Agree()) ==> (Agree() <==> selected != null)
      ensures S.Keyed(old(controller.connections), old(controller.Keys()))
      ensures old(Agree()) ==>
                (selected != null <==>
                 Improves(S.StableSort(old(controller.connections), old(controller.Keys())), old(selected).rtt))
    {
      hide Settled, Sound, IceController.Schedule, IceController.Pingable, S.StableSort, Switched;
      SwitchSelectedConnection(null);
      assert controller.Members() == old(controller.Members());
      hide IceController.Members;
      OnConnectionStateChange(now);
    }

    /** `set_write_state` of a connection, with its signal. */
    method SetWriteState(c: IceConnection, value: WriteState, now: int)
      requires Valid() && Settled() && c in controller.connections
      modifies this`selected, `writable, `hasBeenConnection, `receiving, `state, `history, `startPinging,
        controller`connections, controller`selected, c`writeState
      ensures Valid() && Settled() && Progress()
      ensures Keeps()
      ensures c.Value() == old(c.Value()).(writeState := value)
      ensures controller.Members() == old(controller.Members())
      ensures controller.Schedule() == old(controller.Schedule())
    {
      hide Valid, Settled, IceController.Schedule, IceController.Members;
      if c.writeState != value {
        c.SetWriteState(value);
        OnConnectionStateChange(now);
      }
    }

    /** `update_receiving` of a connection, with its signal. */
    method UpdateReceiving(c: IceConnection, now: int)
      requires Valid() && Settled() && c in controller.connections
      modifies this`selected, `writable, `hasBeenConnection, `receiving, `state, `history, `startPinging,
        controller`connections, controller`selected, c`receiving
      ensures Valid() && Settled() && Progress()
      ensures Keeps()
      ensures c.Value() == WithReceiving(old(c.Value()), now)
      ensures controller.Members() == old(controller.Members())
      ensures controller.Schedule() == old(controller.Schedule())
    {
      hide Valid, Settled, IceController.Schedule, IceController.Members;
      var hears := c.FindsReceiving(now);
      if c.receiving == hears {
        return;
      }
      c.SetReceiving(hears);
      OnConnectionStateChange(now);
    }

    /** `update_state` of one connection. */
    method UpdateConnection(c: IceConnection, now: int)
      requires Valid() && Settled() && c in controller.connections
      modifies this`selected, `writable, `hasBeenConnection, `receiving, `state, `history, `startPinging,
        controller`connections, controller`selected, c`writeState, c`receiving
      ensures Valid() && Settled() && Progress()
      ensures Keeps()
      ensures c.Value() == Updated(old(c.Value()), now)
      ensures controller.Members() == old(controller.Members())
      ensures controller.Schedule() == old(controller.Schedule())
    {
      hide Valid, Settled, IceController.Schedule, Degraded, TimedOut, NextReceiving;
      var lost := c.FindsUnreliable(now);
      if lost {
        SetWriteState(c, WriteUnreliable, now);
      }
      assert c in controller.Members();
      lost := c.FindsTimeout(now);
      if lost {
        SetWriteState(c, WriteTimeout, now);
      }
      assert c in controller.Members();
      UpdateReceiving(c, now);
    }

    method RecordResponse(c: IceConnection, sample: int, now: int)
      requires Valid() && Settled()
      modifies c`rtt, c`rttSamples, c`lastResponse, c`pings
      ensures Valid() && Settled()
      ensures c.Value() == Heard(old(c.Value()), sample, now)
    {
      c.RecordResponse(sample, now);
    }

    /** `received_ping_response`: the pair is writable afterwards and nothing is left unanswered. */
    method OnPingResponse(c: IceConnection, sample: int, now: int)
      requires Healthy() && c in controller.connections
      modifies this`selected, `writable, `hasBeenConnection, `receiving, `state, `history, `startPinging,
        controller`connections, controller`selected,
        c`writeState, c`receiving, c`rtt, c`rttSamples, c`lastResponse, c`pings
      ensures Healthy() && Progress()
      ensures Keeps()
      ensures c.Value() == Responded(old(c.Value()), sample, now)
      ensures controller.Members() == old(controller.Members())
      ensures controller.Schedule() == old(controller.Schedule())
    {
      hide Valid, Settled, IsPaced, IceController.Schedule, NextReceiving, Heard;
      RecordResponse(c, sample, now);
      UpdateReceiving(c, now);
      assert c in controller.Members();
      SetWriteState(c, Writable, now);
    }

    method UpdateConnectionStates(now: int)
      requires Valid() && Settled()
      modifies this`selected, `writable, `hasBeenConnection, `receiving, `state, `history, `startPinging,
        controller`connections, controller`selected,
        controller.Members()`writeState, controller.Members()`receiving
      ensures Valid() && Settled() && Progress()
      ensures Keeps()
      ensures controller.Members() == old(controller.Members())
      ensures controller.Schedule() == old(controller.Schedule())
      ensures controller.NeedsMorePings() == old(controller.NeedsMorePings()) && Credentialed() == old(Credentialed())
      ensures forall c :: c in old(controller.Members()) ==> c.Value() == Updated(old(c.Value()), now)
    {
      UpdateEach(now);
      hide Valid, Settled, IceController.Schedule, Updated, Credentialed, IceController.NeedsMorePings;
      SameConnections();
    }

    twostate lemma SameConnections()
      requires controller.Members() == old(controller.Members())
      requires forall c: IceConnection :: c in old(controller.Members()) ==>
                 c.remotePwd == old(c.remotePwd) && c.numPings == old(c.numPings)
      ensures controller.NeedsMorePings() == old(controller.NeedsMorePings())
      ensures Credentialed() == old(Credentialed())
    {
      assert forall c: IceConnection :: c in controller.connections <==> c in controller.Members();
      assert forall c: IceConnection :: c in old(controller.connections) <==> c in old(controller.Members());
    }

    method UpdateEach(now: int)
      requires Valid() && Settled()
      modifies this`selected, `writable, `hasBeenConnection, `receiving, `state, `history, `startPinging,
        controller`connections, controller`selected,
        controller.Members()`writeState, controller.Members()`receiving
      ensures Valid() && Settled() && Progress()
      ensures Keeps()
      ensures controller.Members() == old(controller.Members())
      ensures controller.Schedule() == old(controller.Schedule())
      ensures forall c :: c in old(controller.Members()) ==> c.Value() == Updated(old(c.Value()), now)
    {
      hide Valid, Settled, IceController.Schedule, Updated, IceController.Valid;
      var list := controller.connections;
      assert Distinct(list) by {
        ValidIsDistinct();
      }
      for i := 0 to |list|
        invariant Valid() && Settled() && Progress()
        invariant Keeps()
        invariant controller.Members() == old(controller.Members())
        invariant controller.Schedule() == old(controller.Schedule())
        invariant forall j :: 0 <= j < i ==> list[j].Value() == Updated(old(list[j].Value()), now)
        invariant forall j :: i <= j < |list| ==> list[j].Value() == old(list[j].Value())
      {
        assert list[i] in controller.Members();
        UpdateConnection(list[i], now);
      }
    }

    lemma ValidIsDistinct()
      requires Valid()
      ensures Distinct(controller.connections) && controller.Valid()
    {
    }

    /** The connections with full remote credentials: what can be pinged while nothing is selected. */
    ghost function Credentialed(): set<IceConnection>
      reads controller`connections, controller.connections`remotePwd
    {
      set c | c in controller.connections && c.Credentialed()
    }

    ghost function Watched(): Watch<IceConnection>
      reads `lastPingSentMs, `curPingInterval, controller`selected, controller.selected,
        controller`connections, controller`unpinged, controller`pinged, controller.connections`lastPingSent,
        controller.connections`numPings, controller.connections`remotePwd
    {
      Watch(controller.Schedule(), Credentialed(), lastPingSentMs, curPingInterval, controller.selected != null,
            controller.Weak(), controller.NeedsMorePings())
    }

    /** `select_connection_to_ping`, told as a scheduler step whose marking is still to come. */
    method SelectNext(now: int, pingTime: int)
      returns (found: IceConnection?, interval: int, ghost step: Option<P.Event<IceConnection>>)
      requires Valid() && Live()
      modifies controller`unpinged, controller`pinged
      ensures Valid() && (found != null ==> found in controller.connections)
      ensures interval ==
              if controller.Weak() || controller.NeedsMorePings() then WEAK_PING_INTERVAL else STRONG_PING_INTERVAL
      ensures step.Some? <==> now + PING_INTERVAL_DIFF >= lastPingSentMs + interval
      ensures step.None? ==> found == null && controller.Schedule() == old(controller.Schedule())
      ensures step.Some? ==>
                && (step.value.Check? || step.value.CheckSelected?)
                && step.value.time == (if found != null then pingTime else lastPingSentMs)
                && ToOption(found) == P.Chosen(step.value)
                && P.Possible(old(controller.Schedule()), step.value)
                && P.Step(old(controller.Schedule()), step.value) ==
                   (if found == null then controller.Schedule() else P.Marked(controller.Schedule(), found, pingTime))
      ensures controller.selected == null && step.Some? ==>
                step.value.Check? && step.value.pingable == Credentialed()
    {
      hide IceController.IsPingable, IceController.PastInterval, IceController.NeedsMorePings, P.Picks, P.Refilled;
      ghost var pingable := controller.Pingable(now);
      ghost var first := controller.SelectedFirst(now);
      UnselectedPingsAll(now);
      found, interval := controller.SelectConnectionToPing(lastPingSentMs - PING_INTERVAL_DIFF, now);
      if now < lastPingSentMs - PING_INTERVAL_DIFF + interval {
        step := None;
      } else if first {
        step := Some(P.CheckSelected(pingTime, found));
      } else {
        step := Some(P.Check(if found != null then pingTime else lastPingSentMs, pingable, ToOption(found)));
      }
    }

    lemma UnselectedPingsAll(now: int)
      ensures controller.selected == null ==> controller.Pingable(now) == Credentialed()
    {
    }

    /** `_ping_connection` and `mark_connection_pinged`. */
    method PingConnection(c: IceConnection, pingTime: int)
      requires Valid() && Settled() && c in controller.connections
      modifies `lastPingSentMs, controller`unpinged, controller`pinged, c`lastPingSent, c`pings, c`numPings
      ensures Valid() && Settled() && lastPingSentMs == pingTime
      ensures c.Value() == Pinged(old(c.Value()), pingTime)
      ensures controller.Schedule() == P.Marked(old(controller.Schedule()), c, pingTime)
    {
      hide Settled, IceController.Schedule;
      Ping(c, pingTime);
      controller.MarkConnectionPinged(c);
    }

    method Ping(c: IceConnection, pingTime: int)
      requires Valid() && Settled() && c in controller.connections
      modifies `lastPingSentMs, c`lastPingSent, c`pings, c`numPings
      ensures Valid() && Settled() && lastPingSentMs == pingTime
      ensures c.Value() == Pinged(old(c.Value()), pingTime)
      ensures controller.Schedule() ==
              old(controller.Schedule()).(last := old(controller.Schedule()).last[c := pingTime])
    {
      lastPingSentMs := pingTime;
      c.Ping(pingTime);
    }

    /** The choice, the ping and the marking together; `step` is the scheduler step they perform. */
    method PingNext(now: int, pingTime: int)
      returns (found: IceConnection?, ghost step: Option<P.Event<IceConnection>>)
      requires Valid() && Settled() && Live()
      modifies `lastPingSentMs, `curPingInterval, controller`unpinged, controller`pinged,
        controller.Members()`lastPingSent, controller.Members()`pings, controller.Members()`numPings
      ensures Valid() && Settled()
      ensures Ticked(old(Watched()), Watched(), now, pingTime, ToOption(found), step)
      ensures forall c :: c in controller.connections ==>
                c.Value() == if c == found then Pinged(old(c.Value()), pingTime) else old(c.Value())
    {
      hide Valid, Settled, Credentialed, IceController.Schedule, IceController.NeedsMorePings;
      hide P.Possible, P.Step, P.Marked, P.Chosen, Pinged;
      var interval;
      found, interval, step := SelectNext(now, pingTime);
      PingChosen(found, interval, pingTime);
    }

    method PingChosen(found: IceConnection?, interval: int, pingTime: int)
      requires Valid() && Settled() && (found != null ==> found in controller.connections)
      modifies `lastPingSentMs, `curPingInterval, controller`unpinged, controller`pinged,
        controller.Members()`lastPingSent, controller.Members()`pings, controller.Members()`numPings
      ensures Valid() && Settled() && curPingInterval == interval
      ensures lastPingSentMs == if found != null then pingTime else old(lastPingSentMs)
      ensures controller.Schedule() ==
              if found == null then old(controller.Schedule())
              else P.Marked(old(controller.Schedule()), found, pingTime)
      ensures Credentialed() == old(Credentialed()) && controller.Weak() == old(controller.Weak())
      ensures forall c :: c in controller.connections ==>
                c.Value() == if c == found then Pinged(old(c.Value()), pingTime) else old(c.Value())
    {
      hide Valid, Settled, Credentialed, IceController.Schedule, P.Marked, Pinged;
      if found != null {
        assert found in controller.Members();
        PingConnection(found, pingTime);
      }
      if curPingInterval != interval {
        curPingInterval := interval;
      }
    }

    /**
     * The timer. Every connection is updated, then at most one is pinged: never sooner than 43 ms after the previous
     * ping, nor than 475 ms when the selection is strong and every connection had three pings.
     */
    method OnCheckAndPing(updateTime: int, now: int, pingTime: int)
      returns (found: IceConnection?, ghost step: Option<P.Event<IceConnection>>)
      requires Healthy() && Live() && updateTime <= now <= pingTime
      modifies this`selected, `writable, `hasBeenConnection, `receiving, `state, `history, `startPinging,
        `lastPingSentMs, `curPingInterval, `log,
        controller`connections, controller`selected, controller`unpinged, controller`pinged,
        controller.Members()`writeState, controller.Members()`receiving,
        controller.Members()`lastPingSent, controller.Members()`pings, controller.Members()`numPings
      ensures Healthy() && Progress() && Keeps() && Live()
      ensures controller.Members() == old(controller.Members())
      ensures Ticked(old(Watched()), Watched(), now, pingTime, ToOption(found), step)
      ensures found != null ==> pingTime - old(lastPingSentMs) >= curPingInterval - PING_INTERVAL_DIFF
      ensures log == if found != null then old(log) + [Sent(pingTime, curPingInterval)] else old(log)
      ensures forall c :: c in old(controller.Members()) ==>
                var updated := Updated(old(c.Value()), updateTime);
                c.Value() == if c == found then Pinged(updated, pingTime) else updated
    {
      hide Valid, Settled, IsPaced, Watched, Ticked;
      hide Pinged, Updated;
      ghost var w, before := Watched(), log;
      WatchedMeans();
      found, step := Tick(updateTime, now, pingTime);
      WatchedMeans();
      ghost var v := Watched();
      TickIsPaced(w, v, now, pingTime, ToOption(found), step, before);
      if found != null {
        log := log + [Sent(pingTime, curPingInterval)];
      }
    }

    lemma WatchedMeans()
      ensures Watched().schedule == controller.Schedule() && Watched().last == lastPingSentMs
      ensures Watched().interval == curPingInterval && Watched().selected == (controller.selected != null)
      ensures Watched().cred == Credentialed()
    {
    }

    method Tick(updateTime: int, now: int, pingTime: int)
      returns (found: IceConnection?, ghost step: Option<P.Event<IceConnection>>)
      requires Valid() && Settled() && Live()
      modifies this`selected, `writable, `hasBeenConnection, `receiving, `state, `history, `startPinging,
        `lastPingSentMs, `curPingInterval,
        controller`connections, controller`selected, controller`unpinged, controller`pinged,
        controller.Members()`writeState, controller.Members()`receiving,
        controller.Members()`lastPingSent, controller.Members()`pings, controller.Members()`numPings
      ensures Valid() && Settled() && Progress() && Keeps() && Live()
      ensures controller.Members() == old(controller.Members())
      ensures Ticked(old(Watched()), Watched(), now, pingTime, ToOption(found), step)
      ensures forall c :: c in old(controller.Members()) ==>
                var updated := Updated(old(c.Value()), updateTime);
                c.Value() == if c == found then Pinged(updated, pingTime) else updated
    {
      hide Valid, Settled, Ticked, Pinged, Updated, Credentialed;
      hide IceController.Schedule, IceController.NeedsMorePings;
      ghost var w := Watched();
      UpdateConnectionStates(updateTime);
      ghost var u := Watched();
      found, step := PingNext(now, pingTime);
      OnlySelectionMoved(w, u, Watched(), now, pingTime, ToOption(found), step);
    }

    /**
     * The timer over a sequence of ticks, with nothing else in between. The steps it takes are a run of the scheduler;
     * while nothing is selected they all scan the credentialed connections, so as many steps as there are such
     * connections ping each of them exactly once. That consecutive pings keep their distance is part of `Healthy`.
     */
    method RunTimer(ticks: seq<Tick>)
      returns (ghost steps: seq<P.Event<IceConnection>>, ghost outcomes: seq<Option<P.Event<IceConnection>>>)
      requires Healthy() && Live()
      requires forall i :: 0 <= i < |ticks| ==> ticks[i].update <= ticks[i].now <= ticks[i].ping
      modifies this`selected, `writable, `hasBeenConnection, `receiving, `state, `history, `startPinging,
        `lastPingSentMs, `curPingInterval, `log,
        controller`connections, controller`selected, controller`unpinged, controller`pinged,
        controller.Members()`writeState, controller.Members()`receiving,
        controller.Members()`lastPingSent, controller.Members()`pings, controller.Members()`numPings
      ensures Healthy() && Progress() && Keeps() && Live()
      ensures controller.Members() == old(controller.Members())
      ensures Ran(old(Watched()), Watched(), ticks, steps, outcomes)
      ensures controller.selected == null && |steps| == |Credentialed()| ==>
                && P.Hits(steps) == Credentialed()
                && forall i, j :: 0 <= i < j < |steps| ==> P.Chosen(steps[i]) != P.Chosen(steps[j])
    {
      hide Watched, Ran, Credentialed, Settled, Valid;
      hide P.Chosen, P.Hits;
      ghost var w := Watched();
      CredentialedIsKnown();
      steps, outcomes := TakeTicks(ticks);
      EachIsPinged(w, Watched(), ticks, steps, outcomes);
      WatchedMeans();
    }

    method TakeTicks(ticks: seq<Tick>)
      returns (ghost steps: seq<P.Event<IceConnection>>, ghost outcomes: seq<Option<P.Event<IceConnection>>>)
      requires Healthy() && Live()
      requires forall i :: 0 <= i < |ticks| ==> ticks[i].update <= ticks[i].now <= ticks[i].ping
      modifies this`selected, `writable, `hasBeenConnection, `receiving, `state, `history, `startPinging,
        `lastPingSentMs, `curPingInterval, `log,
        controller`connections, controller`selected, controller`unpinged, controller`pinged,
        controller.Members()`writeState, controller.Members()`receiving,
        controller.Members()`lastPingSent, controller.Members()`pings, controller.Members()`numPings
      ensures Healthy() && Progress() && Keeps() && Live()
      ensures controller.Members() == old(controller.Members())
      ensures Ran(old(Watched()), Watched(), ticks, steps, outcomes)
      decreases |ticks|
    {
      hide Healthy, Live, Watched, Ran, Ticked, Updated, Pinged;
      ghost var w := Watched();
      CredentialedIsKnown();
      if ticks == [] {
        steps, outcomes := [], [];
        NoTicks(w);
      } else {
        var found, step := OnCheckAndPing(ticks[0].update, ticks[0].now, ticks[0].ping);
        ghost var v := Watched();
        WatchedMeans();
        ghost var rest, later := TakeTicks(ticks[1..]);
        WatchedMeans();
        TickExtends(w, v, Watched(), ToOption(found), step, rest, later, ticks);
        steps := (if step.Some? then [step.value] else []) + rest;
        outcomes := [step] + later;
      }
    }

    lemma ScheduleIsMembers()
      requires Healthy()
      ensures P.All(Watched().schedule) == controller.Members() && P.Fair(Watched().schedule, Watched().last)
    {
    }

    lemma CredentialedIsKnown()
      requires Healthy()
      ensures P.Fair(Watched().schedule, Watched().last)
      ensures Watched().cred <= P.All(Watched().schedule)
    {
      assert forall c :: c in Credentialed() ==> c in controller.Members();
    }

    method SetRemotePasswords(ufrag: string, pwd: string)
      requires Valid() && Settled()
      modifies controller.Members()`remotePwd
      ensures Valid() && Settled()
      ensures forall c :: c in controller.Members() ==>
                c.remotePwd == if c.remoteUfrag == ufrag && old(c.remotePwd) == "" then pwd else old(c.remotePwd)
    {
      var list := controller.connections;
      assert Distinct(list) by {
        ValidIsDistinct();
      }
      hide Sound, Refreshed;
      for i := 0 to |list|
        invariant forall j :: 0 <= j < i ==>
                    list[j].remotePwd == if list[j].remoteUfrag == ufrag && old(list[j].remotePwd) == "" then pwd
                                         else old(list[j].remotePwd)
        invariant forall j :: i <= j < |list| ==> list[j].remotePwd == old(list[j].remotePwd)
      {
        assert list[i] in controller.Members();
        list[i].MaybeSetRemoteIceParams(ufrag, pwd);
      }
    }

    /** New remote parameters reach every pair that still lacks a password for that fragment. */
    method SetRemoteIceParams(ufrag: string, pwd: string, now: int)
      requires Healthy()
      modifies this`selected, `remotePwd, `writable, `hasBeenConnection, `receiving, `state, `history, `startPinging,
        controller`connections, controller`selected, controller.Members()`remotePwd
      ensures Healthy() && Progress() && Keeps() && remotePwd == pwd
      ensures controller.Members() == old(controller.Members())
      ensures controller.Schedule() == old(controller.Schedule())
      ensures forall c :: c in old(controller.Members()) ==>
                c.remotePwd == if c.remoteUfrag == ufrag && old(c.remotePwd) == "" then pwd else old(c.remotePwd)
      ensures startPinging == (old(startPinging) || controller.Pingable(now) != {})
    {
      hide Valid, Settled, IsPaced, IceController.Schedule, IceController.Pingable;
      hide Resorted, Agree, Live;
      remotePwd := pwd;
      SetRemotePasswords(ufrag, pwd);
      OnConnectionStateChange(now);
    }
  }

  /** What moved before the ping is only the selection. */
  lemma OnlySelectionMoved<C>(w: Watch<C>, u: Watch<C>, v: Watch<C>, now: int, pingTime: int, found: Option<C>,
                                    step: Option<P.Event<C>>)
    requires u == w.(selected := u.selected, weak := u.weak)
    requires Ticked(u, v, now, pingTime, found, step)
    ensures Ticked(w, v, now, pingTime, found, step)
  {
  }

  /** What is pinged is known to the scheduler. */
  lemma FoundIsKnown<C>(w: Watch<C>, v: Watch<C>, now: int, pingTime: int, found: Option<C>,
                        step: Option<P.Event<C>>)
    requires Ticked(w, v, now, pingTime, found, step) && P.Fair(w.schedule, w.last)
    ensures found.Some? ==> found.value in P.All(w.schedule)
  {
  }

  lemma TickIsPaced<C>(w: Watch<C>, v: Watch<C>, now: int, pingTime: int, found: Option<C>,
                             step: Option<P.Event<C>>, log: seq<Sent>)
    requires Ticked(w, v, now, pingTime, found, step) && IsPaced(log, w.last, w.schedule) && now <= pingTime
    ensures IsPaced(if found.Some? then log + [Sent(pingTime, v.interval)] else log, v.last, v.schedule)
    ensures found.Some? ==> pingTime - w.last >= v.interval - PING_INTERVAL_DIFF
  {
    if step.Some? {
      P.StepKeepsFair(w.schedule, step.value, w.last);
    }
    hide P.Fair, P.Possible, P.Step, P.Chosen;
  }

  lemma NoTicks<C>(w: Watch<C>)
    ensures Ran(w, w, [], [], [])
  {
  }

  /** One tick in front of the others. */
  lemma TickExtends<C>(w: Watch<C>, x: Watch<C>, v: Watch<C>, found: Option<C>, step: Option<P.Event<C>>,
                             rest: seq<P.Event<C>>, outcomes: seq<Option<P.Event<C>>>, ticks: seq<Tick>)
    requires P.Fair(w.schedule, w.last) && w.cred <= P.All(w.schedule)
    requires ticks != [] && ticks[0].now <= ticks[0].ping && (x.selected ==> v.selected)
    requires Ticked(w, x, ticks[0].now, ticks[0].ping, found, step) && Ran(x, v, ticks[1..], rest, outcomes)
    ensures Ran(w, v, ticks, (if step.Some? then [step.value] else []) + rest, [step] + outcomes)
  {
    hide P.Fair, P.All, P.Possible, P.Step, P.Chosen, P.Steady, P.IsRun, P.Run, P.Latest, P.Later;
    assert ([step] + outcomes)[1..] == outcomes;
    if step.Some? {
      P.RunCons(w.schedule, w.last, step.value, rest);
    } else {
      assert [] + rest == rest;
    }
    if !v.selected && v.cred != {} {
      ScanExtends(w.schedule, w.last, x.last, w.cred, step, rest);
    }
  }

  lemma ScanExtends<C>(s: P.Schedule<C>, last0: int, last1: int, cred: set<C>, step: Option<P.Event<C>>,
                       rest: seq<P.Event<C>>)
    requires P.Fair(s, last0) && cred != {} && cred <= P.All(s) && P.Steady(last1, cred, rest)
    requires step.None? ==> last1 == last0
    requires step.Some? ==>
               && P.Possible(s, step.value) && step.value.Check? && step.value.pingable == cred
               && step.value.time == last1 && (P.Chosen(step.value).Some? ==> last0 < last1)
    ensures P.Steady(last0, cred, (if step.Some? then [step.value] else []) + rest)
  {
    if step.Some? {
      var c :| c in cred;
      P.ChoiceIsLeastRecentlyPinged(s, last0, cred, step.value.choice);
    } else {
      assert [] + rest == rest;
    }
  }

  /** While nothing is selected, as many steps as there are credentialed connections ping each of them once. */
  lemma EachIsPinged<C>(w: Watch<C>, v: Watch<C>, ticks: seq<Tick>, steps: seq<P.Event<C>>,
                              outcomes: seq<Option<P.Event<C>>>)
    requires Ran(w, v, ticks, steps, outcomes) && P.Fair(w.schedule, w.last) && w.cred <= P.All(w.schedule)
    ensures !v.selected && |steps| == |v.cred| ==>
              && P.Hits(steps) == v.cred
              && forall i, j :: 0 <= i < j < |steps| ==> P.Chosen(steps[i]) != P.Chosen(steps[j])
  {
    assert steps == [] ==> P.Steady(w.last, w.cred, steps);
    hide P.Fair, P.All, P.Chosen, P.IsRun, P.Run, P.Latest, P.Later, P.Hits, Timed, StepsOf;
    if !v.selected && |steps| == |v.cred| {
      P.RoundRobin(w.schedule, w.last, w.cred, steps);
    }
  }

}
