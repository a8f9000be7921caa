/** The pinged and unpinged sets as a scheduler: the least recently pinged connection comes next. */
module PingScheduling {
  import opened Octets

  /** `last` holds when each connection was last pinged; zero before its first ping. */
  datatype Schedule<!C> = Schedule(unpinged: set<C>, pinged: set<C>, last: map<C, int>)

  function All<C>(s: Schedule<C>): set<C> {
    s.unpinged + s.pinged
  }

  function Added<C>(s: Schedule<C>, c: C): Schedule<C> {
    s.(unpinged := s.unpinged + {c}, last := s.last[c := 0])
  }

  function Removed<C>(s: Schedule<C>, c: C): Schedule<C> {
    Schedule(s.unpinged - {c}, s.pinged - {c}, s.last - {c})
  }

  /** When nothing unpinged can be pinged, every connection becomes unpinged again. */
  function Refilled<C>(s: Schedule<C>, pingable: set<C>): Schedule<C> {
    if s.unpinged !! pingable then Schedule(All(s), {}, s.last) else s
  }

  function Marked<C>(s: Schedule<C>, c: C, now: int): Schedule<C> {
    Schedule(if c in s.pinged then s.unpinged else s.unpinged - {c}, s.pinged + {c}, s.last[c := now])
  }

  /** What the scan over the unpinged set may return: a pingable one pinged no later than the others, if any. */
  predicate Picks<C>(s: Schedule<C>, pingable: set<C>, choice: Option<C>)
    requires s.last.Keys == All(s)
  {
    match choice
    case None => s.unpinged !! pingable
    case Some(c) =>
      && c in s.unpinged && c in pingable
      && forall u :: u in s.unpinged && u in pingable ==> s.last[c] <= s.last[u]
  }

  /** What every reachable schedule satisfies. */
  predicate Fair<C>(s: Schedule<C>, now: int) {
    && 0 <= now
    && s.unpinged !! s.pinged
    && s.last.Keys == All(s)
    && (forall c :: c in s.last ==> 0 <= s.last[c] <= now)
    && (forall u, p :: u in s.unpinged && p in s.pinged ==> s.last[u] <= s.last[p])
  }

  // ---- Runs -------------------------------------------------------------------------------------------

  /**
   * A check either pings the selected connection first, leaving the sets as they are before marking, or refills
   * and scans; it marks what it chose.
   */
  datatype Event<!C> =
    | Add(time: int, conn: C)
    | Remove(time: int, conn: C)
    | CheckSelected(time: int, conn: C)
    | Check(time: int, pingable: set<C>, choice: Option<C>)

  predicate Possible<C>(s: Schedule<C>, e: Event<C>) {
    match e
    case Add(_, c) => c !in All(s)
    case Remove(_, c) => true
    case CheckSelected(_, c) => c in All(s)
    case Check(_, pingable, choice) => s.last.Keys == All(s) && Picks(Refilled(s, pingable), pingable, choice)
  }

  function Step<C>(s: Schedule<C>, e: Event<C>): Schedule<C> {
    match e
    case Add(_, c) => Added(s, c)
    case Remove(_, c) => Removed(s, c)
    case CheckSelected(now, c) => Marked(s, c, now)
    case Check(now, pingable, choice) =>
      var r := Refilled(s, pingable);
      if choice.None? then r else Marked(r, choice.value, now)
  }

  /** A run from `s` at `start`: every event is possible when it happens and the clock never steps back. */
  predicate IsRun<C>(s: Schedule<C>, start: int, events: seq<Event<C>>)
    decreases |events|
  {
    events == [] || (&& Possible(s, events[0]) && start <= events[0].time
                     && IsRun(Step(s, events[0]), events[0].time, events[1..]))
  }

  function Run<C>(s: Schedule<C>, events: seq<Event<C>>): Schedule<C>
    decreases |events|
  {
    if events == [] then s else Run(Step(s, events[0]), events[1..])
  }

  function Latest<C>(start: int, events: seq<Event<C>>): int {
    if events == [] then start else events[|events| - 1].time
  }

  lemma StepKeepsFair<C>(s: Schedule<C>, e: Event<C>, now: int)
    requires Fair(s, now) && now <= e.time && Possible(s, e)
    ensures Fair(Step(s, e), e.time)
  {
  }

  /** Over every run the sets partition the connections and nothing unpinged was pinged later than something pinged. */
  lemma {:induction false} EveryRunIsFair<C>(s: Schedule<C>, start: int, events: seq<Event<C>>)
    requires Fair(s, start) && IsRun(s, start, events)
    ensures Fair(Run(s, events), Latest(start, events))
    decreases |events|
  {
    if events != [] {
      StepKeepsFair(s, events[0], start);
      EveryRunIsFair(Step(s, events[0]), events[0].time, events[1..]);
    }
  }

  /**
   * Outside the selected-first branch the choice is one over the whole list: none exactly when nothing at all can be
   * pinged, and otherwise a pingable connection with the least last ping among all pingable ones.
   */
  lemma ChoiceIsLeastRecentlyPinged<C>(s: Schedule<C>, now: int, pingable: set<C>, choice: Option<C>)
    requires Fair(s, now)
    ensures Picks(Refilled(s, pingable), pingable, choice) ==>
            && (choice.None? <==> All(s) !! pingable)
            && (choice.Some? ==>
                  && choice.value in All(s) && choice.value in pingable
                  && forall c :: c in All(s) && c in pingable ==> s.last[choice.value] <= s.last[c])
  {
  }

  // ---- Bounded waiting ----------------------------------------------------------------------------------

  /** Consecutive pings at strictly later times, with the same connections pingable throughout. */
  predicate Steady<C>(start: int, pingable: set<C>, events: seq<Event<C>>)
    decreases |events|
  {
    events == [] || (&& events[0].Check? && events[0].pingable == pingable && events[0].choice.Some?
                     && start < events[0].time && Steady(events[0].time, pingable, events[1..]))
  }

  function Chosen<C>(e: Event<C>): Option<C> {
    match e
    case CheckSelected(_, c) => Some(c)
    case Check(_, _, choice) => choice
    case _ => None
  }

  function Hits<C>(events: seq<Event<C>>): set<C>
    decreases |events|
  {
    if events == [] then {}
    else (if Chosen(events[0]).Some? then {Chosen(events[0]).value} else {}) + Hits(events[1..])
  }

  lemma SubsetSize<C>(a: set<C>, b: set<C>)
    requires a <= b
    ensures |a| <= |b| && (|a| == |b| ==> a == b)
    decreases |a|
  {
    if a != {} {
      var x :| x in a;
      SubsetSize(a - {x}, b - {x});
      assert a == (a - {x}) + {x} && b == (b - {x}) + {x};
    }
  }

  /** Which connections were pinged since `first`: those in `done` and no others. */
  predicate Waiting<C>(s: Schedule<C>, pingable: set<C>, done: set<C>, first: int)
    requires s.last.Keys == All(s) && pingable <= All(s)
  {
    && done <= pingable
    && (forall d :: d in done ==> s.last[d] >= first)
    && (forall w :: w in pingable && w !in done ==> s.last[w] < first)
  }

  /** A connection pinged since `first` is not chosen while another has waited since before. */
  lemma LongestWaitingIsChosen<C>(s: Schedule<C>, start: int, pingable: set<C>, done: set<C>, first: int, c: C)
    requires Fair(s, start) && pingable <= All(s) && Waiting(s, pingable, done, first) && done != pingable
    requires Picks(Refilled(s, pingable), pingable, Some(c))
    ensures c in pingable && c !in done
  {
    ChoiceIsLeastRecentlyPinged(s, start, pingable, Some(c));
    var w :| w in pingable && w !in done;
    assert s.last[c] <= s.last[w];
  }

  lemma CheckShortensTheWait<C>(s: Schedule<C>, start: int, pingable: set<C>, done: set<C>, first: int, e: Event<C>)
    requires Fair(s, start) && pingable <= All(s) && Waiting(s, pingable, done, first) && done != pingable
    requires Possible(s, e) && e.Check? && e.pingable == pingable && e.choice.Some? && start <= e.time
    requires first <= e.time
    ensures var c := e.choice.value;
            var next := Step(s, e);
            && c in pingable && c !in done
            && Fair(next, e.time) && pingable <= All(next) && Waiting(next, pingable, done + {c}, first)
  {
    LongestWaitingIsChosen(s, start, pingable, done, first, e.choice.value);
    StepKeepsFair(s, e, start);
  }

  lemma {:induction false} PingsMissTheDone<C>(s: Schedule<C>, start: int, pingable: set<C>, done: set<C>, first: int,
                                               events: seq<Event<C>>)
    requires Fair(s, start) && IsRun(s, start, events) && Steady(start, pingable, events)
    requires pingable <= All(s) && Waiting(s, pingable, done, first) && |events| <= |pingable - done|
    requires events != [] ==> first <= events[0].time
    ensures Hits(events) <= pingable - done && |Hits(events)| == |events|
    decreases |events|
  {
    hide Fair, Waiting, Possible, Refilled, Picks, Marked, Step, All;
    if events != [] {
      var e := events[0];
      var c := e.choice.value;
      assert done != pingable;
      CheckShortensTheWait(s, start, pingable, done, first, e);
      assert pingable - (done + {c}) == pingable - done - {c};
      PingsMissTheDone(Step(s, e), e.time, pingable, done + {c}, first, events[1..]);
    }
  }

  /** With `n` connections pingable throughout, any `n` consecutive pings hit each of them exactly once. */
  lemma RoundRobin<C>(s: Schedule<C>, start: int, pingable: set<C>, events: seq<Event<C>>)
    requires Fair(s, start) && IsRun(s, start, events) && Steady(start, pingable, events)
    requires pingable <= All(s) && |events| == |pingable|
    ensures Hits(events) == pingable
    ensures forall i, j :: 0 <= i < j < |events| ==> Chosen(events[i]) != Chosen(events[j])
  {
    if events != [] {
      PingsMissTheDone(s, start, pingable, {}, events[0].time, events);
      assert pingable - {} == pingable;
      SubsetSize(Hits(events), pingable);
      AllHitsDiffer(start, pingable, events);
    } else {
      SubsetSize({}, pingable);
    }
  }

  lemma HitAgain<C>(events: seq<Event<C>>)
    requires events != [] && Chosen(events[0]).Some?
    ensures Chosen(events[0]).value in Hits(events[1..]) ==> |Hits(events)| == |Hits(events[1..])|
  {
    if Chosen(events[0]).value in Hits(events[1..]) {
      assert Hits(events) == Hits(events[1..]);
    }
  }

  lemma {:induction false} AllHitsDiffer<C>(start: int, pingable: set<C>, events: seq<Event<C>>)
    requires Steady(start, pingable, events)
    ensures |Hits(events)| <= |events|
    ensures forall i :: 0 <= i < |events| ==>
              Chosen(events[i]).Some? && Chosen(events[i]).value in Hits(events)
    ensures |Hits(events)| == |events| ==>
              forall i, j :: 0 <= i < j < |events| ==> Chosen(events[i]) != Chosen(events[j])
    decreases |events|
  {
    if events != [] {
      var rest := events[1..];
      AllHitsDiffer(events[0].time, pingable, rest);
      assert forall i :: 0 < i < |events| ==> events[i] == rest[i - 1];
      if |Hits(events)| == |events| {
        HitAgain(events);
      }
    }
  }

  // ---- Waiting while other pings go in between ------------------------------------------------------------

  /** Every ping goes out later than what came before it. */
  predicate Later<C>(start: int, events: seq<Event<C>>)
    decreases |events|
  {
    events == [] || (&& (Chosen(events[0]).Some? ==> start < events[0].time)
                     && Later(events[0].time, events[1..]))
  }

  /** Checks only, and whenever the unpinged set is scanned `w` may be pinged and only `bound` may be. */
  predicate Pingable<C>(w: C, bound: set<C>, events: seq<Event<C>>) {
    forall i :: 0 <= i < |events| ==>
      && (events[i].Check? || events[i].CheckSelected?)
      && (events[i].Check? ==> w in events[i].pingable && events[i].pingable <= bound)
  }

  function Scans<C>(events: seq<Event<C>>): nat
    decreases |events|
  {
    if events == [] then 0 else (if events[0].Check? then 1 else 0) + Scans(events[1..])
  }

  lemma StepWhileWaiting<C>(s: Schedule<C>, start: int, w: C, done: set<C>, first: int, e: Event<C>)
    requires Fair(s, start) && w in All(s) && Possible(s, e) && start <= e.time && first <= e.time
    requires e.CheckSelected? || (e.Check? && e.choice.Some?)
    requires s.last[w] < first && forall d :: d in done && d in s.last ==> s.last[d] >= first
    ensures var next, c := Step(s, e), Chosen(e).value;
            && Fair(next, e.time) && w in All(next) && (c != w ==> next.last[w] < first)
            && forall d :: d in done + {c} && d in next.last ==> next.last[d] >= first
  {
    StepKeepsFair(s, e, start);
  }

  lemma {:induction false} WaitEnds<C>(s: Schedule<C>, start: int, w: C, bound: set<C>, done: set<C>, first: int,
                                       events: seq<Event<C>>)
    requires Fair(s, start) && IsRun(s, start, events) && Later(start, events) && Pingable(w, bound, events)
    requires w in All(s) && w in bound && first <= start + 1 && s.last[w] < first
    requires forall d :: d in done && d in s.last ==> s.last[d] >= first
    requires Scans(events) >= |bound - done| && w !in done
    ensures w in Hits(events)
    decreases |events|
  {
    assert w in bound - done;
    if events == [] {
      SubsetSize({w}, bound - done);
    } else {
      var e, rest := events[0], events[1..];
      PingableTail(w, bound, events);
      StepWhileWaiting(s, start, w, done, first, e);
      var c := Chosen(e).value;
      hide Fair, Possible, Step, Pingable, All;
      if c != w {
        DoneGrows(bound, done, c);
        WaitEnds(Step(s, e), e.time, w, bound, done + {c}, first, rest);
      }
    }
  }

  lemma DoneGrows<C>(bound: set<C>, done: set<C>, c: C)
    ensures |bound - (done + {c})| <= |bound - done|
    ensures c in bound && c !in done ==> |bound - (done + {c})| == |bound - done| - 1
  {
    SubsetSize(bound - (done + {c}), bound - done);
    assert bound - (done + {c}) == bound - done - {c};
  }

  /**
   * With selected-first pings in between, nobody starves: a connection that may be pinged at every scan is pinged in
   * one of the two ways before as many scans are over as there are connections the scans may choose from.
   */
  lemma NoneStarves<C>(s: Schedule<C>, start: int, w: C, bound: set<C>, events: seq<Event<C>>)
    requires Fair(s, start) && IsRun(s, start, events) && Later(start, events) && Pingable(w, bound, events)
    requires w in All(s) && w in bound && Scans(events) >= |bound|
    ensures w in Hits(events)
  {
    assert bound - {} == bound;
    WaitEnds(s, start, w, bound, {}, start + 1, events);
  }

  lemma PingableTail<C>(w: C, bound: set<C>, events: seq<Event<C>>)
    requires events != [] && Pingable(w, bound, events)
    ensures Pingable(w, bound, events[1..])
  {
  }

  /** A step in front of a run. */
  lemma RunCons<C>(s: Schedule<C>, start: int, e: Event<C>, rest: seq<Event<C>>)
    requires Possible(s, e) && start <= e.time && IsRun(Step(s, e), e.time, rest)
    requires (Chosen(e).Some? ==> start < e.time) && Later(e.time, rest)
    ensures var all := [e] + rest;
            && IsRun(s, start, all) && Run(s, all) == Run(Step(s, e), rest) && Later(start, all)
            && Latest(start, all) == Latest(e.time, rest)
  {
    hide Possible, Step;
    assert ([e] + rest)[1..] == rest;
  }

}
