/**
 * The controller of a channel: which connection to ping next, which one to use, and in which order all are kept.
 */
module IceControllers {
  import opened Octets
  import opened IceConnections
  import opened Priorities
  import P = PingScheduling
  import S = Selection

  const WEAK_PING_INTERVAL: int := 48
  const STRONG_PING_INTERVAL: int := 480
  const STABLING_PING_INTERVAL: int := 900
  const STABLE_PING_INTERVAL: int := 2500
  const MIN_PINGS_AT_WEAK: nat := 3

  function ToSet<C(==)>(s: seq<C>): set<C> {
    set c | c in s
  }

  function ToOption(c: IceConnection?): Option<IceConnection> {
    if c == null then None else Some(c)
  }

  function SortKey(c: IceConnection): S.Key
    reads c
  {
    S.Key(Rank(c.writeState), c.receiving, c.Priority(), c.rtt)
  }

  predicate Outranks(a: WriteState, b: WriteState) {
    match a
    case Writable => b != Writable
    case WriteUnreliable => b == WriteInit || b == WriteTimeout
    case WriteInit => b == WriteTimeout
    case WriteTimeout => false
  }

  /** The better write state first, then what receives, then the higher priority, then the shorter round trip. */
  predicate ComesBefore(a: IceConnection, b: IceConnection)
    reads a`writeState, a`receiving, a`rtt, b`writeState, b`receiving, b`rtt
  {
    var p: int, q: int :=
      PairPriority(a.localPriority, a.remotePriority), PairPriority(b.localPriority, b.remotePriority);
    || Outranks(a.writeState, b.writeState)
    || (a.writeState == b.writeState && a.receiving && !b.receiving)
    || (a.writeState == b.writeState && a.receiving == b.receiving && p > q)
    || (a.writeState == b.writeState && a.receiving == b.receiving && p == q && a.rtt < b.rtt)
  }

  predicate BestFirst(s: seq<IceConnection>)
    reads s`writeState, s`receiving, s`rtt
  {
    forall i, j :: 0 <= i < j < |s| ==> !ComesBefore(s[j], s[i])
  }

  /** The first of the list takes over when it can carry data and is at least 10 ms faster than the selected, if any. */
  predicate TakesOver(s: seq<IceConnection>, selected: IceConnection?)
    reads s`writeState, s`rtt, selected
  {
    && s != [] && s[0] != selected
    && (s[0].writeState == Writable || s[0].writeState == WriteUnreliable)
    && (selected == null || s[0].rtt + 10 <= selected.rtt)
  }

  lemma KeysOrderFields(a: IceConnection, b: IceConnection)
    ensures S.Before(SortKey(a), SortKey(b)) <==> ComesBefore(a, b)
  {
  }

  /** A first pair that hears nothing leads a list in which none of its write state hears anything. */
  lemma DeafLeadsTheDeaf(s: seq<IceConnection>)
    requires BestFirst(s) && s != []
    ensures forall c :: c in s && c.writeState == s[0].writeState && c.receiving ==> s[0].receiving
  {
  }

  /** How long a connection rests between pings under a strong selection. */
  function LeastWait(c: IceConnection, now: int): int
    reads c
  {
    if c.numPings < MIN_PINGS_AT_WEAK then WEAK_PING_INTERVAL
    else if IsStable(c.Value(), now) then STABLE_PING_INTERVAL
    else STABLING_PING_INTERVAL
  }

  /** When each was last pinged. */
  ghost function Times(s: seq<IceConnection>): map<IceConnection, int>
    reads s`lastPingSent
  {
    map c | c in s :: c.lastPingSent
  }

  lemma TimesMinus(s: seq<IceConnection>, t: seq<IceConnection>, c: IceConnection)
    requires forall d :: d in t <==> d in s && d != c
    ensures Times(t) == Times(s) - {c} && ToSet(t) == ToSet(s) - {c}
  {
  }

  class IceController {
    var selected: IceConnection?
    var connections: seq<IceConnection>
    var unpinged: set<IceConnection>
    var pinged: set<IceConnection>

    constructor ()
      ensures Valid() && selected == null && connections == []
      ensures Schedule() == P.Schedule({}, {}, map[])
    {
      selected, connections, unpinged, pinged := null, [], {}, {};
    }

    function Members(): set<IceConnection>
      reads `connections
    {
      ToSet(connections)
    }

    ghost predicate Valid()
      reads `connections, `unpinged, `pinged
    {
      && Distinct(connections)
      && Members() == unpinged + pinged && unpinged !! pinged
    }

    /** The scheduler this controller implements. */
    ghost function Schedule(): P.Schedule<IceConnection>
      reads `connections, `unpinged, `pinged, connections`lastPingSent
    {
      P.Schedule(unpinged, pinged, Times(connections))
    }

    predicate Weak()
      reads `selected, selected
    {
      selected == null || selected.Weak()
    }

    function PingInterval(c: IceConnection, now: int): int
      reads `selected, selected, c
    {
      if c.numPings < MIN_PINGS_AT_WEAK then WEAK_PING_INTERVAL
      else if Weak() || !IsStable(c.Value(), now) then STABLING_PING_INTERVAL
      else STABLE_PING_INTERVAL
    }

    predicate PastInterval(c: IceConnection, now: int)
      reads `selected, selected, c
    {
      now >= c.lastPingSent + PingInterval(c, now)
    }

    predicate IsPingable(c: IceConnection, now: int)
      reads `selected, selected, c
    {
      c.Credentialed() && (Weak() || PastInterval(c, now))
    }

    ghost function Pingable(now: int): set<IceConnection>
      reads `selected, `connections, selected, connections
    {
      set c | c in connections && IsPingable(c, now)
    }

    predicate SelectedFirst(now: int)
      reads `selected, selected
    {
      selected != null && selected.Writes() && PastInterval(selected, now)
    }

    /**
     * What is due, over the fields: unless the selected pair writes and receives, everything with credentials;
     * otherwise what has rested 48 ms in its first three pings, and afterwards 2.5 seconds when stable and 0.9 when
     * not. The selected pair goes first when it writes and has rested as long, or 0.9 seconds if it does not receive.
     * More pings are needed while some pair had fewer than three.
     */
    lemma DueMeans(c: IceConnection, now: int)
      ensures var strong := selected != null && selected.writeState == Writable && selected.receiving;
              IsPingable(c, now) <==>
              && c.remoteUfrag != "" && c.remotePwd != ""
              && (strong ==> now - c.lastPingSent >=
                             if c.numPings < 3 then 48 else if IsStable(c.Value(), now) then 2500 else 900)
      ensures selected != null ==>
                (SelectedFirst(now) <==>
                 && selected.writeState == Writable
                 && now - selected.lastPingSent >=
                    if selected.numPings < 3 then 48
                    else if selected.receiving && IsStable(selected.Value(), now) then 2500 else 900)
      ensures selected == null ==> !SelectedFirst(now)
      ensures NeedsMorePings() <==> exists i :: 0 <= i < |connections| && connections[i].numPings < 3
    {
      hide IsStable;
    }

    /** Fewer than three pings went out on some connection. */
    predicate NeedsMorePings()
      reads `connections, connections`numPings
    {
      exists c :: c in Members() && c.numPings < MIN_PINGS_AT_WEAK
    }

    function Keys(): (keys: map<IceConnection, S.Key>)
      reads `selected, `connections, selected, connections
    {
      map c | c in Members() + (if selected == null then {} else {selected}) :: SortKey(c)
    }

    method AddConnection(c: IceConnection)
      requires Valid() && c !in connections && c.lastPingSent == 0
      modifies `connections, `unpinged
      ensures Valid() && connections == old(connections) + [c]
      ensures Schedule() == P.Added(old(Schedule()), c)
    {
      connections := connections + [c];
      unpinged := unpinged + {c};
      assert Members() == old(Members()) + {c};
    }

    method OnConnectionDestroyed(c: IceConnection)
      requires Valid()
      modifies `connections, `unpinged, `pinged
      ensures Valid() && Members() == old(Members()) - {c}
      ensures connections == Without(old(connections), c)
      ensures Schedule() == P.Removed(old(Schedule()), c)
      ensures selected == c ==> Keys() == old(Keys())
    {
      hide Keys, SortKey, Schedule;
      Forget(c);
      KeysSurvive(c);
    }

    method Forget(c: IceConnection)
      requires Valid()
      modifies `connections, `unpinged, `pinged
      ensures Valid() && Members() == old(Members()) - {c}
      ensures connections == Without(old(connections), c)
      ensures Schedule() == P.Removed(old(Schedule()), c)
    {
      hide Times, Distinct;
      var rest := EraseFirst(connections, c);
      WithoutRemoves(connections, c);
      TimesMinus(connections, rest, c);
      ghost var times := Times(rest);
      pinged := pinged - {c};
      unpinged := unpinged - {c};
      connections := rest;
      assert Times(connections) == times;
    }

    /** The keys still cover the connection that only the selected pointer refers to. */
    twostate lemma KeysSurvive(c: IceConnection)
      requires selected == old(selected) && Members() == old(Members()) - {c}
      requires forall d: IceConnection :: d in old(Members()) + {c} ==> SortKey(d) == old(SortKey(d))
      ensures selected == c ==> Keys() == old(Keys())
    {
      if selected == c {
        assert Members() + {c} == old(Members()) + {c};
      }
    }

    method HasPingableConnection(now: int) returns (found: bool)
      ensures found <==> Pingable(now) != {}
    {
      found := false;
      for i := 0 to |connections|
        invariant forall j :: 0 <= j < i ==> !IsPingable(connections[j], now)
      {
        if IsPingable(connections[i], now) {
          assert connections[i] in Pingable(now);
          return true;
        }
      }
      assert Pingable(now) == {};
    }

    /**
     * The selected connection when it is due; otherwise a least recently pinged one of the pingable unpinged,
     * after refilling the unpinged set when it holds none.
     */
    method FindNextPingable(now: int) returns (found: IceConnection?)
      requires Valid()
      modifies `unpinged, `pinged
      ensures Valid()
      ensures SelectedFirst(now) ==> found == selected && Schedule() == old(Schedule())
      ensures !SelectedFirst(now) ==>
                && Schedule() == P.Refilled(old(Schedule()), Pingable(now))
                && P.Picks(Schedule(), Pingable(now), ToOption(found))
      ensures found != null && !Weak() ==> now - found.lastPingSent >= LeastWait(found, now)
    {
      if selected != null && selected.Writes() && PastInterval(selected, now) {
        return selected;
      }
      hide P.Refilled, P.Picks, Schedule, Pingable, IsPingable;
      Refill(now);
      found := ScanUnpinged(now);
    }

    method Refill(now: int)
      requires Valid()
      modifies `unpinged, `pinged
      ensures Valid()
      ensures Schedule() == P.Refilled(old(Schedule()), Pingable(now))
    {
      hide IsPingable;
      var hasPingable := AnyPingable(unpinged, now);
      if !hasPingable {
        unpinged := unpinged + pinged;
        pinged := {};
      }
    }

    /** A strictly earlier ping displaces the one found so far. */
    method ScanUnpinged(now: int) returns (found: IceConnection?)
      requires Valid()
      ensures P.Picks(Schedule(), Pingable(now), ToOption(found))
    {
      found := null;
      var rest := unpinged;
      while rest != {}
        invariant rest <= unpinged
        invariant found != null ==> found in unpinged && IsPingable(found, now)
        invariant forall c :: c in unpinged && c !in rest && IsPingable(c, now) ==>
                    found != null && found.lastPingSent <= c.lastPingSent
        decreases |rest|
      {
        var c :| c in rest;
        rest := rest - {c};
        if IsPingable(c, now) {
          if found == null || c.lastPingSent < found.lastPingSent {
            found := c;
          }
        }
      }
      assert forall c :: c in unpinged ==> c in Members();
    }

    method AnyPingable(s: set<IceConnection>, now: int) returns (any: bool)
      requires s <= Members()
      ensures any <==> !(s !! Pingable(now))
    {
      any := false;
      var rest := s;
      while rest != {}
        invariant rest <= s
        invariant forall c :: c in s - rest ==> !IsPingable(c, now)
        decreases |rest|
      {
        var c :| c in rest;
        rest := rest - {c};
        if IsPingable(c, now) {
          assert c in s && c in Pingable(now);
          return true;
        }
      }
    }

    method SelectConnectionToPing(lastPingSentMs: int, now: int) returns (found: IceConnection?, interval: int)
      requires Valid()
      modifies `unpinged, `pinged
      ensures Valid()
      ensures interval == if Weak() || NeedsMorePings() then WEAK_PING_INTERVAL else STRONG_PING_INTERVAL
      ensures now < lastPingSentMs + interval ==> found == null && Schedule() == old(Schedule())
      ensures now >= lastPingSentMs + interval && SelectedFirst(now) ==>
                found == selected && Schedule() == old(Schedule())
      ensures now >= lastPingSentMs + interval && !SelectedFirst(now) ==>
                && Schedule() == P.Refilled(old(Schedule()), Pingable(now))
                && P.Picks(Schedule(), Pingable(now), ToOption(found))
      ensures found != null && !Weak() ==> now - found.lastPingSent >= LeastWait(found, now)
    {
      var needMore := false;
      for i := 0 to |connections|
        invariant !needMore
        invariant forall j :: 0 <= j < i ==> connections[j].numPings >= MIN_PINGS_AT_WEAK
      {
        if connections[i].numPings < MIN_PINGS_AT_WEAK {
          assert connections[i] in Members();
          needMore := true;
          break;
        }
      }
      interval := if Weak() || needMore then WEAK_PING_INTERVAL else STRONG_PING_INTERVAL;
      found := null;
      if now >= lastPingSentMs + interval {
        found := FindNextPingable(now);
      }
    }

    /** Marking after the ping completes the scheduler's step. */
    method MarkConnectionPinged(c: IceConnection)
      requires Valid() && c in connections
      modifies `unpinged, `pinged
      ensures Valid()
      ensures Schedule() == P.Marked(old(Schedule()), c, c.lastPingSent)
    {
      if c !in pinged {
        pinged := pinged + {c};
        unpinged := unpinged - {c};
      }
    }

    /** Sorts the connections in place; the result is the one to switch to, if any. */
    method SortAndSwitch() returns (top: IceConnection?)
      requires Valid()
      modifies `connections
      ensures Valid() && Members() == old(Members()) && Keys() == old(Keys()) && Schedule() == old(Schedule())
      ensures S.Keyed(old(connections), Keys()) && connections == S.StableSort(old(connections), Keys())
      ensures S.Keyed(connections, Keys()) && ToOption(top) == S.SwitchTo(connections, ToOption(selected), Keys())
      ensures BestFirst(connections) && top == if TakesOver(connections, selected) then connections[0] else null
      ensures top != null ==>
                forall c :: c in connections && c.writeState == top.writeState && c.receiving ==> top.receiving
    {
      hide *;
      SortConnections();
      SortedIsBestFirst(old(connections));
      top := JudgeTop();
      if top != null {
        TopIsMember();
        DeafLeadsTheDeaf(connections);
      }
    }

    lemma TopIsMember()
      ensures TakesOver(connections, selected) ==> connections != []
    {
    }

    method SortConnections()
      requires Valid()
      modifies `connections
      ensures Valid() && Members() == old(Members()) && Keys() == old(Keys()) && Schedule() == old(Schedule())
      ensures S.Keyed(old(connections), Keys()) && connections == S.StableSort(old(connections), Keys())
    {
      hide S.StableSort;
      connections := S.StableSort(connections, Keys());
      SortedKeepsMembers(old(connections), connections);
    }

    lemma SortedIsBestFirst(before: seq<IceConnection>)
      requires S.Keyed(before, Keys()) && connections == S.StableSort(before, Keys())
      ensures BestFirst(connections)
    {
      hide S.StableSort, S.Class, S.Before, ComesBefore;
      S.StableSortIsStable(before, Keys());
      forall i, j | 0 <= i < j < |connections|
        ensures !ComesBefore(connections[j], connections[i])
      {
        KeysOrderFields(connections[j], connections[i]);
      }
    }

    method JudgeTop() returns (top: IceConnection?)
      ensures S.Keyed(connections, Keys()) && ToOption(top) == S.SwitchTo(connections, ToOption(selected), Keys())
      ensures top == if TakesOver(connections, selected) then connections[0] else null
    {
      assert forall i :: 0 <= i < |connections| ==> connections[i] in Members();
      top := if connections == [] then null else connections[0];
      if top == null || !(top.Writes() || top.writeState == WriteUnreliable) || selected == top {
        return null;
      }
      if selected == null {
        return top;
      }
      if top.rtt <= selected.rtt - S.MIN_IMPROVEMENT {
        return top;
      }
      return null;
    }
  }

  /** A permutation of distinct elements is distinct and has the same members. */
  lemma SortedKeepsMembers<C>(s: seq<C>, t: seq<C>)
    requires multiset(s) == multiset(t)
    ensures ToSet(s) == ToSet(t)
    ensures Distinct(s) ==> Distinct(t)
  {
    assert forall x :: x in s <==> x in multiset(s);
    assert forall x :: x in t <==> x in multiset(t);
    if Distinct(s) {
      forall j, k | 0 <= j < k < |t|
        ensures t[j] != t[k]
      {
        CountTwice(t, j, k);
        CountOnce(s, t[k]);
      }
    }
  }

  lemma CountTwice<C>(t: seq<C>, j: nat, k: nat)
    requires j < k < |t|
    ensures t[j] == t[k] ==> multiset(t)[t[k]] >= 2
  {
    assert t == t[..k] + t[k..];
    assert t[j] in t[..k] && t[k] in t[k..];
    assert multiset(t) == multiset(t[..k]) + multiset(t[k..]);
    assert t[j] in multiset(t[..k]) && t[k] in multiset(t[k..]);
  }

  lemma {:induction false} CountOnce<C>(s: seq<C>, x: C)
    requires Distinct(s)
    ensures multiset(s)[x] <= 1
  {
    if s != [] {
      assert s == [s[0]] + s[1..];
      CountOnce(s[1..], x);
      assert multiset(s) == multiset([s[0]]) + multiset(s[1..]);
      if x == s[0] {
        assert x !in s[1..];
        assert x !in multiset(s[1..]);
      }
    }
  }

  /** The list without the first occurrence. */
  function Without<C(==)>(s: seq<C>, c: C): (t: seq<C>)
  {
    if s == [] then [] else if s[0] == c then s[1..] else [s[0]] + Without(s[1..], c)
  }

  method EraseFirst<C(==)>(s: seq<C>, c: C) returns (t: seq<C>)
    ensures t == Without(s, c)
  {
    var i := 0;
    while i < |s| && s[i] != c
      invariant i <= |s|
      invariant Without(s, c) == s[..i] + Without(s[i..], c)
    {
      i := i + 1;
    }
    if i < |s| {
      assert s[i..][1..] == s[i + 1..];
      t := s[..i] + s[i + 1..];
    } else {
      t := s;
    }
  }

  predicate Distinct<C(==)>(s: seq<C>) {
    forall i, j :: 0 <= i < j < |s| ==> s[i] != s[j]
  }

  lemma DistinctCons<C>(x: C, s: seq<C>)
    ensures Distinct([x] + s) <==> Distinct(s) && x !in s
  {
    var t := [x] + s;
    if Distinct(t) {
      forall i, j | 0 <= i < j < |s|
        ensures s[i] != s[j] && x != s[j]
      {
        assert t[i + 1] != t[j + 1] && t[0] != t[j + 1];
      }
      assert forall j :: 0 <= j < |s| ==> s[j] == t[j + 1] && t[0] != t[j + 1];
    } else {
      var i, j :| 0 <= i < j < |t| && t[i] == t[j];
      assert t[j] == s[j - 1];
    }
  }

  lemma {:induction false} WithoutRemoves<C>(s: seq<C>, c: C)
    requires Distinct(s)
    ensures Distinct(Without(s, c))
    ensures forall x :: x in Without(s, c) <==> x in s && x != c
  {
    assert |s| <= 1 ==> Distinct(s);
    hide Distinct;
    if s != [] {
      var rest := s[1..];
      assert s == [s[0]] + rest;
      DistinctCons(s[0], rest);
      WithoutRemoves(rest, c);
      DistinctCons(s[0], Without(rest, c));
    }
  }

  lemma {:induction false} WithoutKeeps<C>(s: seq<C>, c: C, i: nat)
    requires i < |Without(s, c)|
    ensures Without(s, c)[i] in s
  {
    if s != [] && s[0] != c && i > 0 {
      WithoutKeeps(s[1..], c, i - 1);
    }
  }
}
