/** How many transports' states become one: the counting cascades of the ICE agent and the transport controller. */
module StateAggregation {
  import opened IceTransportChannels

  datatype DtlsState = DtlsNew | DtlsConnecting | DtlsConnected | DtlsClosed | DtlsFailed

  datatype PcState = PcNew | PcConnecting | PcConnected | PcDisconnected | PcFailed | PcClosed

  // ---- Counting ---------------------------------------------------------------------------------------

  function Count<S(==)>(s: seq<S>, x: S): nat {
    if s == [] then 0 else Count(s[..|s| - 1], x) + if s[|s| - 1] == x then 1 else 0
  }

  function CountIn<S(==)>(s: seq<S>, xs: set<S>): nat {
    if s == [] then 0 else CountIn(s[..|s| - 1], xs) + if s[|s| - 1] in xs then 1 else 0
  }

  predicate Some<S(==)>(s: seq<S>, xs: set<S>) {
    exists i :: 0 <= i < |s| && s[i] in xs
  }

  predicate All<S(==)>(s: seq<S>, xs: set<S>) {
    forall i :: 0 <= i < |s| ==> s[i] in xs
  }

  lemma {:induction false} CountInMeans<S>(s: seq<S>, xs: set<S>)
    ensures CountIn(s, xs) <= |s|
    ensures CountIn(s, xs) > 0 <==> Some(s, xs)
    ensures CountIn(s, xs) == |s| <==> All(s, xs)
  {
    if s != [] {
      var last := |s| - 1;
      CountInMeans(s[..last], xs);
      assert forall i :: 0 <= i < last ==> s[..last][i] == s[i];
      assert Some(s, xs) <==> Some(s[..last], xs) || s[last] in xs;
      assert All(s, xs) <==> All(s[..last], xs) && s[last] in xs;
    }
  }

  lemma {:induction false} CountInAdds<S>(s: seq<S>, x: S, xs: set<S>)
    requires x !in xs
    ensures CountIn(s, {x} + xs) == Count(s, x) + CountIn(s, xs)
  {
    if s != [] {
      CountInAdds(s[..|s| - 1], x, xs);
    }
  }

  lemma {:induction false} CountInNothing<S>(s: seq<S>)
    ensures CountIn(s, {}) == 0
  {
    if s != [] {
      CountInNothing(s[..|s| - 1]);
    }
  }

  lemma Count1<S>(s: seq<S>, a: S)
    ensures Count(s, a) > 0 <==> Some(s, {a})
  {
    CountInNothing(s);
    CountInAdds(s, a, {});
    assert {a} + {} == {a};
    CountInMeans(s, {a});
  }

  lemma Count2<S>(s: seq<S>, a: S, b: S)
    requires a != b
    ensures Count(s, a) + Count(s, b) <= |s|
    ensures Count(s, a) + Count(s, b) == |s| <==> All(s, {a, b})
    ensures Count(s, a) + Count(s, b) > 0 <==> Some(s, {a, b})
  {
    CountInNothing(s);
    CountInAdds(s, b, {});
    assert {b} + {} == {b};
    CountInAdds(s, a, {b});
    assert {a} + {b} == {a, b};
    CountInMeans(s, {a, b});
  }

  lemma Count3<S>(s: seq<S>, a: S, b: S, c: S)
    requires a != b && a != c && b != c
    ensures Count(s, a) + Count(s, b) + Count(s, c) == |s| <==> All(s, {a, b, c})
  {
    CountInNothing(s);
    CountInAdds(s, c, {});
    assert {c} + {} == {c};
    CountInAdds(s, b, {c});
    assert {b} + {c} == {b, c};
    CountInAdds(s, a, {b, c});
    assert {a} + {b, c} == {a, b, c};
    CountInMeans(s, {a, b, c});
  }

  /** The count map the sources fill; a missing key counts as zero. */
  function Get<S>(counts: map<S, nat>, x: S): nat {
    if x in counts then counts[x] else 0
  }

  method CountStates<S(==,!new)>(s: seq<S>) returns (counts: map<S, nat>)
    ensures forall x :: Get(counts, x) == Count(s, x)
  {
    counts := map[];
    for i := 0 to |s|
      invariant forall x :: Get(counts, x) == Count(s[..i], x)
    {
      assert s[..i + 1][..i] == s[..i];
      counts := counts[s[i] := Get(counts, s[i]) + 1];
    }
    assert s[..|s|] == s;
  }

  // ---- The ICE agent ------------------------------------------------------------------------------------

  /** The precedence, in terms of the channels themselves. */
  function IceAggregate(channels: seq<TransportState>): TransportState {
    if Some(channels, {Failed}) then Failed
    else if Some(channels, {Disconnected}) then Disconnected
    else if All(channels, {New, Closed}) then New
    else if Some(channels, {New, Checking}) then Checking
    else if All(channels, {Completed, Closed}) then Completed
    else Connected
  }

  /** The final test of the cascade is never false when it is reached, so the default is never kept by accident. */
  lemma LastCaseIsCertain(channels: seq<TransportState>)
    requires !Some(channels, {Failed}) && !Some(channels, {Disconnected}) && !Some(channels, {New, Checking})
    ensures All(channels, {Connected, Completed, Closed})
  {
    forall i | 0 <= i < |channels|
      ensures channels[i] in {Connected, Completed, Closed}
    {
      var c := channels[i];
      assert c !in {Failed} && c !in {Disconnected} && c !in {New, Checking};
      assert !c.Failed? && !c.Disconnected? && !c.New? && !c.Checking?;
    }
  }

  /** Each state of the agent, said of the channels alone. */
  lemma AgentStateMeans(channels: seq<TransportState>)
    ensures var a := IceAggregate(channels);
            && (a == Failed <==> Failed in channels)
            && (a == Disconnected <==> Failed !in channels && Disconnected in channels)
            && (a == New <==> forall s :: s in channels ==> s.New? || s.Closed?)
            && (a == Completed <==> Completed in channels && forall s :: s in channels ==> s.Completed? || s.Closed?)
            && (a == Connected <==> Connected in channels
                                    && forall s :: s in channels ==> s.Connected? || s.Completed? || s.Closed?)
            && a != Closed
  {
    SomeMeans(channels, {Failed});
    SomeMeans(channels, {Disconnected});
    SomeMeans(channels, {New, Checking});
    SomeMeans(channels, {New, Closed});
    SomeMeans(channels, {Completed, Closed});
    hide Some, All;
  }

  lemma SomeMeans<S>(s: seq<S>, xs: set<S>)
    ensures Some(s, xs) <==> exists x :: x in s && x in xs
    ensures All(s, xs) <==> forall x :: x in s ==> x in xs
  {
  }

  /** The cascade over the counts, with the default it starts from. */
  method ComputeIceState(channels: seq<TransportState>) returns (state: TransportState)
    ensures state == IceAggregate(channels)
  {
    hide Count, Some, All;
    var counts := CountStates(channels);
    Count1(channels, Failed);
    Count1(channels, Disconnected);
    Count2(channels, New, Closed);
    Count2(channels, New, Checking);
    Count2(channels, Completed, Closed);
    Count3(channels, Connected, Completed, Closed);
    state := New;
    if Get(counts, Failed) > 0 {
      state := Failed;
    } else if Get(counts, Disconnected) > 0 {
      state := Disconnected;
    } else if Get(counts, New) + Get(counts, Closed) == |channels| {
      state := New;
    } else if Get(counts, New) + Get(counts, Checking) > 0 {
      state := Checking;
    } else if Get(counts, Completed) + Get(counts, Closed) == |channels| {
      state := Completed;
    } else if Get(counts, Connected) + Get(counts, Completed) + Get(counts, Closed) == |channels| {
      state := Connected;
    } else {
      LastCaseIsCertain(channels);
      assert false;
    }
  }

  /** What an update announces: a jump from checking to completed passes through connected. */
  function Announced(before: TransportState, now: TransportState): seq<TransportState> {
    if before == now then []
    else if before == Checking && now == Completed then [Connected, Completed]
    else [now]
  }

  class IceAgent {
    var channels: seq<TransportState>
    var iceState: TransportState

    method UpdateState() returns (signals: seq<TransportState>)
      modifies `iceState
      ensures iceState == IceAggregate(channels)
      ensures signals == Announced(old(iceState), iceState)
    {
      signals := [];
      var state := ComputeIceState(channels);
      if iceState != state {
        if iceState == Checking && state == Completed {
          signals := [Connected];
        }
        iceState := state;
        signals := signals + [iceState];
      }
    }
  }

  /** All that is announced while the channels go through `updates`. */
  function Announcements(start: TransportState, updates: seq<seq<TransportState>>): seq<TransportState>
    decreases |updates|
  {
    if updates == [] then []
    else Announced(start, IceAggregate(updates[0])) + Announcements(IceAggregate(updates[0]), updates[1..])
  }

  predicate NeverRepeatsNorJumps(a: seq<TransportState>) {
    forall i :: 0 <= i < |a| - 1 ==> a[i] != a[i + 1] && !(a[i] == Checking && a[i + 1] == Completed)
  }

  lemma PrependKeeps(x: TransportState, a: seq<TransportState>)
    requires NeverRepeatsNorJumps(a) && a != [] && x != a[0] && !(x == Checking && a[0] == Completed)
    ensures NeverRepeatsNorJumps([x] + a)
  {
    assert forall i :: 0 < i < |[x] + a| ==> ([x] + a)[i] == a[i - 1];
  }

  lemma OneAnnouncement(start: TransportState, now: TransportState, tail: seq<TransportState>)
    requires NeverRepeatsNorJumps([now] + tail)
    ensures NeverRepeatsNorJumps([start] + (Announced(start, now) + tail))
  {
    hide NeverRepeatsNorJumps;
    if start == now {
      assert [start] + ([] + tail) == [now] + tail;
    } else if start == Checking && now == Completed {
      PrependKeeps(Connected, [now] + tail);
      PrependKeeps(start, [Connected] + ([now] + tail));
      assert [start] + ([Connected, Completed] + tail) == [start] + ([Connected] + ([now] + tail));
    } else {
      PrependKeeps(start, [now] + tail);
      assert [start] + ([now] + tail) == [start] + (Announced(start, now) + tail);
    }
  }

  /**
   * Over any run the announcements differ from one to the next, never jump from checking to completed, and end at the
   * current state.
   */
  lemma {:induction false} AnnouncementsStep(start: TransportState, updates: seq<seq<TransportState>>)
    ensures NeverRepeatsNorJumps([start] + Announcements(start, updates))
    ensures var a := [start] + Announcements(start, updates);
            a[|a| - 1] == if updates == [] then start else IceAggregate(updates[|updates| - 1])
    decreases |updates|
  {
    if updates != [] {
      var now := IceAggregate(updates[0]);
      AnnouncementsStep(now, updates[1..]);
      OneAnnouncement(start, now, Announcements(now, updates[1..]));
      hide NeverRepeatsNorJumps, IceAggregate;
    }
  }

  // ---- The transport controller ---------------------------------------------------------------------------

  /** The precedence, in terms of the DTLS transports and their ICE channels. */
  function PcAggregate(dtls: seq<DtlsState>, ice: seq<TransportState>): PcState {
    if Some(dtls, {DtlsFailed}) || Some(ice, {Failed}) then PcFailed
    else if Some(ice, {Disconnected}) then PcDisconnected
    else if All(dtls, {DtlsNew, DtlsClosed}) && All(ice, {New, Closed}) then PcNew
    else if Some(dtls, {DtlsNew, DtlsConnecting}) || Some(ice, {New, Checking}) then PcConnecting
    else PcConnected
  }

  /** Connected exactly when every DTLS transport and every ICE channel is connected or past it, and not all closed. */
  lemma ConnectedMeans(dtls: seq<DtlsState>, ice: seq<TransportState>)
    requires |dtls| == |ice|
    ensures PcAggregate(dtls, ice) == PcConnected <==>
            && All(dtls, {DtlsConnected, DtlsClosed})
            && All(ice, {Connected, Completed, Closed})
            && !(All(dtls, {DtlsClosed}) && All(ice, {Closed}))
  {
    if PcAggregate(dtls, ice) == PcConnected {
      LastCaseIsCertain(ice);
      LastDtlsCaseIsCertain(dtls);
    }
    if All(dtls, {DtlsConnected, DtlsClosed}) && All(ice, {Connected, Completed, Closed}) {
      assert forall i :: 0 <= i < |dtls| ==> dtls[i] in {DtlsConnected, DtlsClosed};
      assert forall i :: 0 <= i < |ice| ==> ice[i] in {Connected, Completed, Closed};
      if All(dtls, {DtlsNew, DtlsClosed}) && All(ice, {New, Closed}) {
        assert forall i :: 0 <= i < |dtls| ==> dtls[i] in {DtlsNew, DtlsClosed};
        assert forall i :: 0 <= i < |ice| ==> ice[i] in {New, Closed};
        assert All(dtls, {DtlsClosed}) && All(ice, {Closed});
      }
    }
  }

  /** The states before connected, said of the transports alone. */
  lemma ControllerStateMeans(dtls: seq<DtlsState>, ice: seq<TransportState>)
    ensures var p := PcAggregate(dtls, ice);
            && (p == PcFailed <==> DtlsFailed in dtls || Failed in ice)
            && (p == PcDisconnected <==> DtlsFailed !in dtls && Failed !in ice && Disconnected in ice)
            && (p == PcNew <==> && (forall d :: d in dtls ==> d.DtlsNew? || d.DtlsClosed?)
                                && (forall s :: s in ice ==> s.New? || s.Closed?))
            && p != PcClosed
  {
    SomeMeans(dtls, {DtlsFailed});
    SomeMeans(dtls, {DtlsNew, DtlsClosed});
    SomeMeans(ice, {Failed});
    SomeMeans(ice, {Disconnected});
    SomeMeans(ice, {New, Closed});
    hide Some, All;
  }

  lemma LastDtlsCaseIsCertain(dtls: seq<DtlsState>)
    requires !Some(dtls, {DtlsFailed}) && !Some(dtls, {DtlsNew, DtlsConnecting})
    ensures All(dtls, {DtlsConnected, DtlsClosed})
  {
    forall i | 0 <= i < |dtls|
      ensures dtls[i] in {DtlsConnected, DtlsClosed}
    {
      var d := dtls[i];
      assert d !in {DtlsFailed} && d !in {DtlsNew, DtlsConnecting};
      assert !d.DtlsFailed? && !d.DtlsNew? && !d.DtlsConnecting?;
    }
  }

  /**
   * A connected peer connection has an agent that is connected or completed, unless all the agent's channels are
   * closed: whatever channels the agent has, as long as each state among them is one the controller sees.
   */
  lemma ConnectedImpliesAgent(dtls: seq<DtlsState>, ice: seq<TransportState>, channels: seq<TransportState>)
    requires |dtls| == |ice| && PcAggregate(dtls, ice) == PcConnected
    requires forall i :: 0 <= i < |channels| ==> channels[i] in ice
    ensures IceAggregate(channels) in {Connected, Completed}
            || (IceAggregate(channels) == New && All(channels, {Closed}))
  {
    ConnectedMeans(dtls, ice);
    assert forall i :: 0 <= i < |ice| ==> ice[i] in {Connected, Completed, Closed};
    assert forall i :: 0 <= i < |channels| ==> channels[i] in {Connected, Completed, Closed};
    if All(channels, {New, Closed}) {
      assert forall i :: 0 <= i < |channels| ==> channels[i] in {New, Closed};
    }
  }

  class TransportController {
    var dtls: seq<DtlsState>
    var ice: seq<TransportState>
    var pcState: PcState

    /** Whether the new state is announced. */
    method UpdateState() returns (changed: bool)
      requires |dtls| == |ice|
      modifies `pcState
      ensures pcState == PcAggregate(dtls, ice)
      ensures changed <==> pcState != old(pcState)
    {
      var state := ComputePcState();
      changed := pcState != state;
      pcState := state;
    }

    method ComputePcState() returns (state: PcState)
      requires |dtls| == |ice|
      ensures state == PcAggregate(dtls, ice)
    {
      hide Count, Some, All;
      var d := CountStates(dtls);
      var c := CountStates(ice);
      Count1(dtls, DtlsFailed);
      Count2(dtls, DtlsNew, DtlsClosed);
      Count2(dtls, DtlsNew, DtlsConnecting);
      Count2(dtls, DtlsConnected, DtlsClosed);
      Count1(ice, Failed);
      Count1(ice, Disconnected);
      Count2(ice, New, Closed);
      Count2(ice, New, Checking);
      Count3(ice, Connected, Completed, Closed);
      var totalConnected := Get(d, DtlsConnected) + Get(c, Connected);
      var totalFailed := Get(d, DtlsFailed) + Get(c, Failed);
      var totalClosed := Get(d, DtlsClosed) + Get(c, Closed);
      var totalNew := Get(d, DtlsNew) + Get(c, New);
      var total := |dtls| * 2;
      state := PcNew;
      if totalFailed > 0 {
        state := PcFailed;
      } else if Get(c, Disconnected) > 0 {
        state := PcDisconnected;
      } else if totalNew + totalClosed == total {
        state := PcNew;
      } else if Get(c, Checking) + Get(d, DtlsConnecting) + totalNew > 0 {
        state := PcConnecting;
      } else if totalConnected + Get(c, Completed) + totalClosed == total {
        state := PcConnected;
      } else {
        LastCaseIsCertain(ice);
        LastDtlsCaseIsCertain(dtls);
        assert false;
      }
    }
  }
}
