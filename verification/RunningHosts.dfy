/**
 The hosts as they run, within the system. A send may fail, and then only some of a step's packets reach the network;
 such runs are those of the system with fewer packets around, and keep all its promises.
 */
module RunningHosts {
  import opened Options
  import opened KeyRanges
  import opened SingleDelivery
  import opened HostProtocol
  import opened ShardedStore
  import opened ShardedStoreTheorems
  import opened ShardedStoreReplies
  import opened NetClients
  import opened HostImpl

  function EventPackets(e: Event): set<Packet> {
    match e
    case HostStep(_, ios) => SentPackets(ios)
    case ClientSend(p) => {p}
  }

  /** A step of the system after which the network may lack any packets, new or old. */
  ghost predicate LossyNext(s: State, s': State, e: Event) {
    && s'.network <= s.network + EventPackets(e)
    && SystemNext(s, State(s'.hosts, s.network + EventPackets(e)), e)
  }

  /** What a step does, it also does with more packets around. */
  lemma MorePacketsDoNoHarm(s: State, s': State, e: Event, more: set<Packet>)
    requires LossyNext(s, s', e) && s.network <= more
    ensures SystemNext(State(s.hosts, more), State(s'.hosts, more + EventPackets(e)), e)
    ensures s'.network <= more + EventPackets(e)
  {
    hide FramedNext, SentPackets;
  }

  ghost predicate IsLossyRun(r: Run, args: seq<seq<Byte>>) {
    && |r.states| == |r.events| + 1
    && SystemInit(r.states[0], args)
    && forall i :: 0 <= i < |r.events| ==> LossyNext(r.states[i], r.states[i + 1], r.events[i])
  }

  /** All packets of the first `n` events. */
  function AllPackets(events: seq<Event>, n: nat): set<Packet>
    requires n <= |events|
  {
    if n == 0 then {} else AllPackets(events, n - 1) + EventPackets(events[n - 1])
  }

  /** The run as it would have been had no packet been lost. */
  function Lossless(r: Run): (full: Run)
    requires |r.states| == |r.events| + 1
    ensures |full.states| == |r.states| && full.events == r.events
    ensures forall i :: 0 <= i < |r.states| ==> full.states[i] == State(r.states[i].hosts, AllPackets(r.events, i))
  {
    Run(seq(|r.states|, i requires 0 <= i < |r.states| => State(r.states[i].hosts, AllPackets(r.events, i))), r.events)
  }

  lemma {:induction false} NoPacketsAppear(r: Run, args: seq<seq<Byte>>, n: nat)
    requires IsLossyRun(r, args) && n <= |r.events|
    ensures r.states[n].network <= AllPackets(r.events, n)
  {
    hide SystemNext;
    if n > 0 {
      NoPacketsAppear(r, args, n - 1);
      assert LossyNext(r.states[n - 1], r.states[n], r.events[n - 1]);
    }
  }

  lemma LosslessIsRun(r: Run, args: seq<seq<Byte>>)
    requires IsLossyRun(r, args)
    ensures IsRun(Lossless(r), args)
  {
    hide SystemNext, LossyNext, EventPackets;
    var full := Lossless(r);
    assert full.states[0] == State(r.states[0].hosts, AllPackets(r.events, 0)) == r.states[0];
    forall i | 0 <= i < |r.events|
      ensures SystemNext(full.states[i], full.states[i + 1], r.events[i])
    {
      NoPacketsAppear(r, args, i);
      MorePacketsDoNoHarm(r.states[i], r.states[i + 1], r.events[i], AllPackets(r.events, i));
      assert AllPackets(r.events, i + 1) == AllPackets(r.events, i) + EventPackets(r.events[i]);
    }
  }

  lemma SameHostsServeTheSame(s: State, s': State, t: State, t': State, e: Event)
    requires s.hosts == t.hosts && s'.hosts == t'.hosts
    ensures ServedBy(s, s', e) == ServedBy(t, t', e)
  {
  }

  lemma {:induction false} SameLog(r: Run, t: Run, n: nat)
    requires |r.states| == |t.states| == |r.events| + 1 && r.events == t.events && n <= |r.events|
    requires forall i :: 0 <= i < |r.states| ==> r.states[i].hosts == t.states[i].hosts
    ensures ServedLog(r, n) == ServedLog(t, n)
  {
    hide ServedBy;
    if n > 0 {
      SameLog(r, t, n - 1);
      SameHostsServeTheSame(r.states[n - 1], r.states[n], t.states[n - 1], t.states[n], r.events[n - 1]);
    }
  }

  /** Lost packets, before or after they reach the network, take nothing from what every run promises. */
  lemma LossyRunsServeOneTable(r: Run, args: seq<seq<Byte>>, n: nat)
    requires IsLossyRun(r, args) && n <= |r.events|
    ensures EveryKeyClaimedOnce(r.states[n].hosts)
    ensures forall k: Key :: GlobalValue(r.states[n].hosts, k) == Replay(ServedLog(r, n), k)
    ensures AllJustified(r.states[n], ServedLog(r, n))
  {
    hide IsRun, EveryKeyClaimedOnce, GlobalValue, ServedLog, Replay, Justified, LossyNext, SystemInit;
    LosslessIsRun(r, args);
    SameLog(r, Lossless(r), n);
    RunsServeOneTable(Lossless(r), args, n);
    EveryReplyIsJustified(Lossless(r), args, n);
    NoPacketsAppear(r, args, n);
  }

  // ----- one step of a host, seen from the system -----

  /** The system after a host object has taken a step, with what the network got of it. */
  ghost function AfterStep(s: State, id: EndPoint, h: Host, got: seq<IoOp>): State {
    State(s.hosts[id := h], s.network + SentPackets(got))
  }

  /** Whatever arrives was on the network, which holds what the host makes of it. */
  ghost predicate ArrivesFrom(arrivals: seq<NetcReceiveResult>, me: EndPoint, network: set<Packet>) {
    forall i :: 0 <= i < |arrivals| && arrivals[i].Received? ==> AsPacket(me, arrivals[i]) in network
  }

  lemma PrefixSendsLess(got: seq<IoOp>, ios: seq<IoOp>)
    requires got <= ios
    ensures SentPackets(got) <= SentPackets(ios)
  {
    assert forall i :: 0 <= i < |got| ==> got[i] == ios[i];
  }

  lemma StepIsSystemStep(s: State, id: EndPoint, h: Host, ios: seq<IoOp>, got: seq<IoOp>,
                         arrivals: seq<NetcReceiveResult>)
    requires id in s.hosts && FramedNext(s.hosts[id], h, ios)
    requires Addressed(ios, id, arrivals) && ArrivesFrom(arrivals, id, s.network)
    requires got <= ios
    ensures LossyNext(s, AfterStep(s, id, h, got), HostStep(id, ios))
    ensures got == ios ==> SystemNext(s, AfterStep(s, id, h, got), HostStep(id, ios))
  {
    hide FramedNext, SentPackets;
    PrefixSendsLess(got, ios);
    forall i | 0 <= i < |ios| && ios[i].Receive?
      ensures ios[i].r in s.network
    {
      var j :| 0 <= j < |arrivals| && arrivals[j].Received? && AsPacket(id, arrivals[j]) == ios[i].r;
    }
  }

  /** One call of a host's step is one step of the system: of the lossless one if no send failed. */
  method StepInSystem(host: HostState, netc: NetClient, ghost s: State)
    returns (ok: bool, ghost s': State, ghost e: Event)
    requires host.Invariants(netc.me) && netc.Valid() && netc.state == Receiving
    requires netc !in host.Repr()
    requires netc.me in s.hosts && s.hosts[netc.me] == host.View() && ArrivesFrom(netc.arrivals, netc.me, s.network)
    modifies host.Repr(), netc
    ensures host.Invariants(netc.me) && netc.Valid()
    ensures e.HostStep? && e.id == netc.me
    ensures old(netc.history) <= netc.history
    ensures s' == AfterStep(s, netc.me, host.View(), netc.history[|old(netc.history)|..])
    ensures LossyNext(s, s', e) && (ok ==> SystemNext(s, s', e))
  {
    hide FramedNext, HostState.Invariants, LossyNext, SystemNext, Addressed, ArrivesFrom;
    ghost var res;
    ok, res := host.RealNextImpl(netc);
    assert host.StepDone(netc, ok, res, old(host.View()), old(netc.history), old(netc.arrivals));
    ghost var got := netc.history[|old(netc.history)|..];
    assert old(netc.history) + got == netc.history;
    assert got <= res.EventSeq();
    s', e := AfterStep(s, netc.me, host.View(), got), HostStep(netc.me, res.EventSeq());
    StepIsSystemStep(s, netc.me, host.View(), res.EventSeq(), got, old(netc.arrivals));
  }

}
