/** The safety theorems of the sharded store: over every run, every key is claimed once and one table is served. */
module ShardedStoreTheorems {
  import opened Options
  import opened KeyRanges
  import opened SingleDelivery
  import opened HostProtocol
  import opened ShardedStore
  import opened ShardedStoreSteps

  // ----- one host step -----

  /** The shape of every step's result. */
  ghost predicate Result(s: State, id: EndPoint, h: Host, out: set<Packet>, m: Move) {
    && id in s.hosts
    && Inv(After(s, id, h, out))
    && Moved(s.hosts, s.hosts[id := h], m, Served(s.hosts[id], h))
  }

  lemma ReceiveStep(s: State, id: EndPoint, h: Host, ios: seq<IoOp>) returns (m: Move)
    requires Inv(s) && id in s.hosts && ValidIos(s, id, ios)
    requires h.constants == s.hosts[id].constants
    requires ReceivePacketNext(s.hosts[id], h, ios) && ReceiveFrame(s.hosts[id], h, ios)
    ensures Result(s, id, h, SentPackets(ios), m)
  {
    hide Inv, Moved, SingleDelivery.Receive;
    var g, out := s.hosts[id], SentPackets(ios);
    m := Stay;
    if h == g && out == {} {
      DropMovesNothing(s, id, h, out);
    } else {
      var ack :| ReceivePacket(g, h, ios[0].r, out, ack);
      assert Takes(s, id, h, ios[0].r, out, ack);
      if ios[0].r.msg.Ack? {
        TakeAckKeepsInv(s, id, h, ios[0].r, out, ack);
        TakeAckMovesNothing(s, id, h, ios[0].r, out, ack);
      } else {
        TakeMessageKeepsInv(s, id, h, ios[0].r, out, ack);
        TakeMessageMoves(s, id, h, ios[0].r, out, ack);
        if ios[0].r.src in s.hosts && NewSingleMessage(g.sd, ios[0].r) {
          m := Land(ios[0].r.src, id, ios[0].r.msg.seqno);
        }
      }
    }
  }

  lemma ProcessStep(s: State, id: EndPoint, h: Host, out: set<Packet>) returns (m: Move)
    requires Inv(s) && EveryKeyClaimedOnce(s.hosts) && id in s.hosts && h.constants == s.hosts[id].constants
    requires Complete(s.hosts[id].delegationMap) && ShouldProcess(s.hosts[id])
    requires ProcessMessage(s.hosts[id], h, out)
    ensures Result(s, id, h, out, m)
  {
    hide Inv, Moved, LaneInv, HostInv, EveryKeyClaimedOnce, NextGetRequestReply, NextSetRequestComplete,
         MustRejectShard, SendSingleMessage, RangeIsOn, Complete, AnswersClient, ServesAs;
    var g := s.hosts[id];
    var pkt := g.receivedPacket.value;
    m := Stay;
    HostOf(s, id);
    HostKnowsItself(id, g, s.hosts.Keys);
    if pkt.src in s.hosts {
      HostDelegateIsNeverNonsensical(s, id);
    }
    match pkt.msg.m
    case GetRequest(k) =>
      GetServes(g, h, pkt, out);
      AnswerKeepsInv(s, id, h, out);
      ServeMoves(s, id, h, out, pkt.msg.m, pkt.msg.seqno);
    case SetRequest(k, ov) =>
      SetServes(g, h, pkt, out);
      AnswerKeepsInv(s, id, h, out);
      ServeMoves(s, id, h, out, pkt.msg.m, pkt.msg.seqno);
    case Delegate(range, table) =>
      AdoptKeepsInv(s, id, h, out);
      AdoptMoves(s, id, h, out);
      if pkt.src in s.hosts { m := Adopt(id, range); }
    case Shard(range, recipient) =>
      m := ShardStep(s, id, h, out);
    case Reply(_, _) => DropMovesNothing(s, id, h, out);
    case Redirect(_, _) => DropMovesNothing(s, id, h, out);
  }

  lemma ShardStep(s: State, id: EndPoint, h: Host, out: set<Packet>) returns (m: Move)
    requires Inv(s) && id in s.hosts && h.constants == s.hosts[id].constants
    requires Complete(s.hosts[id].delegationMap) && s.hosts[id].receivedPacket.Some?
    requires s.hosts[id].receivedPacket.value.msg.Message?
    requires NextShardWrapper(s.hosts[id], h, s.hosts[id].receivedPacket.value, out)
    requires h.receivedPacket.None?
    ensures Result(s, id, h, out, m)
  {
    hide Inv, Moved, LaneInv, HostInv, MustRejectShard, RangeIsOn, Complete;
    var g := s.hosts[id];
    var pkt := g.receivedPacket.value;
    var kr, recipient := pkt.msg.m.range, pkt.msg.m.recipient;
    m := Stay;
    if pkt.src in s.hosts {
      HostDelegateIsNeverNonsensical(s, id);
    }
    if MustRejectShard(g, pkt.msg.m) {
      DropMovesNothing(s, id, h, out);
    } else {
      var sm, b :| NextShard(g, h, out, kr, recipient, sm, b);
      if b {
        assert pkt.msg.m == Shard(kr, recipient);
        ShipKeepsInv(s, id, h, kr, recipient, sm, out);
        ShipMoves(s, id, h, kr, recipient, sm, out);
        m := Ship(id, recipient, sm.seqno, kr);
      } else {
        DropMovesNothing(s, id, h, out);
      }
    }
  }

  lemma QuietStep(s: State, id: EndPoint, h: Host, ios: seq<IoOp>, step: Step)
    requires Inv(s) && id in s.hosts && ValidIos(s, id, ios)
    requires NextStep(s.hosts[id], h, ios, step)
    requires !step.StepReceivePacket? && !step.StepProcessReceivedPacket?
    ensures Result(s, id, h, SentPackets(ios), Stay)
  {
    hide Inv, Moved, HostInv, UnAckedMessages, NoNews, Complete, EndPoint.ValidPhysicalAddress;
    var g, out := s.hosts[id], SentPackets(ios);
    HostOf(s, id);
    HostKnowsItself(id, g, s.hosts.Keys);
    forall p | p in out
      ensures NoNews(p, h, id, s.hosts.Keys)
    {
      assert step.StepSpontaneouslyRetransmit?;
      RetransmissionIsNoNews(id, g, s.hosts.Keys, p);
    }
    if step.StepIgnoreNonsensicalDelegationPacket? && g.receivedPacket.value.src in s.hosts {
      HostDelegateIsNeverNonsensical(s, id);
    }
    DropMovesNothing(s, id, h, out);
  }

  lemma HostStepResult(s: State, id: EndPoint, h: Host, ios: seq<IoOp>) returns (m: Move)
    requires Inv(s) && EveryKeyClaimedOnce(s.hosts) && id in s.hosts && ValidIos(s, id, ios)
    requires FramedNext(s.hosts[id], h, ios)
    ensures Result(s, id, h, SentPackets(ios), m)
  {
    hide Result, Inv, EveryKeyClaimedOnce, ReceivePacketNext, ProcessMessage, SpontaneouslyRetransmitNext,
         IgnoreUnparseablePacket, IgnoreNonsensicalDelegationPacket, ReceiveFrame, Complete, SentPackets;
    var g := s.hosts[id];
    var step :| NextStep(g, h, ios, step) && (step.StepReceivePacket? ==> ReceiveFrame(g, h, ios));
    match step
    case StepReceivePacket =>
      m := ReceiveStep(s, id, h, ios);
    case StepProcessReceivedPacket =>
      if g.receivedPacket.Some? && ShouldProcess(g) {
        m := ProcessStep(s, id, h, SentPackets(ios));
      } else {
        m := Stay;
        UnprocessedStaysPut(g, h, SentPackets(ios));
        NothingSentMovesNothing(s, id);
      }
    case _ =>
      m := Stay;
      QuietStep(s, id, h, ios, step);
  }

  lemma UnprocessedStaysPut(g: Host, h: Host, out: set<Packet>)
    requires Complete(g.delegationMap)
    requires if g.receivedPacket.Some? then ProcessMessage(g, h, out) && !ShouldProcess(g) else h == g && out == {}
    ensures h == g && out == {}
  {
  }

  lemma NothingSentMovesNothing(s: State, id: EndPoint)
    requires Inv(s) && id in s.hosts
    ensures Result(s, id, s.hosts[id], {}, Stay)
  {
    hide Inv, Moved;
    DropMovesNothing(s, id, s.hosts[id], {});
  }

  lemma ClientSendKeepsInv(s: State, p: Packet)
    requires Inv(s) && p.src !in s.hosts
    ensures Inv(s.(network := s.network + {p}))
  {
    hide HostInv, LaneInv;
    forall x, y | x in s.hosts && y in s.hosts
      ensures LaneInv(Lane(s.hosts, x, y), Seen(s.hosts, x, y), x, y, s.network + {p})
    {
      LaneOf(s, x, y);
      QuietLane(Lane(s.hosts, x, y), Seen(s.hosts, x, y), x, y, s.network, {p});
    }
  }

  // ----- one system step -----

  /** The request a system step serves, if any. */
  function ServedBy(s: State, s': State, e: Event): Option<AppRequest> {
    if e.HostStep? && e.id in s.hosts && e.id in s'.hosts then Served(s.hosts[e.id], s'.hosts[e.id]) else None
  }

  /** Whatever happens, each key keeps exactly one claim and the global table changes by the served request only. */
  lemma StepKeepsClaims(s: State, s': State, e: Event)
    requires Inv(s) && EveryKeyClaimedOnce(s.hosts) && SystemNext(s, s', e)
    ensures Inv(s') && EveryKeyClaimedOnce(s'.hosts)
    ensures forall k: Key :: GlobalValue(s'.hosts, k) == Written(ServedBy(s, s', e), k, GlobalValue(s.hosts, k))
  {
    hide Inv, EveryKeyClaimedOnce, FramedNext, Moved, GlobalValue, Written;
    match e
    case HostStep(id, ios) =>
      var m := HostStepResult(s, id, s'.hosts[id], ios);
      assert s' == After(s, id, s'.hosts[id], SentPackets(ios));
      MovedKeepsClaims(s.hosts, s'.hosts, m, ServedBy(s, s', e));
    case ClientSend(p) =>
      ClientSendKeepsInv(s, p);
      assert forall k: Key :: Written(None, k, GlobalValue(s.hosts, k)) == GlobalValue(s.hosts, k) by {
        WrittenNothing(s.hosts);
      }
  }

  lemma WrittenNothing(hosts: map<EndPoint, Host>)
    ensures forall k: Key :: Written(None, k, GlobalValue(hosts, k)) == GlobalValue(hosts, k)
  {
  }

  lemma InitialStateIsSound(s: State, args: seq<seq<Byte>>)
    requires SystemInit(s, args)
    ensures Inv(s) && EveryKeyClaimedOnce(s.hosts)
    ensures forall k: Key :: GlobalValue(s.hosts, k) == None
  {
    var root := ParseArgs(args).value[0];
    assert root in s.hosts;
    forall k: Key
      ensures ExactlyOneClaim(s.hosts, k)
      ensures GlobalValue(s.hosts, k) == None
    {
      assert Claims(s.hosts, k, Owner(root));
      forall c | Claims(s.hosts, k, c)
        ensures c == Owner(root)
      {
        if c.Owner? {
          assert Init(s.hosts[c.host], c.host, args);
        }
      }
      ClaimDeterminesValue(s.hosts, k, Owner(root));
    }
  }

  // ----- runs -----

  datatype Run = Run(states: seq<State>, events: seq<Event>)

  ghost predicate IsRun(r: Run, args: seq<seq<Byte>>) {
    && |r.states| == |r.events| + 1
    && SystemInit(r.states[0], args)
    && forall i :: 0 <= i < |r.events| ==> SystemNext(r.states[i], r.states[i + 1], r.events[i])
  }

  /** The requests served in the first `n` steps of a run, in the order in which they were served. */
  function ServedLog(r: Run, n: nat): seq<AppRequest>
    requires n <= |r.events| < |r.states|
  {
    if n == 0 then [] else
      ServedLog(r, n - 1) + (match ServedBy(r.states[n - 1], r.states[n], r.events[n - 1])
                             case None => []
                             case Some(req) => [req])
  }

  /** What a single store holds after serving the requests of a log one after another. */
  function Replay(log: seq<AppRequest>, k: Key): Option<Value> {
    if |log| == 0 then None else Written(Some(log[|log| - 1]), k, Replay(log[..|log| - 1], k))
  }

  /** Safety over all runs: one claim for each key, and the hosts together are one store that replays the log. */
  lemma {:induction false} RunsServeOneTable(r: Run, args: seq<seq<Byte>>, n: nat)
    requires IsRun(r, args) && n <= |r.events|
    ensures Inv(r.states[n]) && EveryKeyClaimedOnce(r.states[n].hosts)
    ensures forall k: Key :: GlobalValue(r.states[n].hosts, k) == Replay(ServedLog(r, n), k)
  {
    hide Inv, EveryKeyClaimedOnce, SystemNext, GlobalValue, SystemInit;
    if n == 0 {
      InitialStateIsSound(r.states[0], args);
    } else {
      RunsServeOneTable(r, args, n - 1);
      StepKeepsClaims(r.states[n - 1], r.states[n], r.events[n - 1]);
      var log := ServedLog(r, n);
      if |log| > 0 { assert log[..|log| - 1] + [log[|log| - 1]] == log; }
      match ServedBy(r.states[n - 1], r.states[n], r.events[n - 1])
      case None =>
        assert log == ServedLog(r, n - 1);
      case Some(req) =>
        assert log[..|log| - 1] == ServedLog(r, n - 1);
    }
  }

}
