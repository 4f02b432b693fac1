/** What clients see: every Reply comes from the log of served requests, and no message is taken in twice. */
module ShardedStoreReplies {
  import opened Options
  import opened KeyRanges
  import opened SingleDelivery
  import opened HostProtocol
  import opened ShardedStore
  import opened ShardedStoreSteps
  import opened ShardedStoreTheorems

  // ----- the answer to a served request -----

  /** The answer a single store gives to a request when `before` is its value for the requested key. */
  function AnswerTo(req: AppRequest, before: Option<Value>): Msg {
    match req
    case AppGetRequest(_, k) => Reply(k, before)
    case AppSetRequest(_, k, ov) => Reply(k, ov)
  }

  /** The client message behind a logged request. */
  predicate IsRequest(pkt: Packet, req: AppRequest) {
    && pkt.msg.Message?
    && pkt.msg.seqno == req.seqno
    && pkt.msg.m == match req
                    case AppGetRequest(_, k) => GetRequest(k)
                    case AppSetRequest(_, k, ov) => SetRequest(k, ov)
  }

  lemma OnlyRequestsAreLogged(g: Host, h: Host, ios: seq<IoOp>, step: Step)
    requires NextStep(g, h, ios, step) && (step.StepReceivePacket? ==> ReceiveFrame(g, h, ios))
    requires Served(g, h).Some?
    ensures g.receivedPacket.Some? && g.receivedPacket.value.msg.Message?
    ensures NextGetRequest(g, h, g.receivedPacket.value, SentPackets(ios))
        || NextSetRequest(g, h, g.receivedPacket.value, SentPackets(ios))
  {
    hide NextGetRequest, NextSetRequest, RangeIsOn, SendSingleMessage, Complete, ReceivePacket, MustRejectShard;
    if NextShardWrapper(g, h, g.receivedPacket.value, SentPackets(ios)) {
      ShardsAreNotLogged(g, h, g.receivedPacket.value, SentPackets(ios));
    }
  }

  lemma ShardsAreNotLogged(g: Host, h: Host, pkt: Packet, out: set<Packet>)
    requires Complete(g.delegationMap) && pkt.msg.Message?
    requires NextShardWrapper(g, h, pkt, out)
    ensures h.receivedRequests == g.receivedRequests
  {
    hide RangeIsOn, SendSingleMessage, Complete, MustRejectShard;
  }

  /** What a buffered Get or Set request leads to. */
  lemma RequestServes(g: Host, h: Host, pkt: Packet, out: set<Packet>)
    requires Complete(g.delegationMap) && pkt.msg.Message?
    requires forall k :: k in g.h ==> ValidValue(g.h[k])
    requires NextGetRequest(g, h, pkt, out) || NextSetRequest(g, h, pkt, out)
    ensures pkt.msg.m.GetRequest? || pkt.msg.m.SetRequest?
    ensures AnswersClient(g, h, pkt.src, out)
    ensures ServesAs(g, h, pkt.src, pkt.msg.m, pkt.msg.seqno, out)
  {
    hide NextGetRequest, NextSetRequest, AnswersClient, ServesAs;
    if NextGetRequest(g, h, pkt, out) {
      assert pkt.msg.m.GetRequest? by { GetIsGet(g, h, pkt, out); }
      GetServes(g, h, pkt, out);
    } else {
      assert pkt.msg.m.SetRequest? by { SetIsSet(g, h, pkt, out); }
      SetServes(g, h, pkt, out);
    }
  }

  lemma GetIsGet(g: Host, h: Host, pkt: Packet, out: set<Packet>)
    requires Complete(g.delegationMap) && pkt.msg.Message? && NextGetRequest(g, h, pkt, out)
    ensures pkt.msg.m.GetRequest?
  {
  }

  lemma SetIsSet(g: Host, h: Host, pkt: Packet, out: set<Packet>)
    requires Complete(g.delegationMap) && pkt.msg.Message? && NextSetRequest(g, h, pkt, out)
    ensures pkt.msg.m.SetRequest?
  {
  }

  lemma SentToItsDestination(pre: Delivery, post: Delivery, m: Msg, dst: EndPoint, sm: SingleMessage,
                             params: Parameters)
    requires SendSingleMessage(pre, post, m, dst, Some(sm), params)
    ensures sm.Message? && sm.dst == dst
    ensures dst in post.sendState && sm in post.sendState[dst].unAcked
    ensures forall d, x :: d in post.sendState && x in post.sendState[d].unAcked ==>
              x == sm || (d in pre.sendState && x in pre.sendState[d].unAcked)
  {
  }

  lemma OwnersHoldTheTable(s: State, id: EndPoint, k: Key)
    requires EveryKeyClaimedOnce(s.hosts) && id in s.hosts
    requires k in s.hosts[id].delegationMap && s.hosts[id].delegationMap[k] == id
    ensures GlobalValue(s.hosts, k) == Lookup(s.hosts[id].h, k)
  {
    hide GlobalValue;
    assert ExactlyOneClaim(s.hosts, k);
    ClaimDeterminesValue(s.hosts, k, Owner(id));
  }

  lemma ServedKeysAreOwned(s: State, id: EndPoint, h: Host, ios: seq<IoOp>)
    requires Inv(s) && EveryKeyClaimedOnce(s.hosts) && id in s.hosts
    requires FramedNext(s.hosts[id], h, ios) && Served(s.hosts[id], h).Some?
    ensures var g, out := s.hosts[id], SentPackets(ios);
            && g.receivedPacket.Some? && g.receivedPacket.value.msg.Message? && g.constants.me == id
            && IsRequest(g.receivedPacket.value, Served(g, h).value)
            && GlobalValue(s.hosts, Served(g, h).value.key) == Lookup(g.h, Served(g, h).value.key)
            && SendsAnswer(g, h, g.receivedPacket.value.src,
                           AnswerTo(Served(g, h).value, Lookup(g.h, Served(g, h).value.key)), out)
  {
    hide Inv, NextStep, NextGetRequest, NextSetRequest, GlobalValue, SendsAnswer, AnswersClient, EveryKeyClaimedOnce,
         SentPackets, Claims, ReceiveFrame, HostInv;
    var g := s.hosts[id];
    var step :| NextStep(g, h, ios, step) && (step.StepReceivePacket? ==> ReceiveFrame(g, h, ios));
    OnlyRequestsAreLogged(g, h, ios, step);
    HostOf(s, id);
    HostKnowsItself(id, g, s.hosts.Keys);
    RequestServes(g, h, g.receivedPacket.value, SentPackets(ios));
    OwnersHoldTheTable(s, id, Served(g, h).value.key);
  }

  /** A step that serves a request answers its sender with what the global table holds at that step. */
  lemma ServedRequestsAreAnswered(s: State, id: EndPoint, h: Host, ios: seq<IoOp>) returns (seqno: nat)
    requires Inv(s) && EveryKeyClaimedOnce(s.hosts) && id in s.hosts
    requires FramedNext(s.hosts[id], h, ios) && Served(s.hosts[id], h).Some?
    ensures s.hosts[id].receivedPacket.Some?
    ensures var pkt, req := s.hosts[id].receivedPacket.value, Served(s.hosts[id], h).value;
            && IsRequest(pkt, req)
            && SentPackets(ios) ==
                 {Packet(pkt.src, id, Message(seqno, pkt.src, AnswerTo(req, GlobalValue(s.hosts, req.key))))}
  {
    hide Inv, FramedNext, GlobalValue, SendSingleMessage, EveryKeyClaimedOnce, SentPackets;
    ServedKeysAreOwned(s, id, h, ios);
    var g := s.hosts[id];
    var src, m := g.receivedPacket.value.src, AnswerTo(Served(g, h).value, Lookup(g.h, Served(g, h).value.key));
    var sm :| SendSingleMessage(g.sd, h.sd, m, src, Some(sm), g.constants.params)
              && sm.Message? && sm.m == m && SentPackets(ios) == {Packet(src, id, sm)};
    SentToItsDestination(g.sd, h.sd, m, src, sm, g.constants.params);
    seqno := sm.seqno;
  }

  // ----- every Reply ever sent -----

  /** `m`, if it is a Reply, is the answer to a logged request given the requests logged before it. */
  ghost predicate Justified(m: Msg, log: seq<AppRequest>) {
    m.Reply? ==> exists i :: 0 <= i < |log| && m == AnswerTo(log[i], Replay(log[..i], log[i].key))
  }

  ghost predicate Says(h: Host, sm: SingleMessage) {
    exists dst :: dst in h.sd.sendState && sm in h.sd.sendState[dst].unAcked
  }

  ghost predicate HostJustified(h: Host, log: seq<AppRequest>) {
    forall sm :: Says(h, sm) && sm.Message? ==> Justified(sm.m, log)
  }

  ghost predicate AllJustified(s: State, log: seq<AppRequest>) {
    && (forall id :: id in s.hosts ==> HostJustified(s.hosts[id], log))
    && (forall p :: p in s.network && p.src in s.hosts && p.msg.Message? ==> Justified(p.msg.m, log))
  }

  lemma JustifiedForGood(m: Msg, log: seq<AppRequest>, more: seq<AppRequest>)
    requires Justified(m, log)
    ensures Justified(m, log + more)
  {
    if m.Reply? {
      var i :| 0 <= i < |log| && m == AnswerTo(log[i], Replay(log[..i], log[i].key));
      assert (log + more)[..i] == log[..i] && (log + more)[i] == log[i];
    }
  }

  /** The only Reply a step may add, to what awaits acknowledgement or to the network, is `allowed`. */
  ghost predicate Speaks(g: Host, h: Host, out: set<Packet>, allowed: Option<Msg>) {
    && (forall sm :: Says(h, sm) && sm.Message? && sm.m.Reply? ==> Says(g, sm) || allowed == Some(sm.m))
    && (forall p :: p in out && p.msg.Message? && p.msg.m.Reply? ==> Says(g, p.msg) || allowed == Some(p.msg.m))
  }

  lemma ReceivingSaysNothing(g: Host, h: Host, pkt: Packet, out: set<Packet>, ack: Packet)
    requires ReceivePacket(g, h, pkt, out, ack)
    ensures Speaks(g, h, out, None)
  {
    forall dst, sm | dst in h.sd.sendState && sm in h.sd.sendState[dst].unAcked
      ensures Says(g, sm)
    {
      if dst !in g.sd.sendState || h.sd.sendState[dst] != g.sd.sendState[dst] {
        TruncateIsSuffix(AckStateLookup(dst, g.sd.sendState).unAcked, pkt.msg.ackSeqno, sm);
      }
      assert dst in g.sd.sendState && sm in g.sd.sendState[dst].unAcked;
    }
  }

  lemma {:induction false} TruncateIsSuffix(unAcked: seq<SingleMessage>, n: nat, sm: SingleMessage)
    requires sm in TruncateUnAcked(unAcked, n)
    ensures sm in unAcked
  {
    if |unAcked| > 0 && unAcked[0].Message? && unAcked[0].seqno <= n {
      TruncateIsSuffix(unAcked[1..], n, sm);
    }
  }

  lemma SendingSays(g: Host, h: Host, m: Msg, dst: EndPoint, sm: SingleMessage, out: set<Packet>, allowed: Option<Msg>)
    requires SendSingleMessage(g.sd, h.sd, m, dst, Some(sm), g.constants.params)
    requires out == {Packet(dst, g.constants.me, sm)}
    requires m.Reply? ==> allowed == Some(m)
    ensures Speaks(g, h, out, allowed)
  {
    SentIsWhatWasSaid(g.sd, h.sd, m, dst, sm, g.constants.params);
    SentToItsDestination(g.sd, h.sd, m, dst, sm, g.constants.params);
    hide SendSingleMessage;
    forall x | Says(h, x)
      ensures Says(g, x) || x == sm
    {
      var d :| d in h.sd.sendState && x in h.sd.sendState[d].unAcked;
    }
  }

  lemma QuietSaysNothing(g: Host, h: Host, ios: seq<IoOp>)
    requires h.sd == g.sd
    requires SentPackets(ios) == {} || SentPackets(ios) == UnAckedMessages(g.sd, g.constants.me)
    ensures Speaks(g, h, SentPackets(ios), None)
  {
    forall p | p in UnAckedMessages(g.sd, g.constants.me)
      ensures Says(g, p.msg)
    {
      var dst, i :| dst in g.sd.sendState && 0 <= i < |g.sd.sendState[dst].unAcked|
        && p.msg == g.sd.sendState[dst].unAcked[i];
    }
  }

  lemma ShardSaysNoReply(g: Host, h: Host, pkt: Packet, ios: seq<IoOp>)
    requires Complete(g.delegationMap) && pkt.msg.Message?
    requires NextShardWrapper(g, h, pkt, SentPackets(ios))
    ensures Speaks(g, h, SentPackets(ios), None)
  {
    hide RangeIsOn, SendSingleMessage, Complete, MustRejectShard, Speaks, SentPackets;
    if MustRejectShard(g, pkt.msg.m) {
      QuietSaysNothing(g, h, ios);
    } else {
      var kr, recipient := pkt.msg.m.range, pkt.msg.m.recipient;
      var sm, b :| NextShard(g, h, SentPackets(ios), kr, recipient, sm, b);
      if b {
        SendingSays(g, h, Delegate(kr, ExtractRange(g.h, kr)), recipient, sm, SentPackets(ios), None);
      } else {
        assert h.sd == g.sd by {
          UnsentChangesNothing(g.sd, h.sd, Delegate(kr, ExtractRange(g.h, kr)), recipient, g.constants.params);
        }
        QuietSaysNothing(g, h, ios);
      }
    }
  }

  /** Get and Set requests are answered by a Reply only if they are served. */
  lemma RequestSays(g: Host, h: Host, pkt: Packet, ios: seq<IoOp>)
    requires Complete(g.delegationMap) && pkt.msg.Message?
    requires forall k :: k in g.h ==> ValidValue(g.h[k])
    requires NextGetRequest(g, h, pkt, SentPackets(ios)) || NextSetRequest(g, h, pkt, SentPackets(ios))
    ensures Speaks(g, h, SentPackets(ios),
                   match Served(g, h)
                   case None => None
                   case Some(req) => Some(AnswerTo(req, Lookup(g.h, req.key))))
  {
    hide NextGetRequest, NextSetRequest, SendSingleMessage, Speaks, SentPackets, AnswersClient;
    var out := SentPackets(ios);
    var allowed := match Served(g, h)
                   case None => None
                   case Some(req) => Some(AnswerTo(req, Lookup(g.h, req.key)));
    RequestServes(g, h, pkt, out);
    if out == {} {
      UnansweredSaysNothing(g, h, pkt, ios);
    } else {
      var m := if allowed.Some? then allowed.value else Redirect(pkt.msg.m.key, g.delegationMap[pkt.msg.m.key]);
      assert SendsAnswer(g, h, pkt.src, m, out);
      var sm :| SendSingleMessage(g.sd, h.sd, m, pkt.src, Some(sm), g.constants.params)
                && sm.Message? && sm.m == m && out == {Packet(pkt.src, g.constants.me, sm)};
      SendingSays(g, h, m, pkt.src, sm, out, allowed);
    }
  }

  lemma UnansweredSaysNothing(g: Host, h: Host, pkt: Packet, ios: seq<IoOp>)
    requires AnswersClient(g, h, pkt.src, SentPackets(ios)) && SentPackets(ios) == {}
    ensures Served(g, h).None? ==> Speaks(g, h, SentPackets(ios), None)
    ensures Served(g, h).Some? ==>
        Speaks(g, h, SentPackets(ios), Some(AnswerTo(Served(g, h).value, Lookup(g.h, Served(g, h).value.key))))
  {
    hide SentPackets, SendSingleMessage;
  }

  lemma QuietIosSendNothing(ios: seq<IoOp>)
    ensures ios == [] || (|ios| == 1 && !ios[0].Send?) ==> SentPackets(ios) == {}
  {
  }

  lemma StepSays(g: Host, h: Host, ios: seq<IoOp>)
    requires FramedNext(g, h, ios)
    requires forall k :: k in g.h ==> ValidValue(g.h[k])
    ensures Speaks(g, h, SentPackets(ios),
                   match Served(g, h)
                   case None => None
                   case Some(req) => Some(AnswerTo(req, Lookup(g.h, req.key))))
  {
    hide Speaks, ReceivePacket, UnAckedMessages, Complete, SentPackets, NextGetRequest, NextSetRequest,
        NextShardWrapper;
    var step :| NextStep(g, h, ios, step) && (step.StepReceivePacket? ==> ReceiveFrame(g, h, ios));
    var out := SentPackets(ios);
    QuietIosSendNothing(ios);
    if step.StepReceivePacket? && !ios[0].TimeoutReceive? {
      var ack :| ReceivePacket(g, h, ios[0].r, out, ack);
      ReceivingSaysNothing(g, h, ios[0].r, out, ack);
    } else if step.StepProcessReceivedPacket? && g.receivedPacket.Some? && ShouldProcess(g) {
      var pkt := g.receivedPacket.value;
      if NextGetRequest(g, h, pkt, out) || NextSetRequest(g, h, pkt, out) {
        RequestSays(g, h, pkt, ios);
      } else if NextShardWrapper(g, h, pkt, out) {
        ShardsAreNotLogged(g, h, pkt, out);
        ShardSaysNoReply(g, h, pkt, ios);
      } else {
        QuietSaysNothing(g, h, ios);
      }
    } else {
      QuietSaysNothing(g, h, ios);
    }
  }

  lemma HostStaysJustified(g: Host, h: Host, out: set<Packet>, allowed: Option<Msg>, log: seq<AppRequest>,
                           log': seq<AppRequest>)
    requires HostJustified(g, log) && log <= log'
    requires Speaks(g, h, out, allowed)
    requires allowed.Some? ==> Justified(allowed.value, log')
    ensures HostJustified(h, log')
    ensures forall p :: p in out && p.msg.Message? ==> Justified(p.msg.m, log')
  {
    hide Says;
    forall m | Justified(m, log)
      ensures Justified(m, log')
    {
      JustifiedForGood(m, log, log'[|log|..]);
      assert log + log'[|log|..] == log';
    }
  }

  lemma JustifiedEverywhere(s: State, log: seq<AppRequest>, log': seq<AppRequest>)
    requires AllJustified(s, log) && log <= log'
    ensures AllJustified(s, log')
  {
    hide Says;
    forall m | Justified(m, log)
      ensures Justified(m, log')
    {
      JustifiedForGood(m, log, log'[|log|..]);
      assert log + log'[|log|..] == log';
    }
  }

  lemma LogGrows(r: Run, n: nat)
    requires 0 < n <= |r.events| < |r.states|
    ensures ServedLog(r, n - 1) <= ServedLog(r, n)
    ensures match ServedBy(r.states[n - 1], r.states[n], r.events[n - 1])
            case None => ServedLog(r, n) == ServedLog(r, n - 1)
            case Some(req) => ServedLog(r, n) == ServedLog(r, n - 1) + [req]
  {
  }

  /** The answer given while serving the last request of a log is justified by that log. */
  lemma LastAnswerIsJustified(log: seq<AppRequest>, req: AppRequest)
    ensures Justified(AnswerTo(req, Replay(log, req.key)), log + [req])
  {
    assert (log + [req])[..|log|] == log && (log + [req])[|log|] == req;
  }

  lemma StepStaysJustified(r: Run, args: seq<seq<Byte>>, n: nat)
    requires IsRun(r, args) && 0 < n <= |r.events|
    requires AllJustified(r.states[n - 1], ServedLog(r, n - 1))
    ensures AllJustified(r.states[n], ServedLog(r, n))
  {
    hide Speaks, FramedNext, HostJustified, Justified, Inv, EveryKeyClaimedOnce, GlobalValue, SystemInit, Replay,
        ServedLog;
    var s, s', e := r.states[n - 1], r.states[n], r.events[n - 1];
    var log, log' := ServedLog(r, n - 1), ServedLog(r, n);
    LogGrows(r, n);
    JustifiedEverywhere(s, log, log');
    assert SystemNext(s, s', e);
    if e.HostStep? {
      var g, h := s.hosts[e.id], s'.hosts[e.id];
      RunsServeOneTable(r, args, n - 1);
      HostOf(s, e.id);
      HostKnowsItself(e.id, g, s.hosts.Keys);
      StepSays(g, h, e.ios);
      var allowed := match Served(g, h)
                     case None => None
                     case Some(req) => Some(AnswerTo(req, Lookup(g.h, req.key)));
      if allowed.Some? {
        var req := Served(g, h).value;
        assert Lookup(g.h, req.key) == GlobalValue(s.hosts, req.key) by { ServedKeysAreOwned(s, e.id, h, e.ios); }
        LastAnswerIsJustified(log, req);
      }
      HostStaysJustified(g, h, SentPackets(e.ios), allowed, log, log');
    }
  }

  /**
   In every run, every Reply that any host has ever put on the network, first or again, is the answer a
   single store gives to a served request after the requests served before it.
   */
  lemma {:induction false} EveryReplyIsJustified(r: Run, args: seq<seq<Byte>>, n: nat)
    requires IsRun(r, args) && n <= |r.events|
    ensures AllJustified(r.states[n], ServedLog(r, n))
  {
    hide Justified, SystemNext;
    if n > 0 {
      EveryReplyIsJustified(r, args, n - 1);
      StepStaysJustified(r, args, n);
    } else {
      forall id, sm | id in r.states[0].hosts
        ensures !Says(r.states[0].hosts[id], sm)
      {
        assert Init(r.states[0].hosts[id], id, args);
      }
    }
  }

  // ----- at most once -----

  lemma TombstonesNeverFall(g: Host, h: Host, ios: seq<IoOp>, src: EndPoint)
    requires FramedNext(g, h, ios)
    ensures TombstoneLookup(src, g.sd.receiveState) <= TombstoneLookup(src, h.sd.receiveState)
  {
    hide RangeIsOn, Complete, MustRejectShard, SentPackets, UnAckedMessages;
    var step :| NextStep(g, h, ios, step) && (step.StepReceivePacket? ==> ReceiveFrame(g, h, ios));
  }

  lemma {:induction false} SeenNeverFalls(r: Run, args: seq<seq<Byte>>, i: nat, j: nat, src: EndPoint, id: EndPoint)
    requires IsRun(r, args) && i <= j <= |r.events|
    requires id in r.states[i].hosts
    ensures id in r.states[j].hosts && Seen(r.states[i].hosts, src, id) <= Seen(r.states[j].hosts, src, id)
  {
    hide FramedNext, SystemInit, Inv;
    if i < j {
      SeenNeverFalls(r, args, i, j - 1, src, id);
      var s, s', e := r.states[j - 1], r.states[j], r.events[j - 1];
      assert SystemNext(s, s', e);
      if e.HostStep? && e.id == id {
        TombstonesNeverFall(s.hosts[id], s'.hosts[id], e.ios, src);
      }
    }
  }

  /** The step takes `pkt` into the buffer of host `id`. */
  predicate TakesIn(s: State, s': State, id: EndPoint, pkt: Packet) {
    && id in s.hosts && id in s'.hosts
    && s.hosts[id].receivedPacket.None?
    && s'.hosts[id].receivedPacket == Some(pkt)
  }

  lemma TakenInFreshAndOnce(g: Host, h: Host, ios: seq<IoOp>, pkt: Packet)
    requires FramedNext(g, h, ios)
    requires g.receivedPacket.None? && h.receivedPacket == Some(pkt)
    ensures pkt.msg.Message?
    ensures TombstoneLookup(pkt.src, g.sd.receiveState) + 1 == pkt.msg.seqno ==
        TombstoneLookup(pkt.src, h.sd.receiveState)
  {
    hide Complete, SentPackets, UnAckedMessages;
    var step :| NextStep(g, h, ios, step) && (step.StepReceivePacket? ==> ReceiveFrame(g, h, ios));
  }

  /** However often the network repeats a packet, in no run does a host take the same one in twice. */
  lemma NothingIsTakenInTwice(r: Run, args: seq<seq<Byte>>, i: nat, j: nat, id: EndPoint, pkt: Packet)
    requires IsRun(r, args) && i < j < |r.events|
    requires TakesIn(r.states[i], r.states[i + 1], id, pkt)
    ensures !TakesIn(r.states[j], r.states[j + 1], id, pkt)
  {
    hide FramedNext, SystemInit, ValidIos;
    if TakesIn(r.states[j], r.states[j + 1], id, pkt) {
      assert SystemNext(r.states[i], r.states[i + 1], r.events[i]);
      assert SystemNext(r.states[j], r.states[j + 1], r.events[j]);
      SeenNeverFalls(r, args, i + 1, j, pkt.src, id);
      TakenInFreshAndOnce(r.states[i].hosts[id], r.states[i + 1].hosts[id], r.events[i].ios, pkt);
      TakenInFreshAndOnce(r.states[j].hosts[id], r.states[j + 1].hosts[id], r.events[j].ios, pkt);
    }
  }

}
