/**
 What the receive step as written allows. Its frame conjunct constrains nothing, so a host that takes in
 a packet may end up with any table and any delegation map. These lemmas say exactly when that matters.
 */
module WrittenReceive {
  import opened Options
  import opened KeyRanges
  import opened SingleDelivery
  import opened HostProtocol
  import opened ShardedStore
  import opened ShardedStoreSteps
  import opened ShardedStoreTheorems

  /** Some host is ready to take in a packet that the network holds for it. */
  predicate CanReceive(s: State) {
    exists p :: p in s.network && p.dst in s.hosts && s.hosts[p.dst].receivedPacket.None?
  }

  lemma WrittenStepIsFramed(s: State, s': State, e: Event)
    requires !CanReceive(s) && WrittenNext(s, s', e)
    ensures SystemNext(s, s', e)
  {
    hide ProcessReceivedPacketNext, SpontaneouslyRetransmitNext, IgnoreNonsensicalDelegationPacket, Complete,
         SentPackets, SingleDelivery.Receive;
    if e.HostStep? {
      var g, h := s.hosts[e.id], s'.hosts[e.id];
      var step :| NextStep(g, h, e.ios, step);
      if step.StepReceivePacket? {
        assert h == g;
        assert ReceiveFrame(g, h, e.ios);
      }
    }
  }

  lemma TakingInSteps(s: State, pkt: Packet, h: Host)
    requires pkt in s.network && pkt.dst in s.hosts && s.hosts[pkt.dst].receivedPacket.None?
    requires Complete(s.hosts[pkt.dst].delegationMap)
    requires h == TookIn(s.hosts[pkt.dst], pkt).(delegationMap := h.delegationMap)
    ensures var g := s.hosts[pkt.dst];
            var ios := TakeIn(g, pkt);
            && WrittenNext(s, After(s, pkt.dst, h, SentPackets(ios)), HostStep(pkt.dst, ios))
            && (h.delegationMap == g.delegationMap ==>
                  SystemNext(s, After(s, pkt.dst, h, SentPackets(ios)), HostStep(pkt.dst, ios)))
  {
    hide ReceivePacketNext, Complete;
    var g := s.hosts[pkt.dst];
    var ios := TakeIn(g, pkt);
    TakingInReceives(g, h, pkt);
    assert NextStep(g, h, ios, StepReceivePacket);
  }

  lemma TogglingBreaksClaims(hosts: map<EndPoint, Host>, id: EndPoint, other: EndPoint, h: Host)
    requires id in hosts && Complete(hosts[id].delegationMap) && EveryKeyClaimedOnce(hosts)
    requires other != id
    requires h == hosts[id].(delegationMap := hosts[id].delegationMap[ZERO_KEY :=
                    if hosts[id].delegationMap[ZERO_KEY] == id then other else id])
    ensures !EveryKeyClaimedOnce(hosts[id := h])
  {
    var hosts' := hosts[id := h];
    forall c: Claim
      ensures Carried(hosts, c) == Carried(hosts', c)
    {
    }
    hide Carried;
    assert ExactlyOneClaim(hosts, ZERO_KEY);
    var c :| Claims(hosts, ZERO_KEY, c) && forall c' :: Claims(hosts, ZERO_KEY, c') ==> c' == c;
    if c == Owner(id) {
      assert forall d :: Claims(hosts', ZERO_KEY, d) ==> Claims(hosts, ZERO_KEY, d) && d != Owner(id);
    } else {
      assert !Claims(hosts, ZERO_KEY, Owner(id));
      assert Claims(hosts', ZERO_KEY, Owner(id)) && Claims(hosts', ZERO_KEY, c);
    }
    assert !ExactlyOneClaim(hosts', ZERO_KEY);
  }

  /** From a sound state, one step of the relation as written can break the claims exactly if a host can receive. */
  lemma WrittenStepBreaksClaimsExactly(s: State)
    requires Inv(s) && EveryKeyClaimedOnce(s.hosts)
    ensures (exists s', e :: WrittenNext(s, s', e) && !EveryKeyClaimedOnce(s'.hosts)) <==> CanReceive(s)
  {
    hide Inv, EveryKeyClaimedOnce, HostInv, Complete, FramedNext, Next, SentPackets;
    if CanReceive(s) {
      var pkt :| pkt in s.network && pkt.dst in s.hosts && s.hosts[pkt.dst].receivedPacket.None?;
      HostOf(s, pkt.dst);
      HostKnowsItself(pkt.dst, s.hosts[pkt.dst], s.hosts.Keys);
      ToggleAfterTakingIn(s, pkt);
    }
    forall s', e | !CanReceive(s) && WrittenNext(s, s', e)
      ensures EveryKeyClaimedOnce(s'.hosts)
    {
      WrittenStepIsFramed(s, s', e);
      StepKeepsClaims(s, s', e);
    }
  }

  lemma ToggleAfterTakingIn(s: State, pkt: Packet)
    requires Inv(s) && EveryKeyClaimedOnce(s.hosts)
    requires pkt in s.network && pkt.dst in s.hosts && s.hosts[pkt.dst].receivedPacket.None?
    requires Complete(s.hosts[pkt.dst].delegationMap)
    ensures exists s', e :: WrittenNext(s, s', e) && !EveryKeyClaimedOnce(s'.hosts)
  {
    hide Inv, EveryKeyClaimedOnce, HostInv, FramedNext, Next, SentPackets, TakeIn, WrittenNext, SystemNext;
    var id, g := pkt.dst, s.hosts[pkt.dst];
    var t := TookIn(g, pkt);
    var other := EndPoint(id.id + [0]);
    assert |other.id| == |id.id| + 1;
    var h := t.(delegationMap := t.delegationMap[ZERO_KEY := if t.delegationMap[ZERO_KEY] == id then other else id]);
    var ios := TakeIn(g, pkt);
    TakingInSteps(s, pkt, t);
    TakingInSteps(s, pkt, h);
    StepKeepsClaims(s, After(s, id, t, SentPackets(ios)), HostStep(id, ios));
    TogglingBreaksClaims(s.hosts[id := t], id, other, h);
    assert s.hosts[id := t][id := h] == s.hosts[id := h];
  }

}
