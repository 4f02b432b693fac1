/** A Delegate on its way is never lost for good: its sender sends it again, and its receiver takes it in. */
module Redelivery {
  import opened Options
  import opened KeyRanges
  import opened SingleDelivery
  import opened HostProtocol
  import opened HostOutcomes
  import opened ShardedStore
  import opened ShardedStoreSteps
  import opened ShardedStoreTheorems
  import opened WrittenReceive
  import opened DeliveryImpl
  import opened HostImpl

  /** The packet with the message numbered `n` that `src` still holds for `dst`. */
  predicate HeldPacket(hosts: map<EndPoint, Host>, src: EndPoint, dst: EndPoint, n: nat, p: Packet) {
    && src in hosts && dst in hosts[src].sd.sendState
    && var list := hosts[src].sd.sendState[dst];
       && list.numPacketsAcked < n <= list.numPacketsAcked + |list.unAcked|
       && p == Packet(dst, src, list.unAcked[n - list.numPacketsAcked - 1])
  }

  /** Whatever a host sends when it resends all its lists, a claim in flight is among it. */
  lemma ClaimsInFlightAreResent(hosts: map<EndPoint, Host>, k: Key, src: EndPoint, dst: EndPoint, n: nat,
                                sent: seq<Packet>) returns (p: Packet)
    requires Claims(hosts, k, InFlight(src, dst, n))
    requires ResendsAll(hosts[src].sd, src, sent)
    ensures p in sent && HeldPacket(hosts, src, dst, n, p)
    ensures p.msg.Message? && p.msg.m.Delegate? && p.msg.m.range.Contains(k)
  {
    var list := hosts[src].sd.sendState[dst];
    p := Packet(dst, src, list.unAcked[n - list.numPacketsAcked - 1]);
    assert OnList(hosts[src].sd, dst, n - list.numPacketsAcked - 1);
  }

  /** The message that its receiver waits for is held by its sender, as long as any later one is. */
  lemma AwaitedIsHeld(s: State, src: EndPoint, dst: EndPoint, n: nat) returns (p: Packet)
    requires Inv(s) && src in s.hosts && dst in s.hosts
    requires Seen(s.hosts, src, dst) < n
    requires dst in s.hosts[src].sd.sendState
    requires n <= Lane(s.hosts, src, dst).numPacketsAcked + |Lane(s.hosts, src, dst).unAcked|
    ensures HeldPacket(s.hosts, src, dst, Seen(s.hosts, src, dst) + 1, p)
    ensures p.msg.Message? && p.msg.seqno == Seen(s.hosts, src, dst) + 1
  {
    LaneOf(s, src, dst);
    hide HostInv, SoundDelegate, PacketInv;
    var list := s.hosts[src].sd.sendState[dst];
    p := Packet(dst, src, list.unAcked[Seen(s.hosts, src, dst) - list.numPacketsAcked]);
  }

  lemma ResendingSteps(s: State, src: EndPoint, sent: seq<Packet>)
    requires Inv(s) && src in s.hosts && ResendsAll(s.hosts[src].sd, src, sent)
    ensures SystemNext(s, After(s, src, s.hosts[src], PacketSet(sent)), HostStep(src, SendsOf(sent)))
  {
    HostOf(s, src);
    var g := s.hosts[src];
    AllSentAreHeld(g, src, sent);
    hide Complete, UnAckedMessages, HostInv, ResendsAll, FramedNext;
    RetransmittedIsNext(g, sent);
    SendsOfSend(sent);
    assert s.hosts[src := g] == s.hosts;
  }

  lemma AllSentAreHeld(g: Host, src: EndPoint, sent: seq<Packet>)
    requires g.constants.me == src && ResendsAll(g.sd, src, sent)
    requires forall d :: d in g.sd.sendState ==> Sequential(g.sd.sendState[d], d)
    ensures PacketSet(sent) == UnAckedMessages(g.sd, src)
    ensures forall i :: 0 <= i < |sent| ==> sent[i].msg.Message? && sent[i].src == src
  {
    forall p | p in UnAckedMessages(g.sd, src)
      ensures p in sent
    {
      var dst, i :| dst in g.sd.sendState && 0 <= i < |g.sd.sendState[dst].unAcked|
        && p == Packet(g.sd.sendState[dst].unAcked[i].dst, src, g.sd.sendState[dst].unAcked[i]);
      assert OnList(g.sd, dst, i);
    }
    forall p | p in sent
      ensures p in UnAckedMessages(g.sd, src)
    {
      var dst, i :| OnList(g.sd, dst, i) && p == Packet(dst, src, g.sd.sendState[dst].unAcked[i]);
      assert Sequential(g.sd.sendState[dst], dst);
    }
    forall j | 0 <= j < |sent|
      ensures sent[j].msg.Message? && sent[j].src == src
    {
      assert sent[j] in sent;
      var dst, i :| OnList(g.sd, dst, i) && sent[j] == Packet(dst, src, g.sd.sendState[dst].unAcked[i]);
      assert Sequential(g.sd.sendState[dst], dst);
    }
  }

  /**
   In any state of a run, when a Delegate is on its way and its receiver's buffer is free, the sender may resend all
   it holds and the receiver then take in the message it waits for; if that is the Delegate, its claim is buffered.
   */
  lemma InFlightIsRedelivered(r: Run, args: seq<seq<Byte>>, t: nat, k: Key, src: EndPoint, dst: EndPoint, n: nat,
                              sent: seq<Packet>)
    returns (p: Packet, s1: State, s2: State)
    requires IsRun(r, args) && t <= |r.events|
    requires var s := r.states[t];
             && Claims(s.hosts, k, InFlight(src, dst, n)) && s.hosts[dst].receivedPacket.None?
             && ResendsAll(s.hosts[src].sd, src, sent)
    ensures var s := r.states[t];
            && p in sent && HeldPacket(s.hosts, src, dst, Seen(s.hosts, src, dst) + 1, p)
            && s1 == State(s.hosts, s.network + PacketSet(sent))
            && SystemNext(s, s1, HostStep(src, SendsOf(sent)))
            && s2.hosts.Keys == s.hosts.Keys && s2.hosts[dst].receivedPacket == Some(p)
            && SystemNext(s1, s2, HostStep(dst, TakeIn(s.hosts[dst], p)))
            && Seen(s2.hosts, src, dst) == Seen(s.hosts, src, dst) + 1
            && (n == Seen(s.hosts, src, dst) + 1 ==> Claims(s2.hosts, k, Buffered(dst)))
  {
    hide SystemInit, EveryKeyClaimedOnce, GlobalValue, Replay, ServedLog, Inv, SystemNext, ResendsAll, TakeIn,
         SentPackets;
    RunsServeOneTable(r, args, t);
    var s := r.states[t];
    p := AwaitedIsHeld(s, src, dst, n);
    HeldIsResent(s.hosts, src, dst, Seen(s.hosts, src, dst) + 1, p, sent);
    ResendingSteps(s, src, sent);
    s1 := After(s, src, s.hosts[src], PacketSet(sent));
    assert s.hosts[src := s.hosts[src]] == s.hosts;
    HostOf(s, dst);
    TakingInSteps(s1, p, TookIn(s.hosts[dst], p));
    s2 := After(s1, dst, TookIn(s.hosts[dst], p), SentPackets(TakeIn(s.hosts[dst], p)));
  }

  lemma HeldIsResent(hosts: map<EndPoint, Host>, src: EndPoint, dst: EndPoint, n: nat, p: Packet, sent: seq<Packet>)
    requires HeldPacket(hosts, src, dst, n, p) && ResendsAll(hosts[src].sd, src, sent)
    ensures p in sent
  {
    assert OnList(hosts[src].sd, dst, n - hosts[src].sd.sendState[dst].numPacketsAcked - 1);
  }

}
