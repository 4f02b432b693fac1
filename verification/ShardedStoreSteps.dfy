/** One lemma for each kind of host step: the invariant is kept and claims move one to one. */
module ShardedStoreSteps {
  import opened Options
  import opened KeyRanges
  import opened SingleDelivery
  import opened HostProtocol
  import opened ShardedStore

  // ----- acknowledgement lists -----

  lemma {:induction false} TruncateDropsAcked(a: AckState, n: nat, dst: EndPoint)
    requires Sequential(a, dst)
    requires n >= a.numPacketsAcked
    ensures var drop := if n - a.numPacketsAcked <= |a.unAcked| then n - a.numPacketsAcked else |a.unAcked|;
            TruncateUnAcked(a.unAcked, n) == a.unAcked[drop..]
    decreases |a.unAcked|
  {
    if |a.unAcked| > 0 && a.unAcked[0].seqno <= n {
      var rest := AckState(a.numPacketsAcked + 1, a.unAcked[1..]);
      assert forall i :: 0 <= i < |rest.unAcked| ==> rest.unAcked[i] == a.unAcked[i + 1];
      TruncateDropsAcked(rest, n, dst);
      var drop := if n - a.numPacketsAcked <= |a.unAcked| then n - a.numPacketsAcked else |a.unAcked|;
      assert a.unAcked[1..][drop - 1..] == a.unAcked[drop..];
    }
  }

  lemma AckedListStaysSequential(a: AckState, n: nat, dst: EndPoint)
    requires Sequential(a, dst)
    requires n > a.numPacketsAcked
    ensures Sequential(AckState(n, TruncateUnAcked(a.unAcked, n)), dst)
  {
    TruncateDropsAcked(a, n, dst);
  }

  lemma AckKeepsLane(a: AckState, n: nat, seen: nat, s: EndPoint, d: EndPoint, network: set<Packet>)
    requires LaneInv(a, seen, s, d, network)
    requires a.numPacketsAcked < n <= seen
    ensures LaneInv(AckState(n, TruncateUnAcked(a.unAcked, n)), seen, s, d, network)
  {
    TruncateDropsAcked(a, n, d);
    hide SoundDelegate, EndPoint.ValidPhysicalAddress;
    var a' := AckState(n, TruncateUnAcked(a.unAcked, n));
    forall p | p in network
      ensures PacketInv(p, a', seen, s, d)
    {
      assert PacketInv(p, a, seen, s, d);
    }
  }

  lemma SendKeepsLane(a: AckState, m: Msg, seen: nat, s: EndPoint, d: EndPoint, network: set<Packet>)
    requires LaneInv(a, seen, s, d, network)
    requires SoundDelegate(m) && d.ValidPhysicalAddress()
    ensures LaneInv(a.(unAcked := a.unAcked + [Message(a.numPacketsAcked + |a.unAcked| + 1, d, m)]), seen, s, d,
        network)
  {
    hide SoundDelegate, EndPoint.ValidPhysicalAddress;
    var a' := a.(unAcked := a.unAcked + [Message(a.numPacketsAcked + |a.unAcked| + 1, d, m)]);
    forall p | p in network
      ensures PacketInv(p, a', seen, s, d)
    {
      assert PacketInv(p, a, seen, s, d);
    }
  }

  // ----- lifting a host step to the system -----

  /** `h` takes the place of host `id`, which sends `out`. */
  function After(s: State, id: EndPoint, h: Host, out: set<Packet>): State {
    State(s.hosts[id := h], s.network + out)
  }

  ghost predicate LocalInv(s: State, id: EndPoint, h: Host, out: set<Packet>) {
    var s' := After(s, id, h, out);
    && HostInv(id, h, s.hosts.Keys)
    && (forall p :: p in out ==> p.src == id)
    && (forall y :: y in s.hosts ==> LaneInv(Lane(s'.hosts, id, y), Seen(s'.hosts, id, y), id, y, s'.network))
    && (forall x :: x in s.hosts ==> LaneInv(Lane(s'.hosts, x, id), Seen(s'.hosts, x, id), x, id, s'.network))
  }

  lemma OtherLanesUnaffected(a: AckState, seen: nat, x: EndPoint, y: EndPoint, network: set<Packet>,
                             id: EndPoint, out: set<Packet>)
    requires LaneInv(a, seen, x, y, network)
    requires x != id && y != id
    requires forall p :: p in out ==> p.src == id
    ensures LaneInv(a, seen, x, y, network + out)
  {
    forall p | p in network + out
      ensures PacketInv(p, a, seen, x, y)
    {
      if p in network { assert PacketInv(p, a, seen, x, y); }
    }
  }

  lemma LaneOf(s: State, x: EndPoint, y: EndPoint)
    requires Inv(s) && x in s.hosts && y in s.hosts
    ensures LaneInv(Lane(s.hosts, x, y), Seen(s.hosts, x, y), x, y, s.network)
  {
    hide LaneInv, HostInv;
  }

  lemma HostOf(s: State, id: EndPoint)
    requires Inv(s) && id in s.hosts
    ensures HostInv(id, s.hosts[id], s.hosts.Keys)
  {
    hide LaneInv, HostInv;
  }

  lemma LocalToGlobal(s: State, id: EndPoint, h: Host, out: set<Packet>)
    requires Inv(s) && id in s.hosts
    requires LocalInv(s, id, h, out)
    ensures Inv(After(s, id, h, out))
  {
    hide LaneInv, HostInv;
    var s' := After(s, id, h, out);
    assert s'.hosts.Keys == s.hosts.Keys;
    forall x, y | x in s'.hosts && y in s'.hosts
      ensures LaneInv(Lane(s'.hosts, x, y), Seen(s'.hosts, x, y), x, y, s'.network)
    {
      if x != id && y != id {
        LaneOf(s, x, y);
        OtherLanesUnaffected(Lane(s.hosts, x, y), Seen(s.hosts, x, y), x, y, s.network, id, out);
      }
    }
  }

  /** If every delegate on its way stays as it was, and so do the owners' tables, no claim moves. */
  lemma SameCarriedMovesNothing(s: State, id: EndPoint, h: Host)
    requires id in s.hosts
    requires h.delegationMap == s.hosts[id].delegationMap && h.h == s.hosts[id].h
    requires forall c: Claim :: Carried(s.hosts, c) == Carried(s.hosts[id := h], c)
    ensures Moved(s.hosts, s.hosts[id := h], Stay, None)
  {
  }

  // ----- taking in a packet -----

  ghost predicate Takes(s: State, id: EndPoint, h: Host, pkt: Packet, out: set<Packet>, ack: Packet) {
    && Inv(s) && id in s.hosts
    && pkt in s.network && pkt.dst == id
    && s.hosts[id].receivedPacket.None?
    && SingleDelivery.Receive(s.hosts[id].sd, h.sd, pkt, ack, out)
    && h == s.hosts[id].(sd := h.sd,
                         receivedPacket := if NewSingleMessage(s.hosts[id].sd, pkt) then Some(pkt) else None)
    && (pkt.msg.Ack? ==> h.sd.receiveState == s.hosts[id].sd.receiveState)
    && forall p :: p in out ==> p.src == id
  }

  lemma AckIsSeen(a: AckState, seen: nat, s: EndPoint, d: EndPoint, network: set<Packet>, pkt: Packet)
    requires LaneInv(a, seen, s, d, network)
    requires pkt in network && pkt.src == d && pkt.dst == s && pkt.msg.Ack?
    ensures pkt.msg.ackSeqno <= seen
  {
    assert PacketInv(pkt, a, seen, s, d);
  }

  lemma AckedHostInv(id: EndPoint, g: Host, h: Host, ids: set<EndPoint>, pkt: Packet, ack: Packet, out: set<Packet>)
    requires HostInv(id, g, ids)
    requires pkt.msg.Ack? && SingleDelivery.Receive(g.sd, h.sd, pkt, ack, out)
    requires h == g.(sd := h.sd, receivedPacket := None)
    ensures HostInv(id, h, ids)
  {
    hide SoundDelegate, Sequential, EndPoint.ValidPhysicalAddress, Complete;
    var a := AckStateLookup(pkt.src, g.sd.sendState);
    assert Sequential(AckState(0, []), pkt.src) by { NothingSentIsSequential(pkt.src); }
    if pkt.msg.ackSeqno > a.numPacketsAcked {
      AckedListStaysSequential(a, pkt.msg.ackSeqno, pkt.src);
    }
  }

  lemma NothingSentIsSequential(dst: EndPoint)
    ensures Sequential(AckState(0, []), dst)
  {
  }

  lemma TakeAckKeepsInv(s: State, id: EndPoint, h: Host, pkt: Packet, out: set<Packet>, ack: Packet)
    requires Takes(s, id, h, pkt, out, ack) && pkt.msg.Ack?
    ensures Inv(After(s, id, h, out))
  {
    hide LaneInv, HostInv, SoundDelegate, EndPoint.ValidPhysicalAddress, Carried, Inv;
    var n := pkt.msg.ackSeqno;
    HostOf(s, id);
    AckedHostInv(id, s.hosts[id], h, s.hosts.Keys, pkt, ack, out);
    assert s.network + out == s.network;
    forall x, y | x in s.hosts && y in s.hosts
      ensures LaneInv(Lane(s.hosts[id := h], x, y), Seen(s.hosts[id := h], x, y), x, y, s.network + out)
    {
      LaneOf(s, x, y);
      var a, seen := Lane(s.hosts, x, y), Seen(s.hosts, x, y);
      if x == id && y == pkt.src && n > a.numPacketsAcked {
        AckIsSeen(a, seen, id, y, s.network, pkt);
        AckKeepsLane(a, n, seen, id, y, s.network);
      }
    }
    LocalToGlobal(s, id, h, out);
  }

  lemma AckKeepsHeld(a: AckState, seen: nat, s: EndPoint, d: EndPoint, network: set<Packet>, n: nat, k: nat)
    requires LaneInv(a, seen, s, d, network)
    requires a.numPacketsAcked < n <= seen
    ensures Held(AckState(n, TruncateUnAcked(a.unAcked, n)), seen, k) == Held(a, seen, k)
  {
    TruncateDropsAcked(a, n, d);
  }

  lemma TakeAckMovesNothing(s: State, id: EndPoint, h: Host, pkt: Packet, out: set<Packet>, ack: Packet)
    requires Takes(s, id, h, pkt, out, ack) && pkt.msg.Ack?
    ensures Moved(s.hosts, s.hosts[id := h], Stay, None)
  {
    hide HostInv, LaneInv, SoundDelegate, Held, Moved;
    var g, n := s.hosts[id], pkt.msg.ackSeqno;
    var hosts' := s.hosts[id := h];
    forall c: Claim
      ensures Carried(s.hosts, c) == Carried(hosts', c)
    {
      if c.InFlight? && c.src in s.hosts && c.dst in s.hosts {
        var a, seen := Lane(s.hosts, c.src, c.dst), Seen(s.hosts, c.src, c.dst);
        assert Seen(hosts', c.src, c.dst) == seen;
        if c.src == id && c.dst == pkt.src && n > a.numPacketsAcked {
          LaneOf(s, id, c.dst);
          AckIsSeen(a, seen, id, c.dst, s.network, pkt);
          AckKeepsHeld(a, seen, id, c.dst, s.network, n, c.seqno);
        } else {
          assert Lane(hosts', c.src, c.dst) == a;
        }
      }
    }
    SameCarriedMovesNothing(s, id, h);
  }

  lemma AcksKeepLane(a: AckState, seen: nat, seen': nat, s: EndPoint, d: EndPoint, network: set<Packet>,
                     out: set<Packet>)
    requires LaneInv(a, seen, s, d, network)
    requires seen <= seen' <= a.numPacketsAcked + |a.unAcked|
    requires forall p :: p in out ==> p.msg.Ack? && (p.src == d && p.dst == s ==> p.msg.ackSeqno <= seen')
    ensures LaneInv(a, seen', s, d, network + out)
  {
    forall p | p in network + out
      ensures PacketInv(p, a, seen', s, d)
    {
      if p in network { assert PacketInv(p, a, seen, s, d); }
    }
  }

  lemma FreshMessageIsHeld(a: AckState, seen: nat, s: EndPoint, d: EndPoint, network: set<Packet>, pkt: Packet)
    requires LaneInv(a, seen, s, d, network)
    requires pkt in network && pkt.src == s && pkt.dst == d && pkt.msg.Message? && pkt.msg.seqno == seen + 1
    ensures a.numPacketsAcked < pkt.msg.seqno <= a.numPacketsAcked + |a.unAcked|
    ensures a.unAcked[pkt.msg.seqno - a.numPacketsAcked - 1] == pkt.msg
    ensures SoundDelegate(pkt.msg.m) && pkt.msg.dst == d && d.ValidPhysicalAddress()
  {
    assert PacketInv(pkt, a, seen, s, d);
    assert SoundDelegate(a.unAcked[pkt.msg.seqno - a.numPacketsAcked - 1].m);
  }

  /** A message that its receiver has not seen is the very one its sender still holds. */
  lemma FreshHostMessageIsHeld(s: State, id: EndPoint, pkt: Packet)
    requires Inv(s) && id in s.hosts && pkt.src in s.hosts
    requires pkt in s.network && pkt.dst == id && NewSingleMessage(s.hosts[id].sd, pkt)
    ensures Carried(s.hosts, InFlight(pkt.src, id, pkt.msg.seqno)) == Some(pkt.msg.m)
    ensures pkt.msg.seqno <= Lane(s.hosts, pkt.src, id).numPacketsAcked + |Lane(s.hosts, pkt.src, id).unAcked|
    ensures SoundDelegate(pkt.msg.m) && pkt.msg.dst == id && id.ValidPhysicalAddress()
  {
    hide HostInv, LaneInv, EndPoint.ValidPhysicalAddress;
    LaneOf(s, pkt.src, id);
    FreshMessageIsHeld(Lane(s.hosts, pkt.src, id), Seen(s.hosts, pkt.src, id), pkt.src, id, s.network, pkt);
  }

  lemma LaneBounds(s: State, x: EndPoint, y: EndPoint)
    requires Inv(s) && x in s.hosts && y in s.hosts
    ensures Lane(s.hosts, x, y).numPacketsAcked <= Seen(s.hosts, x, y)
         <= Lane(s.hosts, x, y).numPacketsAcked + |Lane(s.hosts, x, y).unAcked|
  {
    hide HostInv;
    LaneOf(s, x, y);
  }

  predicate AcksOnly(out: set<Packet>, pkt: Packet, id: EndPoint, receiveState: map<EndPoint, nat>) {
    forall p :: p in out ==>
      && pkt.msg.Message?
      && p == Packet(pkt.src, id, Ack(pkt.msg.seqno))
      && pkt.msg.seqno <= TombstoneLookup(pkt.src, receiveState)
  }

  lemma TakenHostInv(id: EndPoint, g: Host, h: Host, ids: set<EndPoint>, pkt: Packet, ack: Packet, out: set<Packet>)
    requires HostInv(id, g, ids)
    requires !pkt.msg.Ack? && SingleDelivery.Receive(g.sd, h.sd, pkt, ack, out)
    requires h == g.(sd := h.sd, receivedPacket := if NewSingleMessage(g.sd, pkt) then Some(pkt) else None)
    requires pkt.src in ids && NewSingleMessage(g.sd, pkt) ==>
               SoundDelegate(pkt.msg.m) && pkt.msg.dst == id && id.ValidPhysicalAddress()
    ensures HostInv(id, h, ids)
    ensures h.sd.sendState == g.sd.sendState
    ensures AcksOnly(out, pkt, pkt.dst, h.sd.receiveState)
  {
    hide SoundDelegate, Sequential, EndPoint.ValidPhysicalAddress, Complete;
  }

  lemma TakenLane(s: State, id: EndPoint, h: Host, pkt: Packet, out: set<Packet>, x: EndPoint, y: EndPoint)
    requires Inv(s) && id in s.hosts && x in s.hosts && y in s.hosts
    requires h.sd.sendState == s.hosts[id].sd.sendState
    requires AcksOnly(out, pkt, id, h.sd.receiveState)
    requires Seen(s.hosts, x, y) <= Seen(s.hosts[id := h], x, y)
          <= Lane(s.hosts, x, y).numPacketsAcked + |Lane(s.hosts, x, y).unAcked|
    ensures LaneInv(Lane(s.hosts[id := h], x, y), Seen(s.hosts[id := h], x, y), x, y, s.network + out)
  {
    hide LaneInv, HostInv;
    LaneOf(s, x, y);
    AcksKeepLane(Lane(s.hosts, x, y), Seen(s.hosts, x, y), Seen(s.hosts[id := h], x, y), x, y, s.network, out);
  }

  lemma TakenSeen(s: State, id: EndPoint, h: Host, pkt: Packet, out: set<Packet>, ack: Packet, x: EndPoint, y: EndPoint)
    requires Takes(s, id, h, pkt, out, ack) && !pkt.msg.Ack?
    requires x in s.hosts && y in s.hosts
    ensures Seen(s.hosts, x, y) <= Seen(s.hosts[id := h], x, y)
         <= Lane(s.hosts, x, y).numPacketsAcked + |Lane(s.hosts, x, y).unAcked|
  {
    hide LaneInv, HostInv, SoundDelegate, EndPoint.ValidPhysicalAddress, Carried, Inv;
    LaneBounds(s, x, y);
    if y == id && x == pkt.src && NewSingleMessage(s.hosts[id].sd, pkt) {
      FreshHostMessageIsHeld(s, id, pkt);
    }
  }

  lemma TakeMessageKeepsInv(s: State, id: EndPoint, h: Host, pkt: Packet, out: set<Packet>, ack: Packet)
    requires Takes(s, id, h, pkt, out, ack) && !pkt.msg.Ack?
    ensures Inv(After(s, id, h, out))
  {
    hide LaneInv, HostInv, SoundDelegate, EndPoint.ValidPhysicalAddress, Carried, Inv, SingleDelivery.Receive,
         Lane, Seen;
    HostOf(s, id);
    if pkt.src in s.hosts && NewSingleMessage(s.hosts[id].sd, pkt) {
      FreshHostMessageIsHeld(s, id, pkt);
    }
    TakenHostInv(id, s.hosts[id], h, s.hosts.Keys, pkt, ack, out);
    forall x, y | x in s.hosts && y in s.hosts
      ensures LaneInv(Lane(s.hosts[id := h], x, y), Seen(s.hosts[id := h], x, y), x, y, s.network + out)
    {
      TakenSeen(s, id, h, pkt, out, ack, x, y);
      TakenLane(s, id, h, pkt, out, x, y);
    }
    LocalToGlobal(s, id, h, out);
  }

  lemma TakeMessageMoves(s: State, id: EndPoint, h: Host, pkt: Packet, out: set<Packet>, ack: Packet)
    requires Takes(s, id, h, pkt, out, ack) && !pkt.msg.Ack?
    ensures Moved(s.hosts, s.hosts[id := h],
                  if pkt.src in s.hosts && NewSingleMessage(s.hosts[id].sd, pkt)
                  then Land(pkt.src, id, pkt.msg.seqno) else Stay, None)
  {
    hide HostInv, LaneInv, SoundDelegate, Moved, Inv, EndPoint.ValidPhysicalAddress;
    var hosts' := s.hosts[id := h];
    if pkt.src in s.hosts && NewSingleMessage(s.hosts[id].sd, pkt) {
      FreshHostMessageIsHeld(s, id, pkt);
      assert Seen(hosts', pkt.src, id) == pkt.msg.seqno == Seen(s.hosts, pkt.src, id) + 1;
      forall c: Claim
        ensures Carried(hosts', c) ==
          if c == Buffered(id) then Some(pkt.msg.m)
          else if c == InFlight(pkt.src, id, pkt.msg.seqno) then None
          else Carried(s.hosts, c)
      {
        if c.InFlight? && c.src in s.hosts && c.dst in s.hosts {
          assert Lane(hosts', c.src, c.dst) == Lane(s.hosts, c.src, c.dst);
        }
      }
      LandingMoves(s, id, h, pkt);
    } else {
      forall c: Claim
        ensures Carried(s.hosts, c) == Carried(hosts', c)
      {
        if c.InFlight? && c.src in s.hosts && c.dst in s.hosts {
          assert Lane(hosts', c.src, c.dst) == Lane(s.hosts, c.src, c.dst);
        }
      }
      SameCarriedMovesNothing(s, id, h);
    }
  }

  lemma LandingMoves(s: State, id: EndPoint, h: Host, pkt: Packet)
    requires id in s.hosts && pkt.msg.Message?
    requires h.delegationMap == s.hosts[id].delegationMap && h.h == s.hosts[id].h
    requires Carried(s.hosts, Buffered(id)) == None
    requires Carried(s.hosts, InFlight(pkt.src, id, pkt.msg.seqno)) == Some(pkt.msg.m)
    requires forall c: Claim ::
      Carried(s.hosts[id := h], c) == (if c == Buffered(id) then Some(pkt.msg.m)
                                       else if c == InFlight(pkt.src, id, pkt.msg.seqno) then None
                                       else Carried(s.hosts, c))
    ensures Moved(s.hosts, s.hosts[id := h], Land(pkt.src, id, pkt.msg.seqno), None)
  {
    hide Carried;
  }

  // ----- processing the buffered packet -----

  lemma QuietLane(a: AckState, seen: nat, x: EndPoint, y: EndPoint, network: set<Packet>, out: set<Packet>)
    requires LaneInv(a, seen, x, y, network)
    requires forall p :: p in out ==> PacketInv(p, a, seen, x, y)
    ensures LaneInv(a, seen, x, y, network + out)
  {
    forall p | p in network + out
      ensures PacketInv(p, a, seen, x, y)
    {
      if p in network { assert PacketInv(p, a, seen, x, y); }
    }
  }

  /** What is sent is no news to any host: it goes to a client, or its sender still holds it. */
  predicate NoNews(p: Packet, h: Host, id: EndPoint, ids: set<EndPoint>) {
    && p.src == id
    && (p.dst in ids ==> p.msg.Message? && PacketInv(p, AckStateLookup(p.dst, h.sd.sendState), 0, id, p.dst))
  }

  lemma NoNewsKeepsInv(s: State, id: EndPoint, h: Host, out: set<Packet>)
    requires Inv(s) && id in s.hosts && HostInv(id, h, s.hosts.Keys)
    requires h.sd.receiveState == s.hosts[id].sd.receiveState
    requires forall y :: y in s.hosts ==>
               AckStateLookup(y, h.sd.sendState) == AckStateLookup(y, s.hosts[id].sd.sendState)
    requires forall p :: p in out ==> NoNews(p, h, id, s.hosts.Keys)
    ensures Inv(After(s, id, h, out))
  {
    hide HostInv, LaneInv, Inv;
    forall x, y | x in s.hosts && y in s.hosts
      ensures LaneInv(Lane(s.hosts[id := h], x, y), Seen(s.hosts[id := h], x, y), x, y, s.network + out)
    {
      LaneOf(s, x, y);
      QuietLane(Lane(s.hosts, x, y), Seen(s.hosts, x, y), x, y, s.network, out);
    }
    LocalToGlobal(s, id, h, out);
  }

  /** The host processes its buffered packet, which came from `src` and held `m`. */
  ghost predicate Processes(s: State, id: EndPoint, h: Host) {
    && Inv(s) && id in s.hosts
    && s.hosts[id].receivedPacket.Some?
    && h.receivedPacket == None
    && h.constants == s.hosts[id].constants
  }

  /** Nothing but the client's lane and the store's own entry for one key changes. */
  ghost predicate AnswersClient(g: Host, h: Host, src: EndPoint, out: set<Packet>) {
    && h.delegationMap == g.delegationMap
    && (forall k :: k in h.h ==> ValidValue(h.h[k]))
    && h.sd.receiveState == g.sd.receiveState
    && (|| (h.sd.sendState == g.sd.sendState && out == {})
        || exists sm, m :: SendSingleMessage(g.sd, h.sd, m, src, Some(sm), g.constants.params)
                           && out == {Packet(src, g.constants.me, sm)})
  }

  lemma SentListStaysSequential(pre: Delivery, post: Delivery, m: Msg, dst: EndPoint, sm: Option<SingleMessage>,
                                params: Parameters)
    requires SendSingleMessage(pre, post, m, dst, sm, params)
    requires forall d :: d in pre.sendState ==> Sequential(pre.sendState[d], d)
    ensures forall d :: d in post.sendState ==> Sequential(post.sendState[d], d)
    ensures post.receiveState == pre.receiveState
    ensures forall d :: d != dst ==> AckStateLookup(d, post.sendState) == AckStateLookup(d, pre.sendState)
  {
  }

  lemma AnsweredHostInv(id: EndPoint, g: Host, h: Host, ids: set<EndPoint>, src: EndPoint, out: set<Packet>)
    requires HostInv(id, g, ids) && src !in ids
    requires h.constants == g.constants && h.receivedPacket == None
    requires AnswersClient(g, h, src, out)
    ensures HostInv(id, h, ids)
    ensures forall y :: y in ids ==> AckStateLookup(y, h.sd.sendState) == AckStateLookup(y, g.sd.sendState)
    ensures forall p :: p in out ==> NoNews(p, h, id, ids)
  {
    hide SoundDelegate, Sequential, EndPoint.ValidPhysicalAddress, Complete, SendSingleMessage;
    if h.sd.sendState != g.sd.sendState || out != {} {
      var sm, m :| SendSingleMessage(g.sd, h.sd, m, src, Some(sm), g.constants.params)
                   && out == {Packet(src, g.constants.me, sm)};
      SentListStaysSequential(g.sd, h.sd, m, src, Some(sm), g.constants.params);
    }
  }

  lemma AnswerKeepsInv(s: State, id: EndPoint, h: Host, out: set<Packet>)
    requires Processes(s, id, h)
    requires s.hosts[id].receivedPacket.value.src !in s.hosts
    requires AnswersClient(s.hosts[id], h, s.hosts[id].receivedPacket.value.src, out)
    ensures Inv(After(s, id, h, out))
  {
    hide HostInv, LaneInv, Inv, AnswersClient;
    HostOf(s, id);
    AnsweredHostInv(id, s.hosts[id], h, s.hosts.Keys, s.hosts[id].receivedPacket.value.src, out);
    assert h.sd.receiveState == s.hosts[id].sd.receiveState by {
      AnswerKeepsTombstones(s.hosts[id], h, s.hosts[id].receivedPacket.value.src, out);
    }
    NoNewsKeepsInv(s, id, h, out);
  }

  lemma AnswerKeepsTombstones(g: Host, h: Host, src: EndPoint, out: set<Packet>)
    requires AnswersClient(g, h, src, out)
    ensures h.sd.receiveState == g.sd.receiveState
    ensures h.delegationMap == g.delegationMap
  {
  }

  lemma AnswerCarriesTheSame(s: State, id: EndPoint, h: Host, out: set<Packet>, c: Claim)
    requires Processes(s, id, h)
    requires s.hosts[id].receivedPacket.value.src !in s.hosts
    requires AnswersClient(s.hosts[id], h, s.hosts[id].receivedPacket.value.src, out)
    ensures Carried(s.hosts, c) == Carried(s.hosts[id := h], c)
  {
    hide HostInv, LaneInv, Inv, AnswersClient, Held;
    HostOf(s, id);
    AnsweredHostInv(id, s.hosts[id], h, s.hosts.Keys, s.hosts[id].receivedPacket.value.src, out);
    AnswerKeepsTombstones(s.hosts[id], h, s.hosts[id].receivedPacket.value.src, out);
  }

  /** The request that a step appended to the log of served requests. */
  function Served(g: Host, h: Host): Option<AppRequest> {
    if |h.receivedRequests| == |g.receivedRequests| + 1 then Some(h.receivedRequests[|g.receivedRequests|]) else None
  }

  /** `out` is the one answer `m` to `src`, newly sent. */
  ghost predicate SendsAnswer(g: Host, h: Host, src: EndPoint, m: Msg, out: set<Packet>) {
    exists sm :: SendSingleMessage(g.sd, h.sd, m, src, Some(sm), g.constants.params)
                 && sm.Message? && sm.m == m && out == {Packet(src, g.constants.me, sm)}
  }

  /** What serving the buffered request `m` from `src` means, whatever the outcome. */
  ghost predicate ServesAs(g: Host, h: Host, src: EndPoint, m: Msg, seqno: nat, out: set<Packet>)
    requires Complete(g.delegationMap) && (m.GetRequest? || m.SetRequest?)
  {
    match Served(g, h)
    case None => h.h == g.h && (out == {} || SendsAnswer(g, h, src, Redirect(m.key, g.delegationMap[m.key]), out))
    case Some(r) =>
      && g.delegationMap[m.key] == g.constants.me
      && (if m.GetRequest? then
            && r == AppGetRequest(seqno, m.key)
            && h.h == g.h
            && SendsAnswer(g, h, src, Reply(m.key, Lookup(g.h, m.key)), out)
          else
            && r == AppSetRequest(seqno, m.key, m.ov)
            && h.h == ApplySet(g.h, m.key, m.ov)
            && ValidOptionalValue(m.ov)
            && SendsAnswer(g, h, src, Reply(m.key, m.ov), out))
  }

  lemma GetServes(g: Host, h: Host, pkt: Packet, out: set<Packet>)
    requires Complete(g.delegationMap) && pkt.msg.Message?
    requires NextGetRequest(g, h, pkt, out)
    requires forall k :: k in g.h ==> ValidValue(g.h[k])
    ensures AnswersClient(g, h, pkt.src, out)
    ensures ServesAs(g, h, pkt.src, pkt.msg.m, pkt.msg.seqno, out)
  {
  }

  lemma SetServes(g: Host, h: Host, pkt: Packet, out: set<Packet>)
    requires Complete(g.delegationMap) && pkt.msg.Message?
    requires NextSetRequest(g, h, pkt, out)
    requires forall k :: k in g.h ==> ValidValue(g.h[k])
    ensures AnswersClient(g, h, pkt.src, out)
    ensures ServesAs(g, h, pkt.src, pkt.msg.m, pkt.msg.seqno, out)
  {
    var sm, replym, b :|
      NextSetRequestComplete(g, h, pkt.src, pkt.msg.seqno, pkt.msg.m, sm, replym, out, b);
    hide SendSingleMessage;
    if b && ValidOptionalValue(pkt.msg.m.ov) {
      assert SendSingleMessage(g.sd, h.sd, replym, pkt.src, Some(sm), g.constants.params);
      SentIsWhatWasSaid(g.sd, h.sd, replym, pkt.src, sm, g.constants.params);
      assert SendsAnswer(g, h, pkt.src, replym, out);
    }
  }

  lemma SentIsWhatWasSaid(pre: Delivery, post: Delivery, m: Msg, dst: EndPoint, sm: SingleMessage, params: Parameters)
    requires SendSingleMessage(pre, post, m, dst, Some(sm), params)
    ensures sm.Message? && sm.m == m && post.receiveState == pre.receiveState
  {
  }

  lemma ServeMoves(s: State, id: EndPoint, h: Host, out: set<Packet>, m: Msg, seqno: nat)
    requires Processes(s, id, h) && EveryKeyClaimedOnce(s.hosts)
    requires s.hosts[id].receivedPacket.value.src !in s.hosts
    requires m.GetRequest? || m.SetRequest?
    requires Complete(s.hosts[id].delegationMap)
    requires AnswersClient(s.hosts[id], h, s.hosts[id].receivedPacket.value.src, out)
    requires ServesAs(s.hosts[id], h, s.hosts[id].receivedPacket.value.src, m, seqno, out)
    ensures Moved(s.hosts, s.hosts[id := h], Stay, Served(s.hosts[id], h))
    ensures Served(s.hosts[id], h).Some? ==> Claims(s.hosts, m.key, Owner(id))
  {
    hide Carried, Inv, HostInv, LaneInv, AnswersClient, SendsAnswer;
    var g := s.hosts[id];
    AnswerKeepsTombstones(g, h, g.receivedPacket.value.src, out);
    HostOf(s, id);
    assert g.constants.me == id by { HostKnowsItself(id, g, s.hosts.Keys); }
    forall c: Claim
      ensures Carried(s.hosts, c) == Carried(s.hosts[id := h], c)
    {
      AnswerCarriesTheSame(s, id, h, out, c);
    }
    if Served(g, h).Some? {
      assert Claims(s.hosts, m.key, Owner(id));
      assert ExactlyOneClaim(s.hosts, m.key);
    }
  }

  lemma HostKnowsItself(id: EndPoint, g: Host, ids: set<EndPoint>)
    requires HostInv(id, g, ids)
    ensures g.constants.me == id && g.constants.params == STATIC_PARAMS && Complete(g.delegationMap)
    ensures forall e :: e in g.constants.hostIds <==> e in ids
    ensures forall k :: k in g.h ==> ValidValue(g.h[k])
  {
  }

  lemma BufferedFromHostIsSound(id: EndPoint, g: Host, ids: set<EndPoint>)
    requires HostInv(id, g, ids)
    requires g.receivedPacket.Some? && g.receivedPacket.value.src in ids
    ensures g.receivedPacket.value.msg.Message? && SoundDelegate(g.receivedPacket.value.msg.m)
    ensures g.receivedPacket.value.msg.dst == id && id.ValidPhysicalAddress()
  {
  }

  // ----- adopting a delegated range -----

  lemma AdoptKeepsInv(s: State, id: EndPoint, h: Host, out: set<Packet>)
    requires Processes(s, id, h) && s.hosts[id].receivedPacket.value.msg.Message?
    requires NextDelegate(s.hosts[id], h, s.hosts[id].receivedPacket.value, out)
    ensures Inv(After(s, id, h, out))
  {
    hide Inv, LaneInv, HostInv, Carried;
    var g := s.hosts[id];
    HostOf(s, id);
    HostKnowsItself(id, g, s.hosts.Keys);
    if g.receivedPacket.value.src in s.hosts {
      BufferedFromHostIsSound(id, g, s.hosts.Keys);
    }
    assert forall k :: k in h.h ==> ValidValue(h.h[k]);
    TableChangeKeepsHostInv(id, g, h, s.hosts.Keys);
    NoNewsKeepsInv(s, id, h, out);
  }

  lemma TableChangeKeepsHostInv(id: EndPoint, g: Host, h: Host, ids: set<EndPoint>)
    requires HostInv(id, g, ids)
    requires h.constants == g.constants && h.sd == g.sd && h.receivedPacket == None
    requires Complete(h.delegationMap) && forall k :: k in h.h ==> ValidValue(h.h[k])
    ensures HostInv(id, h, ids)
  {
    hide Sequential, SoundDelegate, Complete, EndPoint.ValidPhysicalAddress;
  }

  lemma AdoptMoves(s: State, id: EndPoint, h: Host, out: set<Packet>)
    requires Processes(s, id, h) && s.hosts[id].receivedPacket.value.msg.Message?
    requires EveryKeyClaimedOnce(s.hosts)
    requires NextDelegate(s.hosts[id], h, s.hosts[id].receivedPacket.value, out)
    ensures Moved(s.hosts, s.hosts[id := h],
                  if s.hosts[id].receivedPacket.value.src in s.hosts
                  then Adopt(id, s.hosts[id].receivedPacket.value.msg.m.range) else Stay, None)
  {
    hide Inv, LaneInv, HostInv, Held, EveryKeyClaimedOnce, ValidHashtable;
    var g, hosts' := s.hosts[id], s.hosts[id := h];
    var p := g.receivedPacket.value;
    HostOf(s, id);
    HostKnowsItself(id, g, s.hosts.Keys);
    forall c: Claim | c != Buffered(id)
      ensures Carried(s.hosts, c) == Carried(hosts', c)
    {
    }
    if p.src in s.hosts {
      BufferedFromHostIsSound(id, g, s.hosts.Keys);
      assert Carried(hosts', Buffered(id)) == None;
      AdoptRangeMoves(s.hosts, id, h, p.msg.m);
    } else {
      SameCarriedMovesNothing(s, id, h);
    }
  }

  lemma AdoptRangeMoves(hosts: map<EndPoint, Host>, id: EndPoint, h: Host, m: Msg)
    requires id in hosts && m.Delegate? && EveryKeyClaimedOnce(hosts)
    requires Complete(hosts[id].delegationMap)
    requires h.delegationMap == Reassign(hosts[id].delegationMap, m.range, id)
    requires h.h == BulkUpdate(hosts[id].h, m.range, m.h)
    requires forall k :: k in m.h ==> m.range.Contains(k)
    requires Carried(hosts, Buffered(id)) == Some(m) && Carried(hosts[id := h], Buffered(id)) == None
    requires forall c: Claim :: c != Buffered(id) ==> Carried(hosts, c) == Carried(hosts[id := h], c)
    ensures Moved(hosts, hosts[id := h], Adopt(id, m.range), None)
  {
    hide Carried;
    forall k: Key, c | Claims(hosts, k, c)
      ensures c == Owner(id) ==> !m.range.Contains(k)
    {
      assert ExactlyOneClaim(hosts, k);
      if m.range.Contains(k) { assert Claims(hosts, k, Buffered(id)); }
    }
  }

  // ----- handing a range over -----

  lemma SendAddsHeld(pre: Delivery, post: Delivery, m: Msg, dst: EndPoint, sm: SingleMessage, params: Parameters,
                     seen: nat, k: nat)
    requires SendSingleMessage(pre, post, m, dst, Some(sm), params)
    requires m.Delegate?
    requires var a := AckStateLookup(dst, pre.sendState); seen <= a.numPacketsAcked + |a.unAcked|
    ensures sm == Message(sm.seqno, dst, m)
    ensures Held(AckStateLookup(dst, pre.sendState), seen, sm.seqno) == None
    ensures Held(AckStateLookup(dst, post.sendState), seen, k) ==
            if k == sm.seqno then Some(m) else Held(AckStateLookup(dst, pre.sendState), seen, k)
  {
  }

  /** The shard step that does hand over: `sm` is the Delegate sent to `recipient`. */
  ghost predicate Ships(s: State, id: EndPoint, h: Host, kr: KeyRange, recipient: EndPoint, sm: SingleMessage,
                        out: set<Packet>)
  {
    && Processes(s, id, h)
    && Complete(s.hosts[id].delegationMap)
    && s.hosts[id].receivedPacket.value.src !in s.hosts
    && NextShard(s.hosts[id], h, out, kr, recipient, sm, true)
    && !MustRejectShard(s.hosts[id], Shard(kr, recipient))
  }

  lemma ShippedDelegateIsSound(h: Hashtable, kr: KeyRange)
    requires !kr.IsEmpty() && |ExtractRange(h, kr)| < MAX_HASHTABLE_SIZE
    requires forall k :: k in h ==> ValidValue(h[k])
    ensures SoundDelegate(Delegate(kr, ExtractRange(h, kr)))
  {
  }

  lemma ShippedHostInv(id: EndPoint, g: Host, h: Host, ids: set<EndPoint>, out: set<Packet>, kr: KeyRange,
                       recipient: EndPoint, sm: SingleMessage)
    requires HostInv(id, g, ids)
    requires NextShard(g, h, out, kr, recipient, sm, true)
    requires h.receivedPacket == None
    ensures HostInv(id, h, ids)
    ensures recipient in ids && recipient != id
    ensures h.sd.receiveState == g.sd.receiveState
    ensures forall d :: d != recipient ==> AckStateLookup(d, h.sd.sendState) == AckStateLookup(d, g.sd.sendState)
  {
    hide SoundDelegate, Sequential, EndPoint.ValidPhysicalAddress, SendSingleMessage, RangeIsOn;
    SentListStaysSequential(g.sd, h.sd, Delegate(kr, ExtractRange(g.h, kr)), recipient, Some(sm), g.constants.params);
  }

  lemma SentLane(pre: Delivery, post: Delivery, m: Msg, id: EndPoint, dst: EndPoint, sm: SingleMessage,
                 params: Parameters, seen: nat, network: set<Packet>)
    requires SendSingleMessage(pre, post, m, dst, Some(sm), params)
    requires LaneInv(AckStateLookup(dst, pre.sendState), seen, id, dst, network)
    requires SoundDelegate(m) && dst.ValidPhysicalAddress()
    ensures LaneInv(AckStateLookup(dst, post.sendState), seen, id, dst, network + {Packet(dst, id, sm)})
  {
    hide SoundDelegate, EndPoint.ValidPhysicalAddress, Sequential;
    var a, a' := AckStateLookup(dst, pre.sendState), AckStateLookup(dst, post.sendState);
    SendKeepsLane(a, m, seen, id, dst, network);
    QuietLane(a', seen, id, dst, network, {Packet(dst, id, sm)});
  }

  lemma ShipKeepsInv(s: State, id: EndPoint, h: Host, kr: KeyRange, recipient: EndPoint, sm: SingleMessage,
                     out: set<Packet>)
    requires Ships(s, id, h, kr, recipient, sm, out)
    ensures Inv(After(s, id, h, out))
  {
    hide Inv, LaneInv, HostInv, SoundDelegate, SendSingleMessage, RangeIsOn, EndPoint.ValidPhysicalAddress;
    var g := s.hosts[id];
    HostOf(s, id);
    HostKnowsItself(id, g, s.hosts.Keys);
    ShippedHostInv(id, g, h, s.hosts.Keys, out, kr, recipient, sm);
    ShippedDelegateIsSound(g.h, kr);
    forall x, y | x in s.hosts && y in s.hosts
      ensures LaneInv(Lane(s.hosts[id := h], x, y), Seen(s.hosts[id := h], x, y), x, y, s.network + out)
    {
      LaneOf(s, x, y);
      var a, seen := Lane(s.hosts, x, y), Seen(s.hosts, x, y);
      if x == id && y == recipient {
        SentLane(g.sd, h.sd, Delegate(kr, ExtractRange(g.h, kr)), id, y, sm, g.constants.params, seen, s.network);
      } else {
        OtherPacketKeepsLane(a, seen, x, y, s.network, out, id, recipient);
      }
    }
    LocalToGlobal(s, id, h, out);
  }

  lemma OtherPacketKeepsLane(a: AckState, seen: nat, x: EndPoint, y: EndPoint, network: set<Packet>,
                             out: set<Packet>, id: EndPoint, recipient: EndPoint)
    requires LaneInv(a, seen, x, y, network)
    requires forall p :: p in out ==> p.src == id && p.dst == recipient && p.msg.Message?
    requires !(x == id && y == recipient)
    ensures LaneInv(a, seen, x, y, network + out)
  {
    QuietLane(a, seen, x, y, network, out);
  }

  lemma ShipMoves(s: State, id: EndPoint, h: Host, kr: KeyRange, recipient: EndPoint, sm: SingleMessage,
                  out: set<Packet>)
    requires Ships(s, id, h, kr, recipient, sm, out)
    ensures sm.Message? && Moved(s.hosts, s.hosts[id := h], Ship(id, recipient, sm.seqno, kr), None)
  {
    hide Inv, LaneInv, HostInv, SoundDelegate, SendSingleMessage, Held, EndPoint.ValidPhysicalAddress, Moved, RangeIsOn;
    var g, hosts' := s.hosts[id], s.hosts[id := h];
    var m := Delegate(kr, ExtractRange(g.h, kr));
    HostOf(s, id);
    HostKnowsItself(id, g, s.hosts.Keys);
    ShippedHostInv(id, g, h, s.hosts.Keys, out, kr, recipient, sm);
    LaneBounds(s, id, recipient);
    var seen := Seen(s.hosts, id, recipient);
    forall k: nat
      ensures Held(Lane(hosts', id, recipient), seen, k) ==
              if k == sm.seqno then Some(m) else Held(Lane(s.hosts, id, recipient), seen, k)
      ensures Held(Lane(s.hosts, id, recipient), seen, sm.seqno) == None
    {
      SendAddsHeld(g.sd, h.sd, m, recipient, sm, g.constants.params, seen, k);
    }
    forall c: Claim
      ensures Carried(hosts', c) == (if c == InFlight(id, recipient, sm.seqno) then Some(m) else Carried(s.hosts, c))
    {
      if c.InFlight? && c.src in s.hosts && c.dst in s.hosts {
        assert Seen(hosts', c.src, c.dst) == Seen(s.hosts, c.src, c.dst);
        if !(c.src == id && c.dst == recipient) {
          assert Lane(hosts', c.src, c.dst) == Lane(s.hosts, c.src, c.dst);
        }
      }
    }
    ShipRangeMoves(s.hosts, id, h, m, recipient, sm.seqno);
  }

  lemma ShipRangeMoves(hosts: map<EndPoint, Host>, id: EndPoint, h: Host, m: Msg, recipient: EndPoint, n: nat)
    requires id in hosts && m.Delegate? && recipient != id
    requires Complete(hosts[id].delegationMap)
    requires RangeIsOn(hosts[id].delegationMap, m.range, id)
    requires h.delegationMap == Reassign(hosts[id].delegationMap, m.range, recipient)
    requires h.h == BulkRemove(hosts[id].h, m.range)
    requires m.h == ExtractRange(hosts[id].h, m.range)
    requires Carried(hosts, InFlight(id, recipient, n)) == None
    requires forall c: Claim ::
      Carried(hosts[id := h], c) == (if c == InFlight(id, recipient, n) then Some(m) else Carried(hosts, c))
    ensures Moved(hosts, hosts[id := h], Ship(id, recipient, n, m.range), None)
  {
    hide Carried;
  }

  // ----- steps that move nothing -----

  /** A buffered packet is dropped without any other effect, unless it is a Delegate from a host. */
  ghost predicate Drops(s: State, id: EndPoint, h: Host) {
    && Inv(s) && id in s.hosts
    && h.constants == s.hosts[id].constants
    && h.delegationMap == s.hosts[id].delegationMap
    && h.h == s.hosts[id].h
    && h.sd == s.hosts[id].sd
    && h.receivedRequests == s.hosts[id].receivedRequests
    && (|| h.receivedPacket == s.hosts[id].receivedPacket
        || (h.receivedPacket == None && s.hosts[id].receivedPacket.Some?
            && (s.hosts[id].receivedPacket.value.src in s.hosts ==>
                  !SoundDelegate(s.hosts[id].receivedPacket.value.msg.m))))
  }

  lemma DroppedHostInv(id: EndPoint, g: Host, h: Host, ids: set<EndPoint>)
    requires HostInv(id, g, ids)
    requires h.constants == g.constants && h.delegationMap == g.delegationMap && h.h == g.h && h.sd == g.sd
    requires h.receivedPacket == None || h.receivedPacket == g.receivedPacket
    ensures HostInv(id, h, ids)
  {
    hide Sequential, SoundDelegate, Complete, EndPoint.ValidPhysicalAddress;
  }

  lemma DropMovesNothing(s: State, id: EndPoint, h: Host, out: set<Packet>)
    requires Drops(s, id, h)
    requires forall p :: p in out ==> NoNews(p, h, id, s.hosts.Keys)
    ensures Inv(After(s, id, h, out))
    ensures Moved(s.hosts, s.hosts[id := h], Stay, None)
  {
    hide Inv, HostInv, LaneInv, Held, SoundDelegate, Moved;
    var g := s.hosts[id];
    HostOf(s, id);
    DroppedHostInv(id, g, h, s.hosts.Keys);
    if g.receivedPacket.Some? && g.receivedPacket.value.src in s.hosts {
      BufferedFromHostIsSound(id, g, s.hosts.Keys);
    }
    NoNewsKeepsInv(s, id, h, out);
    forall c: Claim
      ensures Carried(s.hosts, c) == Carried(s.hosts[id := h], c)
    {
    }
    SameCarriedMovesNothing(s, id, h);
  }

  /** A Delegate from a host is never nonsensical, so it is never discarded unprocessed. */
  lemma HostDelegateIsNeverNonsensical(s: State, id: EndPoint)
    requires Inv(s) && id in s.hosts
    requires s.hosts[id].receivedPacket.Some? && s.hosts[id].receivedPacket.value.src in s.hosts
    ensures s.hosts[id].receivedPacket.value.msg.Message? && SoundDelegate(s.hosts[id].receivedPacket.value.msg.m)
    ensures !Nonsensical(s.hosts[id].receivedPacket.value)
  {
    hide Inv, LaneInv, EndPoint.ValidPhysicalAddress, ValidHashtable;
    HostOf(s, id);
    BufferedFromHostIsSound(id, s.hosts[id], s.hosts.Keys);
  }

  lemma RetransmissionIsNoNews(id: EndPoint, h: Host, ids: set<EndPoint>, p: Packet)
    requires HostInv(id, h, ids)
    requires p in UnAckedMessages(h.sd, id)
    ensures NoNews(p, h, id, ids)
  {
    hide SoundDelegate, Complete, EndPoint.ValidPhysicalAddress;
    var dst, i :| dst in h.sd.sendState && 0 <= i < |h.sd.sendState[dst].unAcked|
      && h.sd.sendState[dst].unAcked[i].Message?
      && p == Packet(h.sd.sendState[dst].unAcked[i].dst, id, h.sd.sendState[dst].unAcked[i]);
    assert Sequential(h.sd.sendState[dst], dst);
  }

}
