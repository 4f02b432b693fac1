/** At-most-once delivery as the host runs it: two tables updated in place, with 64-bit sequence numbers. */
module DeliveryImpl {
  import opened Options
  import opened KeyRanges
  import opened SingleDelivery
  import opened HostProtocol
  import opened HostOutcomes
  import opened ShardedStore
  import opened ShardedStoreSteps

  type U64 = x: int | 0 <= x < 0x1_0000_0000_0000_0000

  datatype ReceiveImplResult =
    | FreshPacket(ack: Packet)
    | DuplicatePacket(ack: Packet)
    | AckOrInvalid
  {
    function Acks(): seq<Packet> {
      if AckOrInvalid? then [] else [ack]
    }
  }

  /** Sequence numbers on the wire are 64 bits wide. */
  predicate OnWire(m: SingleMessage) {
    match m
    case Message(seqno, _, _) => seqno <= STATIC_PARAMS.maxSeqno
    case Ack(n) => n <= STATIC_PARAMS.maxSeqno
    case InvalidMessage => true
  }

  predicate ValidAckState(a: AckState, dst: EndPoint) {
    Sequential(a, dst) && a.numPacketsAcked + |a.unAcked| <= STATIC_PARAMS.maxSeqno
  }

  predicate ValidSendState(sendState: map<EndPoint, AckState>) {
    forall dst :: dst in sendState ==> ValidAckState(sendState[dst], dst)
  }

  /** The messages of one list, ready to be sent again. */
  function Resends(unAcked: seq<SingleMessage>, src: EndPoint): set<Packet> {
    set i | 0 <= i < |unAcked| && unAcked[i].Message? :: Packet(unAcked[i].dst, src, unAcked[i])
  }

  class CSingleDelivery {
    var receiveState: map<EndPoint, U64>
    var sendState: map<EndPoint, AckState>

    function View(): Delivery
      reads this
    {
      Delivery(receiveState, sendState)
    }

    predicate Valid()
      reads this
    {
      ValidSendState(sendState)
    }

    constructor ()
      ensures Valid() && View() == EMPTY_DELIVERY
    {
      receiveState, sendState := map[], map[];
    }

    /** Drops the messages that `seqnoAcked` covers from the front of the list. */
    static method Truncate(unAcked: seq<SingleMessage>, seqnoAcked: U64) returns (rest: seq<SingleMessage>)
      requires forall i :: 0 <= i < |unAcked| ==> unAcked[i].Message?
      ensures rest == TruncateUnAcked(unAcked, seqnoAcked)
    {
      var i := 0;
      while i < |unAcked| && unAcked[i].seqno <= seqnoAcked
        invariant i <= |unAcked|
        invariant TruncateUnAcked(unAcked[i..], seqnoAcked) == TruncateUnAcked(unAcked, seqnoAcked)
      {
        assert unAcked[i..][1..] == unAcked[i + 1..];
        i := i + 1;
      }
      return unAcked[i..];
    }

    method ReceiveAckImpl(pkt: Packet)
      requires Valid() && pkt.msg.Ack? && OnWire(pkt.msg)
      modifies this
      ensures Valid() && View() == Delivered(old(View()), pkt)
    {
      var n: U64 := pkt.msg.ackSeqno;
      var prior := if pkt.src in sendState then sendState[pkt.src] else AckState(0, []);
      if n <= prior.numPacketsAcked {
        return;
      }
      var rest := Truncate(prior.unAcked, n);
      AckedStateStaysValid(prior, n, pkt.src);
      sendState := sendState[pkt.src := AckState(n, rest)];
    }

    method ReceiveRealPacketImpl(pkt: Packet) returns (isFresh: bool)
      requires Valid() && pkt.msg.Message? && OnWire(pkt.msg)
      modifies `receiveState
      ensures Valid() && View() == Delivered(old(View()), pkt)
      ensures isFresh == NewSingleMessage(old(View()), pkt)
    {
      var lastSeqno: U64 := if pkt.src in receiveState then receiveState[pkt.src] else 0;
      isFresh := pkt.msg.seqno > 0 && pkt.msg.seqno - 1 == lastSeqno;
      if isFresh {
        var next: U64 := lastSeqno + 1;
        receiveState := receiveState[pkt.src := next];
      }
    }

    method MaybeAckPacketImpl(pkt: Packet) returns (ack: Option<Packet>)
      requires pkt.msg.Message?
      ensures AcksFor(View(), pkt) == match ack case None => [] case Some(p) => [p]
    {
      var lastSeqno: U64 := if pkt.src in receiveState then receiveState[pkt.src] else 0;
      if pkt.msg.seqno <= lastSeqno {
        return Some(Packet(pkt.src, pkt.dst, Ack(pkt.msg.seqno)));
      } else {
        return None;
      }
    }

    /** The tables become what delivery makes of them; a fresh or duplicate message is acknowledged. */
    method ReceiveImpl(pkt: Packet) returns (rr: ReceiveImplResult)
      requires Valid() && OnWire(pkt.msg)
      modifies this
      ensures Valid() && View() == Delivered(old(View()), pkt)
      ensures rr.Acks() == AcksFor(View(), pkt)
      ensures rr.FreshPacket? <==> NewSingleMessage(old(View()), pkt)
    {
      match pkt.msg
      case Ack(_) =>
        ReceiveAckImpl(pkt);
        return AckOrInvalid;
      case Message(_, _, _) =>
        var isFresh := ReceiveRealPacketImpl(pkt);
        var ack := MaybeAckPacketImpl(pkt);
        match ack {
          case Some(p) => return if isFresh then FreshPacket(p) else DuplicatePacket(p);
          case None => return AckOrInvalid;
        }
      case InvalidMessage =>
        return AckOrInvalid;
    }

    /** Numbers `m` and keeps it for retransmission, unless the 64-bit numbers for `dst` are used up. */
    method SendSingleCMessage(m: Msg, dst: EndPoint) returns (sm: Option<SingleMessage>)
      requires Valid()
      modifies `sendState
      ensures Valid()
      ensures SendSingleMessage(old(View()), View(), m, dst, sm, STATIC_PARAMS)
      ensures sm.Some? ==> sm.value.Message? && sm.value.dst == dst && OnWire(sm.value)
    {
      var prior := if dst in sendState then sendState[dst] else AckState(0, []);
      var len: U64 := |prior.unAcked|;
      if STATIC_PARAMS.maxSeqno - prior.numPacketsAcked == len {
        return None;
      }
      var newSeqno: U64 := prior.numPacketsAcked + len + 1;
      sm := Some(Message(newSeqno, dst, m));
      sendState := sendState[dst := prior.(unAcked := prior.unAcked + [sm.value])];
    }

    method RetransmitForDst(src: EndPoint, dst: EndPoint, packets: seq<Packet>) returns (packets': seq<Packet>)
      requires Valid() && dst in sendState
      ensures PacketSet(packets') == PacketSet(packets) + Resends(sendState[dst].unAcked, src)
      ensures packets <= packets' && forall i :: |packets| <= i < |packets'| ==>
          packets'[i].src == src && packets'[i].msg.Message?
    {
      var unAcked := sendState[dst].unAcked;
      packets' := packets;
      var i := 0;
      while i < |unAcked|
        invariant i <= |unAcked|
        invariant packets' == packets + seq(i, j requires 0 <= j < i => Packet(unAcked[j].dst, src, unAcked[j]))
      {
        packets' := packets' + [Packet(unAcked[i].dst, src, unAcked[i])];
        i := i + 1;
      }
      AppendedPackets(packets, seq(i, j requires 0 <= j < i => Packet(unAcked[j].dst, src, unAcked[j])));
      ResendsInOrder(unAcked, src);
    }

    /** Everything not yet acknowledged, in no particular order of destinations. */
    method RetransmitUnAckedPackets(src: EndPoint) returns (packets: seq<Packet>)
      requires Valid()
      ensures PacketSet(packets) == UnAckedMessages(View(), src)
      ensures ResendsAll(View(), src, packets)
      ensures forall i :: 0 <= i < |packets| ==> packets[i].src == src && packets[i].msg.Message?
    {
      packets := [];
      var rest, done := sendState.Keys, {};
      while rest != {}
        invariant rest + done == sendState.Keys && rest !! done
        invariant PacketSet(packets) == UnAckedMessagesTo(sendState, done, src)
        invariant forall i :: 0 <= i < |packets| ==> packets[i].src == src && packets[i].msg.Message?
        decreases rest
      {
        var dst :| dst in rest;
        packets := RetransmitForDst(src, dst, packets);
        ResendsToOneMore(sendState, done, dst, src);
        rest, done := rest - {dst}, done + {dst};
      }
      AllAreResent(View(), src, packets);
    }
  }

  function UnAckedMessagesTo(sendState: map<EndPoint, AckState>, dsts: set<EndPoint>, src: EndPoint): set<Packet>
    requires dsts <= sendState.Keys
  {
    set dst, i | dst in dsts && 0 <= i < |sendState[dst].unAcked| && sendState[dst].unAcked[i].Message?
      :: Packet(sendState[dst].unAcked[i].dst, src, sendState[dst].unAcked[i])
  }

  lemma ResendsToOneMore(sendState: map<EndPoint, AckState>, dsts: set<EndPoint>, dst: EndPoint, src: EndPoint)
    requires dsts <= sendState.Keys && dst in sendState
    ensures UnAckedMessagesTo(sendState, dsts + {dst}, src) ==
            UnAckedMessagesTo(sendState, dsts, src) + Resends(sendState[dst].unAcked, src)
  {
  }

  lemma AppendedPackets(packets: seq<Packet>, more: seq<Packet>)
    ensures PacketSet(packets + more) == PacketSet(packets) + PacketSet(more)
  {
  }

  lemma ResendsInOrder(unAcked: seq<SingleMessage>, src: EndPoint)
    requires forall i :: 0 <= i < |unAcked| ==> unAcked[i].Message?
    ensures PacketSet(seq(|unAcked|, j requires 0 <= j < |unAcked| => Packet(unAcked[j].dst, src, unAcked[j]))) ==
        Resends(unAcked, src)
  {
    var s := seq(|unAcked|, j requires 0 <= j < |unAcked| => Packet(unAcked[j].dst, src, unAcked[j]));
    forall p | p in Resends(unAcked, src)
      ensures p in s
    {
      var i :| 0 <= i < |unAcked| && p == Packet(unAcked[i].dst, src, unAcked[i]);
      assert s[i] == p;
    }
  }

  lemma AllAreResent(sd: Delivery, src: EndPoint, packets: seq<Packet>)
    requires ValidSendState(sd.sendState) && PacketSet(packets) == UnAckedMessages(sd, src)
    ensures ResendsAll(sd, src, packets)
  {
    forall dst, i | OnList(sd, dst, i)
      ensures Packet(dst, src, sd.sendState[dst].unAcked[i]) in packets
    {
      assert ValidAckState(sd.sendState[dst], dst);
      assert Packet(sd.sendState[dst].unAcked[i].dst, src, sd.sendState[dst].unAcked[i]) in UnAckedMessages(sd, src);
    }
    forall p | p in packets
      ensures exists dst, i :: OnList(sd, dst, i) && p == Packet(dst, src, sd.sendState[dst].unAcked[i])
    {
      assert p in PacketSet(packets);
      var dst, i :| dst in sd.sendState && 0 <= i < |sd.sendState[dst].unAcked| && sd.sendState[dst].unAcked[i].Message?
        && p == Packet(sd.sendState[dst].unAcked[i].dst, src, sd.sendState[dst].unAcked[i]);
      assert ValidAckState(sd.sendState[dst], dst);
      assert OnList(sd, dst, i);
    }
  }

  /** Truncation leaves exactly what is not covered. */
  lemma TruncationLeaves(list: AckState, n: nat, dst: EndPoint)
    requires Sequential(list, dst) && n >= list.numPacketsAcked
    ensures TruncateUnAcked(list.unAcked, n) == Remaining(list, n)
  {
    TruncateDropsAcked(list, n, dst);
  }

  /** The computed outcome of a packet, said of the tables alone. */
  lemma TakingInDoes(g: Host, pkt: Packet)
    requires ValidSendState(g.sd.sendState) && g.receivedPacket.None?
    ensures DoesReceive(g, TookIn(g, pkt), pkt, AcksFor(TookIn(g, pkt).sd, pkt))
  {
    match pkt.msg
    case Ack(n) =>
      var list := ListFor(g.sd, pkt.src);
      if n > list.numPacketsAcked {
        assert Sequential(list, pkt.src) by {
          if pkt.src in g.sd.sendState { assert ValidAckState(g.sd.sendState[pkt.src], pkt.src); }
        }
        TruncationLeaves(list, n, pkt.src);
      }
      hide TruncateUnAcked, Remaining;
    case Message(_, _, _) =>
    case InvalidMessage =>
  }

  lemma AckedStateStaysValid(a: AckState, n: U64, dst: EndPoint)
    requires ValidAckState(a, dst) && n > a.numPacketsAcked
    ensures ValidAckState(AckState(n, TruncateUnAcked(a.unAcked, n)), dst)
  {
    TruncateDropsAcked(a, n, dst);
    AckedListStaysSequential(a, n, dst);
  }

}
