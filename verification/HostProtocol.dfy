/** At-most-once delivery by sequence numbers, tombstones and acknowledgements. */
module SingleDelivery {
  import opened Options
  import opened KeyRanges

  type Byte = b: int | 0 <= b < 256

  datatype EndPoint = EndPoint(id: seq<Byte>) {
    predicate ValidPhysicalAddress() {
      |id| < 0x100000
    }
  }

  type Value = seq<Byte>

  type Hashtable = map<Key, Value>

  const MAX_VAL_LEN := 1024

  predicate ValidValue(v: Value) {
    |v| < MAX_VAL_LEN
  }

  datatype Msg =
    | GetRequest(key: Key)
    | SetRequest(key: Key, ov: Option<Value>)
    | Reply(key: Key, ov: Option<Value>)
    | Redirect(key: Key, id: EndPoint)
    | Shard(range: KeyRange, recipient: EndPoint)
    | Delegate(range: KeyRange, h: Hashtable)

  datatype SingleMessage =
    | Message(seqno: nat, dst: EndPoint, m: Msg)
    | Ack(ackSeqno: nat)
    | InvalidMessage

  datatype Packet = Packet(dst: EndPoint, src: EndPoint, msg: SingleMessage)

  function PacketSet(packets: seq<Packet>): set<Packet> {
    set p | p in packets
  }

  datatype Parameters = Parameters(maxSeqno: nat, maxDelegations: nat)

  const STATIC_PARAMS := Parameters(0xffff_ffff_ffff_ffff, 0x7fff_ffff_ffff_ffff)

  datatype AckState = AckState(numPacketsAcked: nat, unAcked: seq<SingleMessage>)

  datatype Delivery = Delivery(receiveState: map<EndPoint, nat>, sendState: map<EndPoint, AckState>)

  const EMPTY_DELIVERY := Delivery(map[], map[])

  function TombstoneLookup(src: EndPoint, t: map<EndPoint, nat>): nat {
    if src in t then t[src] else 0
  }

  function AckStateLookup(dst: EndPoint, sendState: map<EndPoint, AckState>): AckState {
    if dst in sendState then sendState[dst] else AckState(0, [])
  }

  function TruncateUnAcked(unAcked: seq<SingleMessage>, seqnoAcked: nat): seq<SingleMessage> {
    if |unAcked| > 0 && unAcked[0].Message? && unAcked[0].seqno <= seqnoAcked then
      TruncateUnAcked(unAcked[1..], seqnoAcked)
    else
      unAcked
  }

  predicate NewSingleMessage(sd: Delivery, pkt: Packet) {
    pkt.msg.Message? && pkt.msg.seqno == TombstoneLookup(pkt.src, sd.receiveState) + 1
  }

  /** As in the source, an accepted ack fixes the new send state but says nothing of `receiveState`. */
  ghost predicate ReceiveAck(pre: Delivery, post: Delivery, pkt: Packet, acks: set<Packet>)
    requires pkt.msg.Ack?
  {
    && acks == {}
    && var prior := AckStateLookup(pkt.src, pre.sendState);
       if pkt.msg.ackSeqno > prior.numPacketsAcked then
         post == post.(sendState := pre.sendState[pkt.src :=
           AckState(pkt.msg.ackSeqno, TruncateUnAcked(prior.unAcked, pkt.msg.ackSeqno))])
       else
         post == pre
  }

  ghost predicate ReceiveRealPacket(pre: Delivery, post: Delivery, pkt: Packet) {
    if NewSingleMessage(pre, pkt) then
      post == pre.(receiveState := pre.receiveState[pkt.src := TombstoneLookup(pkt.src, pre.receiveState) + 1])
    else
      post == pre
  }

  predicate ShouldAck(sd: Delivery, pkt: Packet) {
    pkt.msg.Message? && pkt.msg.seqno <= TombstoneLookup(pkt.src, sd.receiveState)
  }

  ghost predicate MaybeAckPacket(sd: Delivery, pkt: Packet, ack: Packet, acks: set<Packet>) {
    if ShouldAck(sd, pkt) then
      ack == Packet(pkt.src, pkt.dst, Ack(pkt.msg.seqno)) && acks == {ack}
    else
      acks == {}
  }

  ghost predicate Receive(pre: Delivery, post: Delivery, pkt: Packet, ack: Packet, acks: set<Packet>) {
    match pkt.msg
    case Ack(_) => ReceiveAck(pre, post, pkt, acks)
    case Message(_, _, _) => ReceiveRealPacket(pre, post, pkt) && MaybeAckPacket(post, pkt, ack, acks)
    case InvalidMessage => post == pre && acks == {}
  }

  // ----- the receive relation, computed -----

  function AfterAck(sd: Delivery, src: EndPoint, n: nat): Delivery {
    var prior := AckStateLookup(src, sd.sendState);
    if n > prior.numPacketsAcked then
      sd.(sendState := sd.sendState[src := AckState(n, TruncateUnAcked(prior.unAcked, n))])
    else sd
  }

  function AfterMessage(sd: Delivery, pkt: Packet): Delivery {
    if NewSingleMessage(sd, pkt) then
      sd.(receiveState := sd.receiveState[pkt.src := TombstoneLookup(pkt.src, sd.receiveState) + 1])
    else sd
  }

  /** What delivery makes of a packet. */
  function Delivered(sd: Delivery, pkt: Packet): Delivery {
    match pkt.msg
    case Ack(n) => AfterAck(sd, pkt.src, n)
    case Message(_, _, _) => AfterMessage(sd, pkt)
    case InvalidMessage => sd
  }

  function AcksFor(sd: Delivery, pkt: Packet): seq<Packet> {
    if ShouldAck(sd, pkt) then [Packet(pkt.src, pkt.dst, Ack(pkt.msg.seqno))] else []
  }

  /** The computed result is one the relation allows, and the only one that leaves acknowledged tombstones alone. */
  lemma DeliveredIsReceived(sd: Delivery, post: Delivery, pkt: Packet, ack: Packet, acks: set<Packet>)
    ensures acks == PacketSet(AcksFor(Delivered(sd, pkt), pkt)) && (acks != {} ==> acks == {ack}) ==>
              Receive(sd, Delivered(sd, pkt), pkt, ack, acks)
    ensures Receive(sd, post, pkt, ack, acks) && (pkt.msg.Ack? ==> post.receiveState == sd.receiveState) ==>
              post == Delivered(sd, pkt) && acks == PacketSet(AcksFor(post, pkt))
  {
    var acksFor := AcksFor(Delivered(sd, pkt), pkt);
    if |acksFor| == 1 { assert PacketSet(acksFor) == {acksFor[0]}; } else { assert PacketSet(acksFor) == {}; }
  }

  /** `sm` is None exactly when the sequence numbers for `dst` are used up. */
  ghost predicate SendSingleMessage(pre: Delivery, post: Delivery, m: Msg, dst: EndPoint,
                                    sm: Option<SingleMessage>, params: Parameters)
  {
    var prior := AckStateLookup(dst, pre.sendState);
    var newSeqno := prior.numPacketsAcked + |prior.unAcked| + 1;
    if newSeqno > params.maxSeqno then
      post == pre && sm == None
    else
      && sm == Some(Message(newSeqno, dst, m))
      && post == pre.(sendState := pre.sendState[dst := prior.(unAcked := prior.unAcked + [sm.value])])
  }

  lemma UnsentChangesNothing(pre: Delivery, post: Delivery, m: Msg, dst: EndPoint, params: Parameters)
    requires SendSingleMessage(pre, post, m, dst, None, params)
    ensures post == pre
  {
  }

  /** Everything sent and not yet acknowledged, addressed as recorded in the message. */
  function UnAckedMessages(sd: Delivery, src: EndPoint): set<Packet> {
    set dst, i | dst in sd.sendState && 0 <= i < |sd.sendState[dst].unAcked| && sd.sendState[dst].unAcked[i].Message?
      :: Packet(sd.sendState[dst].unAcked[i].dst, src, sd.sendState[dst].unAcked[i])
  }

}

/** The protocol a host of the sharded store follows: one relation `Next` over abstract host states. */
module HostProtocol {
  import opened Options
  import opened KeyRanges
  import opened SingleDelivery

  const MAX_HASHTABLE_SIZE := 62

  predicate ValidHashtable(h: Hashtable) {
    |h| < MAX_HASHTABLE_SIZE && forall k :: k in h ==> ValidValue(h[k])
  }

  predicate ValidOptionalValue(ov: Option<Value>) {
    ov.Some? ==> ValidValue(ov.value)
  }

  function Lookup(h: Hashtable, k: Key): Option<Value> {
    if k in h then Some(h[k]) else None
  }

  function ExtractRange(h: Hashtable, kr: KeyRange): Hashtable {
    map k | k in h && kr.Contains(k) :: h[k]
  }

  function BulkUpdate(h: Hashtable, kr: KeyRange, u: Hashtable): Hashtable {
    map k | k in h.Keys + u.Keys && (kr.Contains(k) ==> k in u) :: if k in u then u[k] else h[k]
  }

  function BulkRemove(h: Hashtable, kr: KeyRange): Hashtable {
    map k | k in h && !kr.Contains(k) :: h[k]
  }

  /** Which host each key is believed to live on. */
  type DelegationTable = imap<Key, EndPoint>

  ghost predicate Complete(m: DelegationTable) {
    forall k: Key :: k in m
  }

  ghost function Reassign(m: DelegationTable, kr: KeyRange, host: EndPoint): DelegationTable {
    imap k: Key | k in m || kr.Contains(k) :: if kr.Contains(k) then host else m[k]
  }

  /** At start-up every key is on the root host. */
  ghost function InitialTable(root: EndPoint): DelegationTable {
    Reassign(imap[], KeyRange(At(ZERO_KEY), End), root)
  }

  ghost predicate RangeIsOn(m: DelegationTable, kr: KeyRange, host: EndPoint)
    requires Complete(m)
  {
    forall k: Key :: kr.Contains(k) ==> m[k] == host
  }

  datatype AppRequest =
    | AppGetRequest(seqno: nat, key: Key)
    | AppSetRequest(seqno: nat, key: Key, ov: Option<Value>)

  datatype Constants = Constants(rootIdentity: EndPoint, hostIds: seq<EndPoint>, params: Parameters, me: EndPoint)

  datatype Host = Host(
    constants: Constants,
    delegationMap: DelegationTable,
    h: Hashtable,
    sd: Delivery,
    receivedPacket: Option<Packet>,
    numDelegations: int,
    receivedRequests: seq<AppRequest>)

  datatype IoOp =
    | Send(s: Packet)
    | Receive(r: Packet)
    | TimeoutReceive
    | ReadClock(t: int)

  function SentPackets(ios: seq<IoOp>): set<Packet> {
    set i | 0 <= i < |ios| && ios[i].Send? :: ios[i].s
  }

  predicate AllSends(ios: seq<IoOp>) {
    forall i :: 0 <= i < |ios| ==> ios[i].Send?
  }

  predicate NoInvalidSends(ios: seq<IoOp>) {
    forall i :: 0 <= i < |ios| && ios[i].Send? ==> !ios[i].s.msg.InvalidMessage?
  }

  function SendsOf(packets: seq<Packet>): seq<IoOp> {
    seq(|packets|, i requires 0 <= i < |packets| => Send(packets[i]))
  }

  lemma SendsOfSend(packets: seq<Packet>)
    ensures AllSends(SendsOf(packets)) && SentPackets(SendsOf(packets)) == PacketSet(packets)
    ensures forall r :: SentPackets([Receive(r)] + SendsOf(packets)) == PacketSet(packets)
  {
    var ios := SendsOf(packets);
    forall p | p in packets
      ensures p in SentPackets(ios) && forall r :: p in SentPackets([Receive(r)] + ios)
    {
      var i :| 0 <= i < |packets| && packets[i] == p;
      assert ios[i] == Send(p);
      forall r ensures p in SentPackets([Receive(r)] + ios) { assert ([Receive(r)] + ios)[i + 1] == Send(p); }
    }
  }

  // ----- start-up -----

  function ParseArgs(args: seq<seq<Byte>>): Option<seq<EndPoint>> {
    var endPoints := seq(|args|, i requires 0 <= i < |args| => EndPoint(args[i]));
    if forall i :: 0 <= i < |endPoints| ==> endPoints[i].ValidPhysicalAddress() then Some(endPoints) else None
  }

  ghost predicate Init(pre: Host, id: EndPoint, args: seq<seq<Byte>>) {
    var endPoints := ParseArgs(args);
    && endPoints.Some?
    && |endPoints.value| > 0
    && pre == Host(
      Constants(endPoints.value[0], endPoints.value, STATIC_PARAMS, id),
      InitialTable(endPoints.value[0]), map[], EMPTY_DELIVERY, None, 1, [])
  }

  // ----- taking in a packet -----

  /**
   The relation as the source writes it. Its last conjunct reads "nothing else changes" but is built
   from `post` instead of `pre`, so it holds of every `post`.
   */
  ghost predicate ReceivePacket(pre: Host, post: Host, pkt: Packet, out: set<Packet>, ack: Packet) {
    || (&& pre.receivedPacket.None?
        && SingleDelivery.Receive(pre.sd, post.sd, pkt, ack, out)
        && post.receivedPacket == (if NewSingleMessage(pre.sd, pkt) then Some(pkt) else None)
        && post == post.(sd := post.sd, receivedPacket := post.receivedPacket))
    || (post == pre && out == {})
  }

  ghost predicate ReceivePacketNext(pre: Host, post: Host, ios: seq<IoOp>) {
    && |ios| >= 1
    && if ios[0].TimeoutReceive? then
         post == pre && |ios| == 1
       else
         && ios[0].Receive?
         && (forall i :: 1 <= i < |ios| ==> ios[i].Send?)
         && exists ack :: ReceivePacket(pre, post, ios[0].r, SentPackets(ios), ack)
  }

  /** What the two mis-written conjuncts of the receive step were meant to say. */
  predicate ReceiveFrame(pre: Host, post: Host, ios: seq<IoOp>) {
    && post.delegationMap == pre.delegationMap
    && post.h == pre.h
    && post.numDelegations == pre.numDelegations
    && post.receivedRequests == pre.receivedRequests
    && (|ios| > 0 && ios[0].Receive? && ios[0].r.msg.Ack? ==> post.sd.receiveState == pre.sd.receiveState)
  }

  /** The host that takes in `pkt`, changing nothing it should not. */
  function TookIn(g: Host, pkt: Packet): Host {
    g.(sd := Delivered(g.sd, pkt), receivedPacket := if NewSingleMessage(g.sd, pkt) then Some(pkt) else None)
  }

  function TakeIn(g: Host, pkt: Packet): seq<IoOp> {
    [Receive(pkt)] + SendsOf(AcksFor(Delivered(g.sd, pkt), pkt))
  }

  lemma TakingInReceives(g: Host, h: Host, pkt: Packet)
    requires g.receivedPacket.None?
    requires h == TookIn(g, pkt).(delegationMap := h.delegationMap)
    ensures ReceivePacketNext(g, h, TakeIn(g, pkt)) && NoInvalidSends(TakeIn(g, pkt))
    ensures ReceiveFrame(g, TookIn(g, pkt), TakeIn(g, pkt))
  {
    var acks := AcksFor(Delivered(g.sd, pkt), pkt);
    SendsOfSend(acks);
    var ack := if |acks| == 1 then acks[0] else pkt;
    DeliveredIsReceived(g.sd, h.sd, pkt, ack, PacketSet(acks));
    assert |acks| == 1 ==> PacketSet(acks) == {acks[0]};
    assert ReceivePacket(g, h, pkt, PacketSet(acks), ack);
  }

  // ----- processing the buffered packet -----

  ghost predicate NextGetRequestReply(pre: Host, post: Host, src: EndPoint, seqno: nat, k: Key,
                                      sm: SingleMessage, m: Msg, out: set<Packet>, shouldSend: bool)
    requires Complete(pre.delegationMap)
  {
    var owner := pre.delegationMap[k];
    if shouldSend then
      && (if owner == pre.constants.me then
            && m == Reply(k, Lookup(pre.h, k))
            && post.receivedRequests == pre.receivedRequests + [AppGetRequest(seqno, k)]
          else
            && m == Redirect(k, owner)
            && post.receivedRequests == pre.receivedRequests)
      && SendSingleMessage(pre.sd, post.sd, m, src, Some(sm), pre.constants.params)
      && sm.Message? && sm.dst == src
      && out == {Packet(src, pre.constants.me, sm)}
    else
      && post == pre.(receivedPacket := post.receivedPacket)
      && out == {}
  }

  ghost predicate NextGetRequest(pre: Host, post: Host, pkt: Packet, out: set<Packet>)
    requires Complete(pre.delegationMap) && pkt.msg.Message?
  {
    && pkt.msg.m.GetRequest?
    && post.delegationMap == pre.delegationMap
    && post.h == pre.h
    && post.numDelegations == pre.numDelegations
    && exists sm, m, b :: NextGetRequestReply(pre, post, pkt.src, pkt.msg.seqno, pkt.msg.m.key, sm, m, out, b)
  }

  function ApplySet(h: Hashtable, k: Key, ov: Option<Value>): Hashtable {
    match ov
    case None => h - {k}
    case Some(v) => h[k := v]
  }

  ghost predicate NextSetRequestComplete(pre: Host, post: Host, src: EndPoint, seqno: nat, reqm: Msg,
                                         sm: SingleMessage, replym: Msg, out: set<Packet>, shouldSend: bool)
    requires Complete(pre.delegationMap) && reqm.SetRequest?
  {
    var k, ov := reqm.key, reqm.ov;
    var owner := pre.delegationMap[k];
    if shouldSend && ValidOptionalValue(ov) then
      && (if owner == pre.constants.me then
            && post.h == ApplySet(pre.h, k, ov)
            && replym == Reply(k, ov)
            && post.receivedRequests == pre.receivedRequests + [AppSetRequest(seqno, k, ov)]
          else
            && post.h == pre.h
            && replym == Redirect(k, owner)
            && post.receivedRequests == pre.receivedRequests)
      && SendSingleMessage(pre.sd, post.sd, replym, src, Some(sm), pre.constants.params)
      && sm.Message? && sm.dst == src
      && out == {Packet(src, pre.constants.me, sm)}
    else
      && post == pre.(receivedPacket := post.receivedPacket)
      && out == {}
  }

  ghost predicate NextSetRequest(pre: Host, post: Host, pkt: Packet, out: set<Packet>)
    requires Complete(pre.delegationMap) && pkt.msg.Message?
  {
    && pkt.msg.m.SetRequest?
    && (exists sm, replym, b ::
          NextSetRequestComplete(pre, post, pkt.src, pkt.msg.seqno, pkt.msg.m, sm, replym, out, b))
    && post.delegationMap == pre.delegationMap
    && post.numDelegations == pre.numDelegations
  }

  ghost predicate NextDelegate(pre: Host, post: Host, pkt: Packet, out: set<Packet>)
    requires pkt.msg.Message?
  {
    && pkt.msg.m.Delegate?
    && (if pkt.src in pre.constants.hostIds then
          && post.delegationMap == Reassign(pre.delegationMap, pkt.msg.m.range, pre.constants.me)
          && post.h == BulkUpdate(pre.h, pkt.msg.m.range, pkt.msg.m.h)
          && post.numDelegations == pre.numDelegations + 1
        else
          && post.delegationMap == pre.delegationMap
          && post.h == pre.h
          && post.numDelegations == pre.numDelegations)
    && post.sd == pre.sd
    && out == {}
    && post.receivedRequests == pre.receivedRequests
  }

  ghost predicate NextShard(pre: Host, post: Host, out: set<Packet>, kr: KeyRange, recipient: EndPoint,
                            sm: SingleMessage, shouldSend: bool)
    requires Complete(pre.delegationMap)
  {
    && recipient != pre.constants.me
    && recipient in pre.constants.hostIds
    && RangeIsOn(pre.delegationMap, kr, pre.constants.me)
    && SendSingleMessage(pre.sd, post.sd, Delegate(kr, ExtractRange(pre.h, kr)), recipient,
                         if shouldSend then Some(sm) else None, pre.constants.params)
    && (shouldSend ==> sm.Message? && recipient == sm.dst)
    && pre.constants == post.constants
    && post.numDelegations == pre.numDelegations + 1
    && post.receivedRequests == pre.receivedRequests
    && if shouldSend then
         && out == {Packet(recipient, pre.constants.me, sm)}
         && post.delegationMap == Reassign(pre.delegationMap, kr, recipient)
         && post.h == BulkRemove(pre.h, kr)
       else
         && out == {}
         && post.delegationMap == pre.delegationMap
         && post.h == pre.h
  }

  ghost predicate MustRejectShard(pre: Host, m: Msg)
    requires Complete(pre.delegationMap) && m.Shard?
  {
    || m.recipient == pre.constants.me
    || !m.recipient.ValidPhysicalAddress()
    || m.range.IsEmpty()
    || m.recipient !in pre.constants.hostIds
    || !RangeIsOn(pre.delegationMap, m.range, pre.constants.me)
    || |ExtractRange(pre.h, m.range)| >= MAX_HASHTABLE_SIZE
  }

  ghost predicate NextShardWrapper(pre: Host, post: Host, pkt: Packet, out: set<Packet>)
    requires Complete(pre.delegationMap) && pkt.msg.Message?
  {
    && pkt.msg.m.Shard?
    && if MustRejectShard(pre, pkt.msg.m) then
         && post == pre.(receivedPacket := post.receivedPacket)
         && out == {}
       else
         exists sm, b :: NextShard(pre, post, out, pkt.msg.m.range, pkt.msg.m.recipient, sm, b)
  }

  /** Replies and redirects are consumed without effect. */
  ghost predicate NextReplyOrRedirect(pre: Host, post: Host, pkt: Packet, out: set<Packet>)
    requires pkt.msg.Message?
  {
    && (pkt.msg.m.Reply? || pkt.msg.m.Redirect?)
    && out == {}
    && post == pre.(receivedPacket := post.receivedPacket)
  }

  predicate ShouldProcess(pre: Host) {
    && pre.receivedPacket.Some?
    && pre.receivedPacket.value.msg.Message?
    && (pre.receivedPacket.value.msg.m.Delegate? || pre.receivedPacket.value.msg.m.Shard? ==>
          pre.numDelegations < pre.constants.params.maxDelegations - 2)
  }

  ghost predicate ProcessMessage(pre: Host, post: Host, out: set<Packet>)
    requires Complete(pre.delegationMap)
  {
    if ShouldProcess(pre) then
      var packet := pre.receivedPacket.value;
      && (|| NextGetRequest(pre, post, packet, out)
          || NextSetRequest(pre, post, packet, out)
          || NextDelegate(pre, post, packet, out)
          || NextShardWrapper(pre, post, packet, out)
          || NextReplyOrRedirect(pre, post, packet, out))
      && post.receivedPacket.None?
    else
      post == pre && out == {}
  }

  ghost predicate ProcessReceivedPacketNext(pre: Host, post: Host, ios: seq<IoOp>)
    requires Complete(pre.delegationMap)
  {
    && AllSends(ios)
    && if pre.receivedPacket.Some? then ProcessMessage(pre, post, SentPackets(ios))
       else post == pre && SentPackets(ios) == {}
  }

  // ----- the remaining steps -----

  ghost predicate SpontaneouslyRetransmitNext(pre: Host, post: Host, ios: seq<IoOp>) {
    || (AllSends(ios) && SentPackets(ios) == UnAckedMessages(pre.sd, pre.constants.me) && post == pre)
    || (post == pre && ios == [])
  }

  ghost predicate IgnoreUnparseablePacket(pre: Host, post: Host, ios: seq<IoOp>) {
    |ios| == 1 && ios[0].Receive? && ios[0].r.msg.InvalidMessage? && pre == post
  }

  /** A Delegate that no correct host would send: oversized, with an invalid value, or over an empty range. */
  predicate Nonsensical(pkt: Packet) {
    && pkt.msg.Message?
    && pkt.msg.m.Delegate?
    && !(ValidHashtable(pkt.msg.m.h) && !pkt.msg.m.range.IsEmpty() && pkt.msg.dst.ValidPhysicalAddress())
  }

  ghost predicate IgnoreNonsensicalDelegationPacket(pre: Host, post: Host, ios: seq<IoOp>) {
    && ios == []
    && pre.receivedPacket.Some?
    && Nonsensical(pre.receivedPacket.value)
    && post == if ShouldProcess(pre) then pre.(receivedPacket := None) else pre
  }

  datatype Step =
    | StepReceivePacket
    | StepProcessReceivedPacket
    | StepSpontaneouslyRetransmit
    | StepStutter
    | StepIgnoreUnparseablePacket
    | StepIgnoreNonsensicalDelegationPacket

  ghost predicate NextStep(pre: Host, post: Host, ios: seq<IoOp>, step: Step) {
    && Complete(pre.delegationMap)
    && match step
       case StepReceivePacket => ReceivePacketNext(pre, post, ios)
       case StepProcessReceivedPacket => ProcessReceivedPacketNext(pre, post, ios)
       case StepSpontaneouslyRetransmit => SpontaneouslyRetransmitNext(pre, post, ios)
       case StepStutter => pre == post && ios == []
       case StepIgnoreUnparseablePacket => IgnoreUnparseablePacket(pre, post, ios)
       case StepIgnoreNonsensicalDelegationPacket => IgnoreNonsensicalDelegationPacket(pre, post, ios)
  }

  /** The relation as the source writes it. */
  ghost predicate Next(pre: Host, post: Host, ios: seq<IoOp>) {
    && pre.constants == post.constants
    && (exists step :: NextStep(pre, post, ios, step))
    && NoInvalidSends(ios)
  }

  /** `Next` with the receive step leaving alone what it does not mention. */
  ghost predicate FramedNext(pre: Host, post: Host, ios: seq<IoOp>) {
    && pre.constants == post.constants
    && (exists step :: NextStep(pre, post, ios, step) && (step.StepReceivePacket? ==> ReceiveFrame(pre, post, ios)))
    && NoInvalidSends(ios)
  }

}
