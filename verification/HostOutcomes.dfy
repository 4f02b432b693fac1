/**
 What a host does with each kind of packet, in terms of its tables alone: which packet goes out, which entries change
 and that nothing else does. Every handler is proved to do this, beside being a step of the protocol.
 */
module HostOutcomes {
  import opened Options
  import opened KeyRanges
  import opened SingleDelivery
  import opened HostProtocol

  const LAST_SEQNO := 0xffff_ffff_ffff_ffff
  const MOST_DELEGATIONS := 0x7fff_ffff_ffff_ffff

  function ListFor(sd: Delivery, dst: EndPoint): AckState {
    if dst in sd.sendState then sd.sendState[dst] else AckState(0, [])
  }

  function NextNumber(sd: Delivery, dst: EndPoint): nat {
    ListFor(sd, dst).numPacketsAcked + |ListFor(sd, dst).unAcked| + 1
  }

  /** `m` goes out under the next number for `dst` and stays on the list for it; no other list changes. */
  predicate Sends(g: Host, sd: Delivery, dst: EndPoint, m: Msg, sent: seq<Packet>) {
    var sm := Message(NextNumber(g.sd, dst), dst, m);
    var list := ListFor(g.sd, dst);
    && sent == [Packet(dst, g.constants.me, sm)]
    && sd == Delivery(g.sd.receiveState, g.sd.sendState[dst := AckState(list.numPacketsAcked, list.unAcked + [sm])])
  }

  /** The buffered packet is dealt with, and nothing else happens. */
  ghost predicate Drops(g: Host, h: Host, sent: seq<Packet>) {
    h == g.(receivedPacket := None) && sent == []
  }

  /** The owner answers with its value and logs the request; another host names the owner it knows. */
  ghost predicate DoesGet(g: Host, h: Host, src: EndPoint, seqno: nat, k: Key, sent: seq<Packet>)
    requires k in g.delegationMap
  {
    var me, owner := g.constants.me, g.delegationMap[k];
    var answer := if owner == me then Reply(k, if k in g.h then Some(g.h[k]) else None) else Redirect(k, owner);
    if NextNumber(g.sd, src) > LAST_SEQNO then Drops(g, h, sent)
    else
      && Sends(g, h.sd, src, answer, sent)
      && h == g.(sd := h.sd, receivedPacket := None,
                 receivedRequests := g.receivedRequests + if owner == me then [AppGetRequest(seqno, k)] else [])
  }

  /** The table after a Set: `k` has the value asked for, or none, and every other key is as it was. */
  ghost predicate Stores(h: Hashtable, was: Hashtable, k: Key, ov: Option<Value>) {
    && (if ov.Some? then k in h && h[k] == ov.value else k !in h)
    && (forall j :: j != k ==> (j in h <==> j in was))
    && (forall j :: j != k && j in was && j in h ==> h[j] == was[j])
  }

  /** The owner stores what is asked and says so; another host names the owner; a value too long is dropped. */
  ghost predicate DoesSet(g: Host, h: Host, src: EndPoint, seqno: nat, k: Key, ov: Option<Value>, sent: seq<Packet>)
    requires k in g.delegationMap
  {
    var me, owner := g.constants.me, g.delegationMap[k];
    if (ov.Some? && |ov.value| >= 1024) || NextNumber(g.sd, src) > LAST_SEQNO then Drops(g, h, sent)
    else
      && Sends(g, h.sd, src, if owner == me then Reply(k, ov) else Redirect(k, owner), sent)
      && (if owner == me then Stores(h.h, g.h, k, ov) else h.h == g.h)
      && h == g.(sd := h.sd, h := h.h, receivedPacket := None,
                 receivedRequests := g.receivedRequests + if owner == me then [AppSetRequest(seqno, k, ov)] else [])
  }

  predicate Within(kr: KeyRange, k: Key) {
    && (kr.lo.At? && kr.lo.k <= k)
    && (kr.hi.At? ==> k < kr.hi.k)
  }

  /** The keys of the range are on `host`, and all others where they were. */
  ghost predicate Hands(m: DelegationTable, was: DelegationTable, kr: KeyRange, host: EndPoint) {
    && (forall k: Key :: k in m <==> k in was || Within(kr, k))
    && (forall k: Key :: k in m ==> m[k] == if Within(kr, k) then host else was[k])
  }

  /** The entries of one table that lie in the range, and those that do not. */
  ghost predicate Splits(was: Hashtable, kr: KeyRange, inside: Hashtable, outside: Hashtable) {
    && (forall k :: k in inside <==> k in was && Within(kr, k))
    && (forall k :: k in outside <==> k in was && !Within(kr, k))
    && (forall k :: k in inside ==> inside[k] == was[k])
    && (forall k :: k in outside ==> outside[k] == was[k])
  }

  function EntriesIn(h: Hashtable, kr: KeyRange): set<Key> {
    set k | k in h && Within(kr, k)
  }

  predicate NonemptyRange(kr: KeyRange) {
    kr.lo.At? && (kr.hi.At? ==> kr.lo.k < kr.hi.k)
  }

  /** A range is handed to another host exactly if all of it is owned and its entries fit into one packet. */
  ghost predicate MayShip(g: Host, kr: KeyRange, to: EndPoint) {
    && to != g.constants.me && to in g.constants.hostIds && |to.id| < 0x100000
    && NonemptyRange(kr)
    && (forall k: Key :: Within(kr, k) ==> k in g.delegationMap && g.delegationMap[k] == g.constants.me)
    && |EntriesIn(g.h, kr)| < 62
  }

  /** The range and its entries go out in one Delegate, and leave this host. */
  ghost predicate DoesShard(g: Host, h: Host, kr: KeyRange, to: EndPoint, sent: seq<Packet>) {
    if !MayShip(g, kr, to) then Drops(g, h, sent)
    else if NextNumber(g.sd, to) > LAST_SEQNO then
      h == g.(receivedPacket := None, numDelegations := g.numDelegations + 1) && sent == []
    else
      && |sent| == 1 && sent[0].msg.Message? && sent[0].msg.m.Delegate?
      && Sends(g, h.sd, to, Delegate(kr, sent[0].msg.m.h), sent)
      && Splits(g.h, kr, sent[0].msg.m.h, h.h)
      && Hands(h.delegationMap, g.delegationMap, kr, to)
      && h == g.(sd := h.sd, h := h.h, delegationMap := h.delegationMap, receivedPacket := None,
                 numDelegations := g.numDelegations + 1)
  }

  predicate ManyOrLong(table: Hashtable) {
    |table| >= 62 || exists k :: k in table && |table[k]| >= 1024
  }

  /** Within the range the entries are those of `table`, and elsewhere as they were or as in `table`. */
  ghost predicate Adopts(h: Hashtable, was: Hashtable, kr: KeyRange, table: Hashtable) {
    && (forall k :: k in h <==> k in table || (k in was && !Within(kr, k)))
    && (forall k :: k in h ==> h[k] == if k in table then table[k] else was[k])
  }

  /** A Delegate from a host is adopted, unless it makes no sense; from anyone else it is dropped. */
  ghost predicate DoesDelegate(g: Host, h: Host, src: EndPoint, kr: KeyRange, table: Hashtable, sent: seq<Packet>) {
    if src !in g.constants.hostIds || !NonemptyRange(kr) || ManyOrLong(table) then Drops(g, h, sent)
    else
      && sent == []
      && Adopts(h.h, g.h, kr, table)
      && Hands(h.delegationMap, g.delegationMap, kr, g.constants.me)
      && h == g.(h := h.h, delegationMap := h.delegationMap, receivedPacket := None,
                 numDelegations := g.numDelegations + 1)
  }

  /** There is a request in the buffer, and the count of delegations leaves room for it. */
  predicate HasWork(g: Host) {
    && g.receivedPacket.Some? && g.receivedPacket.value.msg.Message?
    && var m := g.receivedPacket.value.msg.m;
       m.Delegate? || m.Shard? ==> g.numDelegations < MOST_DELEGATIONS - 2
  }

  /** What processing the buffered packet comes to. */
  ghost predicate DoesProcess(g: Host, h: Host, sent: seq<Packet>)
    requires HasWork(g) && Complete(g.delegationMap)
  {
    var Packet(_, src, msg) := g.receivedPacket.value;
    match msg.m
    case GetRequest(k) => DoesGet(g, h, src, msg.seqno, k, sent)
    case SetRequest(k, ov) => DoesSet(g, h, src, msg.seqno, k, ov, sent)
    case Delegate(kr, table) => DoesDelegate(g, h, src, kr, table, sent)
    case Shard(kr, to) => DoesShard(g, h, kr, to, sent)
    case Reply(_, _) => Drops(g, h, sent)
    case Redirect(_, _) => Drops(g, h, sent)
  }

  // ----- taking in and sending again -----

  function LastSeen(sd: Delivery, src: EndPoint): nat {
    if src in sd.receiveState then sd.receiveState[src] else 0
  }

  function AckOf(pkt: Packet): Packet
    requires pkt.msg.Message?
  {
    Packet(pkt.src, pkt.dst, Ack(pkt.msg.seqno))
  }

  /** What is left of a gap-free list once everything up to number `n` is acknowledged. */
  function Remaining(list: AckState, n: nat): seq<SingleMessage>
    requires n >= list.numPacketsAcked
  {
    var covered := n - list.numPacketsAcked;
    if covered <= |list.unAcked| then list.unAcked[covered..] else []
  }

  /**
   With a free buffer: the next message from its sender is buffered and acknowledged, an old one acknowledged again,
   one from the future ignored, and an acknowledgement shortens its list.
   */
  ghost predicate DoesReceive(g: Host, h: Host, pkt: Packet, sent: seq<Packet>) {
    if g.receivedPacket.Some? then h == g && sent == []
    else
      match pkt.msg
      case Message(seqno, _, _) =>
        var last := LastSeen(g.sd, pkt.src);
        if seqno == last + 1 then
          && h == g.(receivedPacket := Some(pkt), sd := g.sd.(receiveState := g.sd.receiveState[pkt.src := seqno]))
          && sent == [AckOf(pkt)]
        else
          h == g && sent == if seqno <= last then [AckOf(pkt)] else []
      case Ack(n) =>
        && sent == []
        && var list := ListFor(g.sd, pkt.src);
           if n > list.numPacketsAcked then
             h == g.(sd := g.sd.(sendState := g.sd.sendState[pkt.src := AckState(n, Remaining(list, n))]))
           else h == g
      case InvalidMessage => h == g && sent == []
  }

  /** The list for `dst` has an entry `i`. */
  predicate OnList(sd: Delivery, dst: EndPoint, i: int) {
    dst in sd.sendState && 0 <= i < |sd.sendState[dst].unAcked|
  }

  /** Every message on every list goes out again, to the endpoint the list is for; and nothing else does. */
  ghost predicate ResendsAll(sd: Delivery, me: EndPoint, sent: seq<Packet>) {
    && (forall dst, i :: OnList(sd, dst, i) ==> Packet(dst, me, sd.sendState[dst].unAcked[i]) in sent)
    && (forall p :: p in sent ==>
        exists dst, i :: OnList(sd, dst, i) && p == Packet(dst, me, sd.sendState[dst].unAcked[i]))
  }

  // ----- from the computed form -----

  lemma SendingSends(g: Host, sd: Delivery, m: Msg, dst: EndPoint, sm: Option<SingleMessage>)
    requires SendSingleMessage(g.sd, sd, m, dst, sm, STATIC_PARAMS)
    ensures match sm
            case None => NextNumber(g.sd, dst) > LAST_SEQNO && sd == g.sd
            case Some(sm) =>
              NextNumber(g.sd, dst) <= LAST_SEQNO && Sends(g, sd, dst, m, [Packet(dst, g.constants.me, sm)])
  {
  }

  lemma SettingStores(h: Hashtable, k: Key, ov: Option<Value>)
    ensures Stores(ApplySet(h, k, ov), h, k, ov)
  {
  }

  lemma SensibleDelegates(kr: KeyRange, table: Hashtable)
    ensures !ManyOrLong(table) <==> ValidHashtable(table)
    ensures NonemptyRange(kr) <==> kr.lo.Lt(kr.hi)
  {
  }

  lemma WithinContains(kr: KeyRange, k: Key)
    ensures Within(kr, k) <==> kr.Contains(k)
  {
  }

  lemma ReassignHands(was: DelegationTable, kr: KeyRange, host: EndPoint)
    requires Complete(was)
    ensures Hands(Reassign(was, kr, host), was, kr, host)
  {
    forall k: Key ensures Within(kr, k) <==> kr.Contains(k) { WithinContains(kr, k); }
  }

  lemma ExtractingSplits(was: Hashtable, kr: KeyRange)
    ensures Splits(was, kr, ExtractRange(was, kr), BulkRemove(was, kr))
    ensures |ExtractRange(was, kr)| == |EntriesIn(was, kr)|
  {
    forall k: Key ensures Within(kr, k) <==> kr.Contains(k) { WithinContains(kr, k); }
    assert ExtractRange(was, kr).Keys == EntriesIn(was, kr);
  }

  lemma UpdatingAdopts(was: Hashtable, kr: KeyRange, table: Hashtable)
    ensures Adopts(BulkUpdate(was, kr, table), was, kr, table)
  {
    forall k: Key ensures Within(kr, k) <==> kr.Contains(k) { WithinContains(kr, k); }
  }

  lemma ShippingIsAllowed(g: Host, kr: KeyRange, to: EndPoint)
    requires Complete(g.delegationMap)
    ensures MayShip(g, kr, to) <==> !MustRejectShard(g, Shard(kr, to))
  {
    ExtractingSplits(g.h, kr);
    forall k: Key ensures Within(kr, k) <==> kr.Contains(k) { WithinContains(kr, k); }
  }

}
