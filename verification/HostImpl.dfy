/** The network as the host sees it: what it delivers and which sends fail is decided outside. */
module NetClients {
  import opened Options
  import opened KeyRanges
  import opened SingleDelivery
  import opened HostProtocol
  import opened DeliveryImpl

  datatype NetcState = Receiving | Sending | Error

  datatype NetcReceiveResult = Received(sender: EndPoint, message: SingleMessage) | TimedOut | Failed

  /** Messages with an address that no endpoint can have do not parse. */
  predicate Parseable(m: SingleMessage) {
    m.Message? ==>
      && m.dst.ValidPhysicalAddress()
      && (m.m.Redirect? ==> m.m.id.ValidPhysicalAddress())
      && (m.m.Shard? ==> m.m.recipient.ValidPhysicalAddress())
  }

  function Demarshalled(m: SingleMessage): SingleMessage {
    if Parseable(m) then m else InvalidMessage
  }

  /** With nothing more to arrive, the wait ends. */
  function FirstOf(arrivals: seq<NetcReceiveResult>): NetcReceiveResult {
    if |arrivals| > 0 then arrivals[0] else TimedOut
  }

  /** What the host makes of an arrival. */
  function AsPacket(me: EndPoint, r: NetcReceiveResult): Packet
    requires r.Received?
  {
    Packet(me, r.sender, Demarshalled(r.message))
  }

  predicate Delivers(arrivals: seq<NetcReceiveResult>, me: EndPoint, p: Packet) {
    exists i :: 0 <= i < |arrivals| && arrivals[i].Received? && AsPacket(me, arrivals[i]) == p
  }

  class NetClient {
    const me: EndPoint
    var state: NetcState
    var history: seq<IoOp>
    /** What the outside world will do, in order. */
    var arrivals: seq<NetcReceiveResult>
    var sendsFail: seq<bool>

    constructor (me: EndPoint, arrivals: seq<NetcReceiveResult>, sendsFail: seq<bool>)
      requires forall i :: 0 <= i < |arrivals| && arrivals[i].Received? ==> OnWire(arrivals[i].message)
      ensures this.me == me && Valid() && state == Receiving && history == []
      ensures this.arrivals == arrivals && this.sendsFail == sendsFail
    {
      this.me, this.arrivals, this.sendsFail := me, arrivals, sendsFail;
      state, history := Receiving, [];
    }

    predicate Valid()
      reads this
    {
      forall i :: 0 <= i < |arrivals| && arrivals[i].Received? ==> OnWire(arrivals[i].message)
    }

    predicate Ok()
      reads this
    {
      state != Error
    }

    method Receive() returns (result: NetcReceiveResult)
      requires Valid() && state == Receiving
      modifies this
      ensures Valid()
      ensures result.Received? ==> OnWire(result.message) && Delivers(old(arrivals), me, AsPacket(me, result))
      ensures result == FirstOf(old(arrivals)) && arrivals == if |old(arrivals)| > 0 then old(arrivals)[1..] else []
      ensures state == match result case Received(_, _) => Receiving case TimedOut => Sending case Failed => Error
      ensures history == old(history) + match result
                                        case Received(sender, m) => [IoOp.Receive(Packet(me, sender, Demarshalled(m)))]
                                        case TimedOut => [TimeoutReceive]
                                        case Failed => []
    {
      result := TimedOut;
      if |arrivals| > 0 {
        result, arrivals := arrivals[0], arrivals[1..];
      }
      match result {
        case Received(sender, m) => history := history + [IoOp.Receive(Packet(me, sender, Demarshalled(m)))];
        case TimedOut => state, history := Sending, history + [TimeoutReceive];
        case Failed => state := Error;
      }
    }

    method Send(p: Packet) returns (sent: bool)
      requires Valid() && Ok() && p.src == me
      modifies this
      ensures Valid() && sent == Ok()
      ensures history == old(history) + if sent then [IoOp.Send(p)] else []
    {
      sent := true;
      if |sendsFail| > 0 {
        sent, sendsFail := !sendsFail[0], sendsFail[1..];
      }
      if sent {
        state, history := Sending, history + [IoOp.Send(p)];
      } else {
        state := Error;
      }
    }

    /** Sends until the first failure; what got out is a prefix of what was meant to. */
    method SendPacketSeq(packets: seq<Packet>) returns (ok: bool)
      requires Valid() && Ok()
      requires forall i :: 0 <= i < |packets| ==> packets[i].src == me
      modifies this
      ensures Valid() && ok == Ok()
      ensures old(history) <= history <= old(history) + SendsOf(packets)
      ensures ok ==> history == old(history) + SendsOf(packets)
    {
      var i := 0;
      while i < |packets|
        invariant Valid() && Ok() && i <= |packets|
        invariant history == old(history) + SendsOf(packets)[..i]
      {
        var sent := Send(packets[i]);
        if !sent {
          return false;
        }
        assert SendsOf(packets)[..i + 1] == SendsOf(packets)[..i] + [IoOp.Send(packets[i])];
        i := i + 1;
      }
      return true;
    }
  }

}

/** One host of the sharded store, as it runs. Every step is proved to be a step of the host protocol. */
module HostImpl {
  import opened Options
  import opened KeyRanges
  import opened SingleDelivery
  import opened HostProtocol
  import opened HostOutcomes
  import opened ShardedStoreSteps
  import opened DelegationMaps
  import opened DeliveryImpl
  import opened NetClients

  const RESEND_PERIOD: U64 := 100000000

  predicate Unique(eps: seq<EndPoint>) {
    forall i, j :: 0 <= i < |eps| && 0 <= j < |eps| && eps[i] == eps[j] ==> i == j
  }

  /** What one step saw and meant to do: receives, then clock readings, then sends. */
  datatype EventResults = EventResults(recvs: seq<IoOp>, clocks: seq<IoOp>, sends: seq<IoOp>) {
    function EventSeq(): seq<IoOp> {
      recvs + clocks + sends
    }

    predicate WellTyped() {
      && (forall i :: 0 <= i < |recvs| ==> recvs[i].Receive?)
      && (forall i :: 0 <= i < |clocks| ==> clocks[i].ReadClock? || clocks[i].TimeoutReceive?)
      && (forall i :: 0 <= i < |sends| ==> sends[i].Send?)
      && |clocks| <= 1
    }
  }

  const NO_EVENTS := EventResults([], [], [])

  function IsMarshallable(m: Msg): bool {
    match m
    case GetRequest(_) => true
    case SetRequest(_, ov) => ValidOptionalValue(ov)
    case Reply(_, ov) => ValidOptionalValue(ov)
    case Redirect(_, id) => id.ValidPhysicalAddress()
    case Shard(kr, recipient) => recipient.ValidPhysicalAddress() && kr.lo.Lt(kr.hi)
    case Delegate(range, h) => range.lo.Lt(range.hi) && ValidHashtable(h)
  }

  method TestUnique(eps: seq<EndPoint>) returns (unique: bool)
    ensures unique <==> Unique(eps)
  {
    var i := 0;
    while i < |eps|
      invariant i <= |eps|
      invariant forall j, k :: 0 <= j < |eps| && 0 <= k < i && j != k ==> eps[j] != eps[k]
    {
      var j := 0;
      while j < |eps|
        invariant j <= |eps|
        invariant forall k :: 0 <= k < j && k != i ==> eps[i] != eps[k]
      {
        if i != j && eps[i] == eps[j] {
          return false;
        }
        j := j + 1;
      }
      i := i + 1;
    }
    return true;
  }

  method ParseEndPoints(args: seq<seq<Byte>>) returns (out: Option<seq<EndPoint>>)
    ensures out == ParseArgs(args)
  {
    ghost var all := seq(|args|, i requires 0 <= i < |args| => EndPoint(args[i]));
    var eps: seq<EndPoint> := [];
    var i := 0;
    while i < |args|
      invariant i <= |args| && eps == all[..i]
      invariant forall j :: 0 <= j < i ==> all[j].ValidPhysicalAddress()
    {
      var ep := EndPoint(args[i]);
      if !ep.ValidPhysicalAddress() {
        assert all[i] == ep;
        return None;
      }
      eps := eps + [ep];
      i := i + 1;
    }
    assert eps == all;
    return Some(eps);
  }

  method ParseCommandLineConfiguration(args: seq<seq<Byte>>, me: EndPoint) returns (rc: Option<Constants>)
    ensures rc.Some? <==> ParseArgs(args).Some? && |ParseArgs(args).value| > 0 && Unique(ParseArgs(args).value)
    ensures rc.Some? ==> rc.value == Constants(ParseArgs(args).value[0], ParseArgs(args).value, STATIC_PARAMS, me)
    ensures rc.Some? <==>
            && |args| > 0 && (forall i :: 0 <= i < |args| ==> |args[i]| < 0x100000)
            && forall i, j :: 0 <= i < j < |args| ==> args[i] != args[j]
    ensures rc.Some? ==>
              && |rc.value.hostIds| == |args| && rc.value.rootIdentity == EndPoint(args[0]) && rc.value.me == me
              && forall i :: 0 <= i < |args| ==> rc.value.hostIds[i] == EndPoint(args[i])
  {
    ParsedArgs(args);
    var eps := ParseEndPoints(args);
    if eps.None? || |eps.value| == 0 {
      return None;
    }
    var unique := TestUnique(eps.value);
    if !unique {
      return None;
    }
    return Some(Constants(eps.value[0], eps.value, STATIC_PARAMS, me));
  }

  lemma ParsedArgs(args: seq<seq<Byte>>)
    ensures ParseArgs(args).Some? <==> forall i :: 0 <= i < |args| ==> |args[i]| < 0x100000
    ensures ParseArgs(args).Some? ==>
              && |ParseArgs(args).value| == |args|
              && (forall i :: 0 <= i < |args| ==> ParseArgs(args).value[i] == EndPoint(args[i]))
              && (Unique(ParseArgs(args).value) <==> forall i, j :: 0 <= i < j < |args| ==> args[i] != args[j])
  {
    var endPoints := seq(|args|, i requires 0 <= i < |args| => EndPoint(args[i]));
    assert forall i :: 0 <= i < |args| ==> endPoints[i] == EndPoint(args[i]);
    if ParseArgs(args).Some? {
      if forall i, j :: 0 <= i < j < |args| ==> args[i] != args[j] {
        forall i, j | 0 <= i < |endPoints| && 0 <= j < |endPoints| && endPoints[i] == endPoints[j]
          ensures i == j
        {
          assert args[i] == args[j];
        }
      }
    }
  }

  predicate ValidBuffered(p: Option<Packet>, me: EndPoint) {
    p.Some? ==> p.value.msg.Message? && p.value.dst == me
  }

  predicate Outbound(sent: seq<Packet>, me: EndPoint) {
    forall i :: 0 <= i < |sent| ==> sent[i].src == me && !sent[i].msg.InvalidMessage?
  }

  /** The host signs what it sends, and takes in only what arrived for it. */
  predicate Addressed(ios: seq<IoOp>, me: EndPoint, arrivals: seq<NetcReceiveResult>) {
    forall i :: 0 <= i < |ios| ==>
      && (ios[i].Send? ==> ios[i].s.src == me)
      && (ios[i].Receive? ==> ios[i].r.dst == me && Delivers(arrivals, me, ios[i].r))
  }

  /** Takes in what arrives first, if it parses. */
  ghost predicate TakesInFirst(g: Host, h: Host, me: EndPoint, arrivals: seq<NetcReceiveResult>, ios: seq<IoOp>) {
    match FirstOf(arrivals)
    case TimedOut => h == g && ios == [TimeoutReceive]
    case Failed => h == g && ios == []
    case Received(_, _) =>
      var pkt := AsPacket(me, FirstOf(arrivals));
      if pkt.msg.InvalidMessage? then h == g && ios == [IoOp.Receive(pkt)]
      else exists sent :: DoesReceive(g, h, pkt, sent) && ios == [IoOp.Receive(pkt)] + SendsOf(sent)
  }

  /** Processes what is buffered, if it may. */
  ghost predicate ProcessesBuffer(g: Host, h: Host, ios: seq<IoOp>)
    requires Complete(g.delegationMap)
  {
    if HasWork(g) then exists sent :: DoesProcess(g, h, sent) && ios == SendsOf(sent)
    else h == g && ios == []
  }

  ghost predicate ResendsLists(g: Host, h: Host, ios: seq<IoOp>) {
    h == g && exists sent :: ResendsAll(g.sd, g.constants.me, sent) && ios == SendsOf(sent)
  }

  class HostState {
    var nextActionIndex: U64
    var resendCount: U64
    const constants: Constants
    const delegationMap: DelegationMap
    var h: Hashtable
    const sd: CSingleDelivery
    var receivedPacket: Option<Packet>
    var numDelegations: U64
    ghost var receivedRequests: seq<AppRequest>

    ghost function Repr(): set<object> {
      {this, delegationMap, delegationMap.lows, delegationMap.lows.keys, sd}
    }

    /** The protocol state this object stands for. */
    ghost function View(): Host
      reads Repr()
    {
      Host(constants, delegationMap.m, h, sd.View(), receivedPacket, numDelegations, receivedRequests)
    }

    ghost predicate Valid()
      reads Repr()
    {
      && delegationMap.Valid()
      && (forall k :: k in h ==> ValidValue(h[k]))
      && sd.Valid()
      && ValidBuffered(receivedPacket, constants.me)
      && constants.params == STATIC_PARAMS
      && constants.me.ValidPhysicalAddress()
      && numDelegations < constants.params.maxDelegations
    }

    ghost predicate Invariants(me: EndPoint)
      reads Repr()
    {
      && nextActionIndex < 3
      && resendCount < RESEND_PERIOD
      && constants.me == me
      && Valid()
    }

    constructor (constants: Constants)
      requires constants.params == STATIC_PARAMS
      requires constants.me.ValidPhysicalAddress() && constants.rootIdentity.ValidPhysicalAddress()
      ensures Invariants(constants.me) && fresh(Repr())
      ensures View() == Host(constants, InitialTable(constants.rootIdentity), map[], EMPTY_DELIVERY, None, 1, [])
    {
      this.constants := constants;
      delegationMap := new DelegationMap(constants.rootIdentity);
      sd := new CSingleDelivery();
      nextActionIndex, resendCount, numDelegations := 0, 0, 1;
      h, receivedPacket, receivedRequests := map[], None, [];
    }

    /** Starts exactly when the arguments are valid, distinct addresses, and then in the protocol's initial state. */
    static method RealInitImpl(netc: NetClient, args: seq<seq<Byte>>) returns (rc: Option<HostState>)
      requires netc.me.ValidPhysicalAddress()
      ensures rc.Some? <==> ParseArgs(args).Some? && |ParseArgs(args).value| > 0 && Unique(ParseArgs(args).value)
      ensures rc.Some? ==> rc.value.Invariants(netc.me) && Init(rc.value.View(), netc.me, args)
      ensures rc.Some? ==> fresh(rc.value.Repr())
    {
      var constants := ParseCommandLineConfiguration(args, netc.me);
      if constants.None? {
        return None;
      }
      var host := new HostState(constants.value);
      return Some(host);
    }

    // ----- taking in a packet -----

    /** Either the buffer was full and nothing happens, or the packet is taken in as the protocol computes it. */
    method HostModelReceivePacket(cpacket: Packet) returns (sent: seq<Packet>)
      requires Valid() && cpacket.dst == constants.me && OnWire(cpacket.msg)
      modifies this, sd
      ensures Valid()
      ensures nextActionIndex == old(nextActionIndex) && resendCount == old(resendCount)
      ensures if old(receivedPacket).None? then
                && View() == TookIn(old(View()), cpacket)
                && sent == AcksFor(sd.View(), cpacket)
              else
                View() == old(View()) && sent == []
      ensures DoesReceive(old(View()), View(), cpacket, sent)
    {
      if receivedPacket.None? {
        TakingInDoes(View(), cpacket);
      }
      sent := [];
      if receivedPacket.None? {
        var rr := sd.ReceiveImpl(cpacket);
        match rr {
          case FreshPacket(ack) =>
            sent := sent + [ack];
            receivedPacket := Some(cpacket);
          case DuplicatePacket(ack) =>
            sent := sent + [ack];
          case AckOrInvalid =>
        }
      }
    }

    // ----- processing the buffered packet -----

    method ShouldProcessReceivedMessageImpl() returns (b: bool)
      requires Valid()
      ensures b == ShouldProcess(View())
    {
      match receivedPacket {
        case None => return false;
        case Some(p) =>
          match p.msg {
            case Message(_, _, m) =>
              if m.Delegate? || m.Shard? {
                // Comparing with maxDelegations - 2 could underflow; these two u64s cannot.
                var lhs: U64 := numDelegations + 1;
                var rhs: U64 := constants.params.maxDelegations - 1;
                return lhs < rhs;
              } else {
                return true;
              }
            case Ack(_) => return false;
            case InvalidMessage => return false;
          }
      }
    }

    method HostModelNextGetRequest() returns (sent: seq<Packet>)
      requires Valid() && receivedPacket.Some? && receivedPacket.value.msg.m.GetRequest?
      modifies this, sd
      ensures Valid() && receivedPacket == None
      ensures nextActionIndex == old(nextActionIndex) && resendCount == old(resendCount)
      ensures NextGetRequest(old(View()), View(), old(receivedPacket.value), PacketSet(sent))
      ensures Outbound(sent, constants.me)
      ensures Complete(old(View()).delegationMap)
      ensures var p := old(receivedPacket.value);
              DoesGet(old(View()), View(), p.src, p.msg.seqno, p.msg.m.key, sent)
    {
      hide DelegationMap.Valid, Complete, ValidSendState, SendSingleMessage, NextNumber, Sends;
      ValidImpliesComplete(delegationMap);
      ghost var g := View();
      var src, k, seqno := receivedPacket.value.src, receivedPacket.value.msg.m.key, receivedPacket.value.msg.seqno;
      var owner := delegationMap.Get(k);
      var itsMe := owner == constants.me;
      var m := if itsMe then Reply(k, Lookup(h, k)) else Redirect(k, owner);
      var sm := sd.SendSingleCMessage(m, src);
      SendingSends(g, sd.View(), m, src, sm);
      receivedPacket := None;
      match sm {
        case Some(sm) =>
          receivedRequests := if itsMe then receivedRequests + [AppGetRequest(seqno, k)] else receivedRequests;
          sent := [Packet(src, constants.me, sm)];
          assert PacketSet(sent) == {Packet(src, constants.me, sm)};
          assert NextGetRequestReply(old(View()), View(), src, seqno, k, sm, m, PacketSet(sent), true);
        case None =>
          sent := [];
          UnsentChangesNothing(old(sd.View()), sd.View(), m, src, STATIC_PARAMS);
          assert PacketSet(sent) == {};
          assert NextGetRequestReply(old(View()), View(), src, seqno, k, InvalidMessage, m, PacketSet(sent), false);
      }
    }

    method HostModelNextSetRequest() returns (sent: seq<Packet>)
      requires Valid() && receivedPacket.Some? && receivedPacket.value.msg.m.SetRequest?
      modifies this, sd
      ensures Valid() && receivedPacket == None
      ensures nextActionIndex == old(nextActionIndex) && resendCount == old(resendCount)
      ensures NextSetRequest(old(View()), View(), old(receivedPacket.value), PacketSet(sent))
      ensures Outbound(sent, constants.me)
      ensures Complete(old(View()).delegationMap)
      ensures var p := old(receivedPacket.value);
              DoesSet(old(View()), View(), p.src, p.msg.seqno, p.msg.m.key, p.msg.m.ov, sent)
    {
      hide DelegationMap.Valid, Complete, ValidSendState, SendSingleMessage, NextNumber, Sends, Stores;
      ValidImpliesComplete(delegationMap);
      ghost var g := View();
      var src, seqno, reqm := receivedPacket.value.src, receivedPacket.value.msg.seqno, receivedPacket.value.msg.m;
      var k, ov := reqm.key, reqm.ov;
      var owner := delegationMap.Get(k);
      receivedPacket := None;
      sent := [];
      if !IsMarshallable(reqm) {
        assert PacketSet(sent) == {};
        assert NextSetRequestComplete(old(View()), View(), src, seqno, reqm, InvalidMessage, reqm, PacketSet(sent),
            true);
        return;
      }
      var itsMe := owner == constants.me;
      var mm := if itsMe then Reply(k, ov) else Redirect(k, owner);
      var sm := sd.SendSingleCMessage(mm, src);
      SendingSends(g, sd.View(), mm, src, sm);
      SettingStores(g.h, k, ov);
      match sm {
        case Some(sm) =>
          sent := [Packet(src, constants.me, sm)];
          if itsMe {
            receivedRequests := receivedRequests + [AppSetRequest(seqno, k, ov)];
            match ov {
              case Some(v) => h := h[k := v];
              case None => h := h - {k};
            }
          }
          assert PacketSet(sent) == {Packet(src, constants.me, sm)};
          assert NextSetRequestComplete(old(View()), View(), src, seqno, reqm, sm, mm, PacketSet(sent), true);
        case None =>
          UnsentChangesNothing(old(sd.View()), sd.View(), mm, src, STATIC_PARAMS);
          assert PacketSet(sent) == {};
          assert NextSetRequestComplete(old(View()), View(), src, seqno, reqm, InvalidMessage, mm, PacketSet(sent),
              false);
      }
    }

    /** A nonsensical Delegate is dropped; any other is adopted if a host sent it. */
    method HostModelNextDelegate() returns (sent: seq<Packet>)
      requires Valid() && receivedPacket.Some? && receivedPacket.value.msg.m.Delegate?
      requires ShouldProcess(View())
      modifies this, delegationMap, delegationMap.lows, delegationMap.lows.keys
      ensures Valid() && receivedPacket == None
      ensures nextActionIndex == old(nextActionIndex) && resendCount == old(resendCount)
      ensures sent == []
      ensures if IsMarshallable(old(receivedPacket.value.msg.m)) then
                NextDelegate(old(View()), View(), old(receivedPacket.value), {})
              else
                View() == old(View()).(receivedPacket := None) && Nonsensical(old(receivedPacket.value))
      ensures var p := old(receivedPacket.value);
              DoesDelegate(old(View()), View(), p.src, p.msg.m.range, p.msg.m.h, sent)
    {
      hide DelegationMap.Valid, Complete, ValidSendState, Reassign, BulkUpdate, ValidHashtable, Hands, Adopts,
           ManyOrLong;
      ValidImpliesComplete(delegationMap);
      ghost var g := View();
      var p := receivedPacket.value;
      SensibleDelegates(p.msg.m.range, p.msg.m.h);
      receivedPacket := None;
      sent := [];
      if IsMarshallable(p.msg.m) && p.src in constants.hostIds {
        var range, table := p.msg.m.range, p.msg.m.h;
        delegationMap.Set(range.lo, range.hi, constants.me);
        BulkUpdateStaysValid(h, range, table);
        UpdatingAdopts(h, range, table);
        ReassignHands(g.delegationMap, range, constants.me);
        h := BulkUpdate(h, range, table);
        numDelegations := numDelegations + 1;
        assert KeyRange(range.lo, range.hi) == range;
      }
    }

    method HostModelNextShard() returns (sent: seq<Packet>)
      requires Valid() && receivedPacket.Some? && receivedPacket.value.msg.m.Shard?
      requires ShouldProcess(View())
      modifies Repr()
      ensures Valid() && receivedPacket == None
      ensures nextActionIndex == old(nextActionIndex) && resendCount == old(resendCount)
      ensures NextShardWrapper(old(View()), View(), old(receivedPacket.value), PacketSet(sent))
      ensures Outbound(sent, constants.me)
      ensures DoesShard(old(View()), View(), old(receivedPacket.value).msg.m.range,
                        old(receivedPacket.value).msg.m.recipient, sent)
    {
      hide DelegationMap.Valid, Complete, ValidSendState, RangeIsOn, NextShardWrapper, ExtractRange, DoesShard;
      ValidImpliesComplete(delegationMap);
      ghost var g := View();
      var pkt := receivedPacket.value;
      var kr, recipient := pkt.msg.m.range, pkt.msg.m.recipient;
      receivedPacket := None;
      if !IsMarshallable(pkt.msg.m) || recipient == constants.me || recipient !in constants.hostIds {
        RejectedShard(g, pkt);
        RejectedDrops(g, kr, recipient);
        return [];
      }
      var owned := delegationMap.RangeConsistentImpl(kr.lo, kr.hi, constants.me);
      assert KeyRange(kr.lo, kr.hi) == kr;
      if !owned {
        RejectedShard(g, pkt);
        RejectedDrops(g, kr, recipient);
        return [];
      }
      var table := ExtractRange(h, kr);
      if |table| >= MAX_HASHTABLE_SIZE {
        RejectedShard(g, pkt);
        RejectedDrops(g, kr, recipient);
        return [];
      }
      var sm;
      sm, sent := HandOver(kr, recipient, table);
      AcceptedShard(g, View(), pkt, sm, sent);
      AcceptedShips(g, View(), kr, recipient, sm, sent);
    }

    /** Sends the range away; if its Delegate cannot be numbered, only the count of delegations changes. */
    method HandOver(kr: KeyRange, recipient: EndPoint, table: Hashtable)
      returns (sm: Option<SingleMessage>, sent: seq<Packet>)
      requires Valid() && recipient.ValidPhysicalAddress() && numDelegations < constants.params.maxDelegations - 1
      modifies Repr()
      ensures Valid()
      ensures nextActionIndex == old(nextActionIndex) && resendCount == old(resendCount)
      ensures sm.Some? ==> sm.value.Message? && sm.value.dst == recipient
      ensures SendSingleMessage(old(View()).sd, View().sd, Delegate(kr, table), recipient, sm, STATIC_PARAMS)
      ensures View() == old(View()).(
                          delegationMap := if sm.Some? then Reassign(old(delegationMap.m), kr, recipient)
                              else old(delegationMap.m),
                          h := if sm.Some? then BulkRemove(old(h), kr) else old(h),
                          sd := View().sd,
                          numDelegations := old(numDelegations) + 1)
      ensures sent == if sm.Some? then [Packet(recipient, constants.me, sm.value)] else []
    {
      hide DelegationMap.Valid, Complete, ValidSendState, Reassign, BulkRemove, SendSingleMessage;
      sm := sd.SendSingleCMessage(Delegate(kr, table), recipient);
      sent := [];
      numDelegations := numDelegations + 1;
      match sm {
        case None =>
        case Some(sm) =>
          delegationMap.Set(kr.lo, kr.hi, recipient);
          assert KeyRange(kr.lo, kr.hi) == kr;
          BulkRemoveStaysValid(h, kr);
          h := BulkRemove(h, kr);
          sent := [Packet(recipient, constants.me, sm)];
      }
    }

    /** Processing is a protocol step, or it drops a Delegate that no host would send. */
    method HostModelNextReceiveMessage() returns (sent: seq<Packet>)
      requires Valid() && ShouldProcess(View())
      modifies Repr()
      ensures Valid()
      ensures nextActionIndex == old(nextActionIndex) && resendCount == old(resendCount)
      ensures Outbound(sent, constants.me)
      ensures FramedNext(old(View()), View(), SendsOf(sent))
      ensures Complete(old(View()).delegationMap) && HasWork(old(View())) && DoesProcess(old(View()), View(), sent)
    {
      hide DelegationMap.Valid, Complete, FramedNext, NextGetRequest, NextSetRequest, NextDelegate,
           NextShardWrapper, DoesGet, DoesSet, DoesDelegate, DoesShard;
      ValidImpliesComplete(delegationMap);
      ghost var g := View();
      match receivedPacket.value.msg.m {
        case GetRequest(_) =>
          sent := HostModelNextGetRequest();
          ProcessedIsNext(g, View(), sent);
        case SetRequest(_, _) =>
          sent := HostModelNextSetRequest();
          ProcessedIsNext(g, View(), sent);
        case Delegate(_, _) =>
          sent := HostModelNextDelegate();
          assert PacketSet(sent) == {};
          if IsMarshallable(g.receivedPacket.value.msg.m) {
            ProcessedIsNext(g, View(), sent);
          } else {
            IgnoredIsNext(g);
          }
        case Shard(_, _) =>
          sent := HostModelNextShard();
          ProcessedIsNext(g, View(), sent);
        case Reply(_, _) =>
          receivedPacket := None;
          sent := [];
          assert PacketSet(sent) == {};
          ProcessedIsNext(g, View(), sent);
        case Redirect(_, _) =>
          receivedPacket := None;
          sent := [];
          assert PacketSet(sent) == {};
          ProcessedIsNext(g, View(), sent);
      }
    }

    // ----- the scheduler -----

    /** Takes in a packet that parsed, and sends what it calls for. */
    method HostNextReceivePacket(netc: NetClient, cpacket: Packet) returns (ok: bool, ghost res: EventResults)
      requires Invariants(netc.me) && netc.Valid() && netc.Ok()
      requires cpacket.dst == netc.me && OnWire(cpacket.msg) && !cpacket.msg.InvalidMessage?
      modifies this, sd, netc
      ensures forall arrivals :: Delivers(arrivals, netc.me, cpacket) ==> Addressed(res.EventSeq(), netc.me, arrivals)
      ensures Invariants(netc.me) && nextActionIndex == old(nextActionIndex) && resendCount == old(resendCount)
      ensures netc.Valid() && ok == netc.Ok() && res.WellTyped()
      ensures FramedNext(old(View()), View(), res.EventSeq())
      ensures exists sent ::
        && res.EventSeq() == [IoOp.Receive(cpacket)] + sent
        && old(netc.history) <= netc.history <= old(netc.history) + sent
        && (ok ==> netc.history == old(netc.history) + sent)
      ensures exists sent ::
        DoesReceive(old(View()), View(), cpacket, sent) && res.EventSeq() == [IoOp.Receive(cpacket)] + SendsOf(sent)
    {
      hide DoesReceive, DelegationMap.Valid, Complete, FramedNext, TookIn, Delivered, CSingleDelivery.Valid;
      ValidImpliesComplete(delegationMap);
      ghost var g := View();
      var sent := HostModelReceivePacket(cpacket);
      ReceivedIsNext(g, View(), cpacket, sent);
      assert Outbound(sent, netc.me) by { AcksAreOutbound(g, cpacket); }
      ok := netc.SendPacketSeq(sent);
      res := EventResults([IoOp.Receive(cpacket)], [], SendsOf(sent));
      assert res.EventSeq() == [IoOp.Receive(cpacket)] + SendsOf(sent);
    }

    method ReceivePacketNext(netc: NetClient) returns (ok: bool, ghost res: EventResults)
      requires Invariants(netc.me) && netc.Valid() && netc.state == Receiving
      modifies this, sd, netc
      ensures StepDone(netc, ok, res, old(View()), old(netc.history), old(netc.arrivals))
      ensures TakesInFirst(old(View()), View(), netc.me, old(netc.arrivals), res.EventSeq())
      ensures nextActionIndex == old(nextActionIndex) && resendCount == old(resendCount)
    {
      hide DelegationMap.Valid, Complete, FramedNext, CSingleDelivery.Valid, DoesReceive;
      ValidImpliesComplete(delegationMap);
      ghost var g, was := View(), netc.history;
      var rr := netc.Receive();
      match rr {
        case Failed =>
          ok, res := false, NO_EVENTS;
          NothingIsNext(g);
        case TimedOut =>
          ok, res := true, EventResults([], [TimeoutReceive], []);
          TimeoutIsNext(g);
        case Received(sender, message) =>
          var cpacket := Packet(netc.me, sender, Demarshalled(message));
          if cpacket.msg.InvalidMessage? {
            ok, res := true, EventResults([IoOp.Receive(cpacket)], [], []);
            assert res.EventSeq() == [IoOp.Receive(cpacket)];
            InvalidIsNext(g, cpacket);
          } else {
            ok, res := HostNextReceivePacket(netc, cpacket);
            ghost var sent := res.EventSeq()[1..];
            assert was + res.EventSeq() == was + [IoOp.Receive(cpacket)] + sent;
          }
      }
    }

    method ProcessReceivedPacketNextImpl(netc: NetClient) returns (ok: bool, ghost res: EventResults)
      requires Invariants(netc.me) && netc.Valid() && netc.state == Receiving
      modifies Repr(), netc
      ensures StepDone(netc, ok, res, old(View()), old(netc.history), old(netc.arrivals))
      ensures Complete(old(View()).delegationMap) && ProcessesBuffer(old(View()), View(), res.EventSeq())
      ensures nextActionIndex == old(nextActionIndex) && resendCount == old(resendCount)
    {
      hide DelegationMap.Valid, Complete, FramedNext, DoesProcess;
      ValidImpliesComplete(delegationMap);
      ghost var g := View();
      var shouldProcess := ShouldProcessReceivedMessageImpl();
      if !shouldProcess {
        NothingIsNext(g);
        return true, NO_EVENTS;
      }
      var sent := HostModelNextReceiveMessage();
      ok := netc.SendPacketSeq(sent);
      res := EventResults([], [], SendsOf(sent));
      assert res.EventSeq() == SendsOf(sent);
    }

    method HostNoReceiveNoClockNext(netc: NetClient) returns (ok: bool, ghost res: EventResults)
      requires Invariants(netc.me) && netc.Valid() && netc.state == Receiving
      modifies netc
      ensures StepDone(netc, ok, res, old(View()), old(netc.history), old(netc.arrivals))
      ensures ResendsLists(old(View()), View(), res.EventSeq())
    {
      hide DelegationMap.Valid, Complete, FramedNext, UnAckedMessages, ResendsAll;
      ValidImpliesComplete(delegationMap);
      var sent := sd.RetransmitUnAckedPackets(constants.me);
      RetransmittedIsNext(View(), sent);
      ok := netc.SendPacketSeq(sent);
      res := EventResults([], [], SendsOf(sent));
      assert res.EventSeq() == SendsOf(sent);
    }

    /** The step this host took, whether or not the network carried all of it out. */
    ghost predicate StepDone(netc: NetClient, ok: bool, res: EventResults, was: Host, history: seq<IoOp>,
                             arrivals: seq<NetcReceiveResult>)
      reads Repr(), netc
    {
      && Addressed(res.EventSeq(), netc.me, arrivals)
      && Invariants(netc.me)
      && netc.Valid() && ok == netc.Ok()
      && FramedNext(was, View(), res.EventSeq())
      && res.WellTyped()
      && history <= netc.history <= history + res.EventSeq()
      && (ok ==> netc.history == history + res.EventSeq())
    }

    /** What the `turn`th of three turns does: take in, process, or now and then send again. */
    ghost predicate TakesTurn(turn: U64, resends: U64, g: Host, h: Host, me: EndPoint,
                              arrivals: seq<NetcReceiveResult>, ios: seq<IoOp>)
      requires Complete(g.delegationMap)
    {
      if turn == 0 then TakesInFirst(g, h, me, arrivals, ios)
      else if turn == 1 then ProcessesBuffer(g, h, ios)
      else if resends == RESEND_PERIOD - 1 then ResendsLists(g, h, ios)
      else h == g && ios == []
    }

    /**
     Whatever the network does, the host takes one step of the protocol whose events are receives, then
     clock readings, then sends. Of these the network saw a prefix, and all of them if no send failed. When it is
     their turn, the host takes in what arrives, processes what is buffered, and sends again what is not acknowledged.
     */
    method RealNextImpl(netc: NetClient) returns (ok: bool, ghost res: EventResults)
      requires Invariants(netc.me) && netc.Valid() && netc.state == Receiving
      modifies Repr(), netc
      ensures StepDone(netc, ok, res, old(View()), old(netc.history), old(netc.arrivals))
      ensures nextActionIndex == if ok then (old(nextActionIndex) + 1) % 3 else old(nextActionIndex)
      ensures resendCount == if old(nextActionIndex) == 2 then (old(resendCount) + 1) % RESEND_PERIOD
                             else old(resendCount)
      ensures Complete(old(View()).delegationMap)
      ensures TakesTurn(old(nextActionIndex), old(resendCount), old(View()), View(), netc.me, old(netc.arrivals),
                        res.EventSeq())
    {
      hide DelegationMap.Valid, Complete, FramedNext, TakesInFirst, ProcessesBuffer, ResendsLists;
      ValidImpliesComplete(delegationMap);
      if nextActionIndex == 0 {
        ok, res := ReceivePacketNext(netc);
      } else if nextActionIndex == 1 {
        ok, res := ProcessReceivedPacketNextImpl(netc);
      } else {
        resendCount := (resendCount + 1) % RESEND_PERIOD;
        if resendCount == 0 {
          ok, res := HostNoReceiveNoClockNext(netc);
        } else {
          ok, res := true, NO_EVENTS;
          NothingIsNext(View());
        }
      }
      if !ok {
        return;
      }
      nextActionIndex := (nextActionIndex + 1) % 3;
    }
  }

  lemma BulkUpdateStaysValid(h: Hashtable, kr: KeyRange, u: Hashtable)
    requires forall k :: k in h ==> ValidValue(h[k])
    requires ValidHashtable(u)
    ensures forall k :: k in BulkUpdate(h, kr, u) ==> ValidValue(BulkUpdate(h, kr, u)[k])
  {
  }

  lemma BulkRemoveStaysValid(h: Hashtable, kr: KeyRange)
    requires forall k :: k in h ==> ValidValue(h[k])
    ensures forall k :: k in BulkRemove(h, kr) ==> ValidValue(BulkRemove(h, kr)[k])
  {
  }

  lemma RejectedShard(g: Host, pkt: Packet)
    requires Complete(g.delegationMap) && pkt.msg.Message? && pkt.msg.m.Shard? && MustRejectShard(g, pkt.msg.m)
    ensures NextShardWrapper(g, g.(receivedPacket := None), pkt, PacketSet([]))
  {
    hide MustRejectShard;
  }

  lemma RejectedDrops(g: Host, kr: KeyRange, recipient: EndPoint)
    requires Complete(g.delegationMap) && MustRejectShard(g, Shard(kr, recipient))
    ensures DoesShard(g, g.(receivedPacket := None), kr, recipient, [])
  {
    ShippingIsAllowed(g, kr, recipient);
  }

  lemma AcceptedShips(g: Host, h: Host, kr: KeyRange, recipient: EndPoint, sm: Option<SingleMessage>,
                      sent: seq<Packet>)
    requires Complete(g.delegationMap) && !MustRejectShard(g, Shard(kr, recipient))
    requires SendSingleMessage(g.sd, h.sd, Delegate(kr, ExtractRange(g.h, kr)), recipient, sm, STATIC_PARAMS)
    requires h == g.(delegationMap := if sm.Some? then Reassign(g.delegationMap, kr, recipient) else g.delegationMap,
                     h := if sm.Some? then BulkRemove(g.h, kr) else g.h,
                     sd := h.sd, receivedPacket := None, numDelegations := g.numDelegations + 1)
    requires sent == if sm.Some? then [Packet(recipient, g.constants.me, sm.value)] else []
    ensures DoesShard(g, h, kr, recipient, sent)
  {
    ShippingIsAllowed(g, kr, recipient);
    SendingSends(g, h.sd, Delegate(kr, ExtractRange(g.h, kr)), recipient, sm);
    ReassignHands(g.delegationMap, kr, recipient);
    ExtractingSplits(g.h, kr);
    hide Complete, MustRejectShard, Reassign, BulkRemove, ExtractRange, MayShip, Splits, Hands;
  }

  lemma AcceptedShard(g: Host, h: Host, pkt: Packet, sm: Option<SingleMessage>, sent: seq<Packet>)
    requires Complete(g.delegationMap) && pkt.msg.Message? && pkt.msg.m.Shard? && !MustRejectShard(g, pkt.msg.m)
    requires g.constants.params == STATIC_PARAMS
    requires sm.Some? ==> sm.value.Message? && sm.value.dst == pkt.msg.m.recipient
    requires var kr, recipient := pkt.msg.m.range, pkt.msg.m.recipient;
             && SendSingleMessage(g.sd, h.sd, Delegate(kr, ExtractRange(g.h, kr)), recipient, sm, STATIC_PARAMS)
             && h == g.(delegationMap := if sm.Some? then Reassign(g.delegationMap, kr, recipient) else g.delegationMap,
                        h := if sm.Some? then BulkRemove(g.h, kr) else g.h,
                        sd := h.sd, receivedPacket := None, numDelegations := g.numDelegations + 1)
             && sent == if sm.Some? then [Packet(recipient, g.constants.me, sm.value)] else []
    ensures NextShardWrapper(g, h, pkt, PacketSet(sent))
  {
    hide Complete, SendSingleMessage, Reassign, BulkRemove, ExtractRange, RangeIsOn;
    var kr, recipient := pkt.msg.m.range, pkt.msg.m.recipient;
    match sm {
      case None =>
        assert PacketSet(sent) == {};
        assert NextShard(g, h, PacketSet(sent), kr, recipient, InvalidMessage, false);
      case Some(sm) =>
        assert PacketSet(sent) == {Packet(recipient, g.constants.me, sm)};
        assert NextShard(g, h, PacketSet(sent), kr, recipient, sm, true);
    }
  }

  // ----- each kind of step is a step of the protocol -----

  lemma ProcessedIsNext(g: Host, h: Host, sent: seq<Packet>)
    requires Complete(g.delegationMap) && ShouldProcess(g)
    requires h.constants == g.constants && h.receivedPacket == None && Outbound(sent, g.constants.me)
    requires var pkt, out := g.receivedPacket.value, PacketSet(sent);
             || NextGetRequest(g, h, pkt, out)
             || NextSetRequest(g, h, pkt, out)
             || NextDelegate(g, h, pkt, out)
             || NextShardWrapper(g, h, pkt, out)
             || NextReplyOrRedirect(g, h, pkt, out)
    ensures FramedNext(g, h, SendsOf(sent))
  {
    hide Complete, NextGetRequest, NextSetRequest, NextDelegate, NextShardWrapper, NextReplyOrRedirect;
    SendsOfSend(sent);
    assert NextStep(g, h, SendsOf(sent), StepProcessReceivedPacket);
  }

  lemma IgnoredIsNext(g: Host)
    requires Complete(g.delegationMap) && ShouldProcess(g) && Nonsensical(g.receivedPacket.value)
    ensures FramedNext(g, g.(receivedPacket := None), SendsOf([]))
  {
    hide Complete, Nonsensical;
    assert NextStep(g, g.(receivedPacket := None), SendsOf([]), StepIgnoreNonsensicalDelegationPacket);
  }

  lemma NothingIsNext(g: Host)
    requires Complete(g.delegationMap)
    ensures FramedNext(g, g, NO_EVENTS.EventSeq())
  {
    hide Complete;
    assert NextStep(g, g, NO_EVENTS.EventSeq(), StepStutter);
  }

  lemma TimeoutIsNext(g: Host)
    requires Complete(g.delegationMap)
    ensures FramedNext(g, g, EventResults([], [TimeoutReceive], []).EventSeq())
  {
    hide Complete;
    assert NextStep(g, g, EventResults([], [TimeoutReceive], []).EventSeq(), StepReceivePacket);
  }

  lemma InvalidIsNext(g: Host, pkt: Packet)
    requires Complete(g.delegationMap) && pkt.msg.InvalidMessage?
    ensures FramedNext(g, g, [IoOp.Receive(pkt)])
  {
    hide Complete;
    assert NextStep(g, g, [IoOp.Receive(pkt)], StepIgnoreUnparseablePacket);
  }

  lemma ReceivedIsNext(g: Host, h: Host, pkt: Packet, sent: seq<Packet>)
    requires Complete(g.delegationMap)
    requires if g.receivedPacket.None? then h == TookIn(g, pkt) && sent == AcksFor(h.sd, pkt) else h == g && sent == []
    ensures FramedNext(g, h, [IoOp.Receive(pkt)] + SendsOf(sent))
  {
    hide Complete;
    var ios := [IoOp.Receive(pkt)] + SendsOf(sent);
    if g.receivedPacket.None? {
      TakingInReceives(g, h, pkt);
    } else {
      SendsOfSend(sent);
      assert PacketSet(sent) == {};
      assert ReceivePacket(g, h, pkt, SentPackets(ios), pkt);
    }
    assert NextStep(g, h, ios, StepReceivePacket);
  }

  lemma AcksAreOutbound(g: Host, pkt: Packet)
    ensures Outbound(AcksFor(Delivered(g.sd, pkt), pkt), pkt.dst)
  {
  }

  lemma RetransmittedIsNext(g: Host, sent: seq<Packet>)
    requires Complete(g.delegationMap)
    requires PacketSet(sent) == UnAckedMessages(g.sd, g.constants.me)
    requires forall i :: 0 <= i < |sent| ==> sent[i].msg.Message?
    ensures FramedNext(g, g, SendsOf(sent))
  {
    hide Complete, UnAckedMessages;
    SendsOfSend(sent);
    assert NextStep(g, g, SendsOf(sent), StepSpontaneouslyRetransmit);
  }

}
