/**
 Any number of hosts on an asynchronous network that may lose, duplicate and reorder packets.

 A key is *claimed* by the host whose own table says it is there, by a Delegate that its sender still
 holds for its receiver, or by a Delegate buffered at its receiver. The main results are that every key
 has exactly one claim in every reachable state, and that the hosts together implement one table.
 */
module ShardedStore {
  import opened Options
  import opened KeyRanges
  import opened SingleDelivery
  import opened HostProtocol

  datatype State = State(hosts: map<EndPoint, Host>, network: set<Packet>)

  /** A host takes a protocol step, or an endpoint that is not a host sends whatever it likes. */
  datatype Event = HostStep(id: EndPoint, ios: seq<IoOp>) | ClientSend(p: Packet)

  ghost predicate SystemInit(s: State, args: seq<seq<Byte>>) {
    && ParseArgs(args).Some?
    && |ParseArgs(args).value| > 0
    && s.hosts.Keys == (set e | e in ParseArgs(args).value)
    && (forall id :: id in s.hosts ==> Init(s.hosts[id], id, args))
    && s.network == {}
  }

  /** Packets carry their true source, and only packets addressed to a host and really sent reach it. */
  predicate ValidIos(s: State, id: EndPoint, ios: seq<IoOp>) {
    forall i :: 0 <= i < |ios| ==>
      && (ios[i].Send? ==> ios[i].s.src == id)
      && (ios[i].Receive? ==> ios[i].r.dst == id && ios[i].r in s.network)
  }

  ghost predicate StepWith(s: State, s': State, e: Event, framed: bool) {
    match e
    case HostStep(id, ios) =>
      && id in s.hosts
      && ValidIos(s, id, ios)
      && s'.network == s.network + SentPackets(ios)
      && id in s'.hosts
      && s'.hosts == s.hosts[id := s'.hosts[id]]
      && (if framed then FramedNext(s.hosts[id], s'.hosts[id], ios) else Next(s.hosts[id], s'.hosts[id], ios))
    case ClientSend(p) =>
      && p.src !in s.hosts
      && s' == s.(network := s.network + {p})
  }

  ghost predicate SystemNext(s: State, s': State, e: Event) {
    StepWith(s, s', e, true)
  }

  /** The same system over the host relation as the source writes it. */
  ghost predicate WrittenNext(s: State, s': State, e: Event) {
    StepWith(s, s', e, false)
  }

  // ----- claims -----

  datatype Claim = Owner(host: EndPoint) | InFlight(src: EndPoint, dst: EndPoint, seqno: nat) | Buffered(host: EndPoint)

  function Lane(hosts: map<EndPoint, Host>, src: EndPoint, dst: EndPoint): AckState
    requires src in hosts
  {
    AckStateLookup(dst, hosts[src].sd.sendState)
  }

  function Seen(hosts: map<EndPoint, Host>, src: EndPoint, dst: EndPoint): nat
    requires dst in hosts
  {
    TombstoneLookup(src, hosts[dst].sd.receiveState)
  }

  /** The Delegate numbered `n` that a sender still holds and its receiver has not seen. */
  ghost function Held(a: AckState, seen: nat, n: nat): Option<Msg> {
    if seen < n && a.numPacketsAcked < n <= a.numPacketsAcked + |a.unAcked| then
      var sm := a.unAcked[n - a.numPacketsAcked - 1];
      if sm.Message? && sm.m.Delegate? then Some(sm.m) else None
    else None
  }

  /** The Delegate behind a claim that is on its way. */
  ghost function Carried(hosts: map<EndPoint, Host>, c: Claim): Option<Msg> {
    match c
    case Owner(_) => None
    case InFlight(s, d, n) =>
      if s in hosts && d in hosts then Held(Lane(hosts, s, d), Seen(hosts, s, d), n) else None
    case Buffered(d) =>
      if d in hosts && hosts[d].receivedPacket.Some? then
        var p := hosts[d].receivedPacket.value;
        if p.src in hosts && p.msg.Message? && p.msg.m.Delegate? then Some(p.msg.m) else None
      else None
  }

  ghost predicate Claims(hosts: map<EndPoint, Host>, k: Key, c: Claim) {
    if c.Owner? then
      c.host in hosts && k in hosts[c.host].delegationMap && hosts[c.host].delegationMap[k] == c.host
    else
      Carried(hosts, c).Some? && Carried(hosts, c).value.Delegate? && Carried(hosts, c).value.range.Contains(k)
  }

  ghost function ClaimedValue(hosts: map<EndPoint, Host>, k: Key, c: Claim): Option<Value>
    requires Claims(hosts, k, c)
  {
    Lookup(if c.Owner? then hosts[c.host].h else Carried(hosts, c).value.h, k)
  }

  ghost predicate ExactlyOneClaim(hosts: map<EndPoint, Host>, k: Key) {
    exists c :: Claims(hosts, k, c) && forall c' :: Claims(hosts, k, c') ==> c' == c
  }

  ghost predicate EveryKeyClaimedOnce(hosts: map<EndPoint, Host>) {
    forall k: Key :: ExactlyOneClaim(hosts, k)
  }

  /** The one table the hosts implement together. */
  ghost function GlobalValue(hosts: map<EndPoint, Host>, k: Key): Option<Value> {
    if exists c :: Claims(hosts, k, c) then
      var c :| Claims(hosts, k, c);
      ClaimedValue(hosts, k, c)
    else None
  }

  // ----- the invariant -----

  predicate SoundDelegate(m: Msg) {
    && m.Delegate?
    && !m.range.IsEmpty()
    && ValidHashtable(m.h)
    && forall k :: k in m.h ==> m.range.Contains(k)
  }

  predicate Sequential(a: AckState, dst: EndPoint) {
    forall i :: 0 <= i < |a.unAcked| ==>
      a.unAcked[i].Message? && a.unAcked[i].seqno == a.numPacketsAcked + i + 1 && a.unAcked[i].dst == dst
  }

  ghost predicate HostInv(id: EndPoint, h: Host, ids: set<EndPoint>) {
    && h.constants.me == id
    && h.constants.params == STATIC_PARAMS
    && (forall e :: e in h.constants.hostIds <==> e in ids)
    && Complete(h.delegationMap)
    && (forall k :: k in h.h ==> ValidValue(h.h[k]))
    && (forall d :: d in h.sd.sendState ==> Sequential(h.sd.sendState[d], d))
    && (h.receivedPacket.Some? ==>
          var p := h.receivedPacket.value;
          && p.msg.Message?
          && (p.src in ids ==> SoundDelegate(p.msg.m) && p.msg.dst == id && id.ValidPhysicalAddress()))
  }

  predicate PacketInv(p: Packet, a: AckState, seen: nat, s: EndPoint, d: EndPoint) {
    && (p.src == s && p.dst == d && p.msg.Message? && p.msg.seqno > a.numPacketsAcked ==>
          p.msg.seqno <= a.numPacketsAcked + |a.unAcked| && p.msg == a.unAcked[p.msg.seqno - a.numPacketsAcked - 1])
    && (p.src == d && p.dst == s && p.msg.Ack? ==> p.msg.ackSeqno <= seen)
  }

  /** Between two hosts: acknowledged <= seen <= sent, and every packet not yet seen is still held by its sender. */
  predicate LaneInv(a: AckState, seen: nat, s: EndPoint, d: EndPoint, network: set<Packet>) {
    && Sequential(a, d)
    && a.numPacketsAcked <= seen <= a.numPacketsAcked + |a.unAcked|
    && (forall i :: 0 <= i < |a.unAcked| ==> SoundDelegate(a.unAcked[i].m) && d.ValidPhysicalAddress())
    && (forall p :: p in network ==> PacketInv(p, a, seen, s, d))
  }

  ghost predicate Inv(s: State) {
    && (forall id :: id in s.hosts ==> HostInv(id, s.hosts[id], s.hosts.Keys))
    && (forall x, y :: x in s.hosts && y in s.hosts ==>
          LaneInv(Lane(s.hosts, x, y), Seen(s.hosts, x, y), x, y, s.network))
  }

  // ----- how a step moves claims -----

  datatype Move =
    | Stay
    | Land(src: EndPoint, dst: EndPoint, seqno: nat)                // a Delegate is taken into the buffer
    | Ship(src: EndPoint, dst: EndPoint, seqno: nat, kr: KeyRange)  // an owner sends a range away
    | Adopt(host: EndPoint, kr: KeyRange)                           // a buffered Delegate is processed

  function Forward(m: Move, k: Key, c: Claim): Claim {
    match m
    case Stay => c
    case Land(s, d, n) => if c == InFlight(s, d, n) then Buffered(d) else c
    case Ship(s, d, n, kr) => if c == Owner(s) && kr.Contains(k) then InFlight(s, d, n) else c
    case Adopt(d, kr) => if c == Buffered(d) then Owner(d) else c
  }

  function Backward(m: Move, k: Key, c: Claim): Claim {
    match m
    case Stay => c
    case Land(s, d, n) => if c == Buffered(d) then InFlight(s, d, n) else c
    case Ship(s, d, n, kr) => if c == InFlight(s, d, n) then Owner(s) else c
    case Adopt(d, kr) => if c == Owner(d) && kr.Contains(k) then Buffered(d) else c
  }

  function Written(write: Option<AppRequest>, k: Key, was: Option<Value>): Option<Value> {
    if write.Some? && write.value.AppSetRequest? && write.value.key == k then write.value.ov else was
  }

  /** Claims before and after a step correspond one to one, and carry the same values but for one write. */
  ghost predicate Moved(hosts: map<EndPoint, Host>, hosts': map<EndPoint, Host>, m: Move, write: Option<AppRequest>) {
    && (forall k: Key, c :: Claims(hosts, k, c) ==>
          && Claims(hosts', k, Forward(m, k, c))
          && ClaimedValue(hosts', k, Forward(m, k, c)) == Written(write, k, ClaimedValue(hosts, k, c)))
    && (forall k: Key, c :: Claims(hosts', k, c) ==>
          && Claims(hosts, k, Backward(m, k, c))
          && Forward(m, k, Backward(m, k, c)) == c)
  }

  lemma ClaimDeterminesValue(hosts: map<EndPoint, Host>, k: Key, c: Claim)
    requires ExactlyOneClaim(hosts, k)
    requires Claims(hosts, k, c)
    ensures GlobalValue(hosts, k) == ClaimedValue(hosts, k, c)
  {
  }

  lemma MovedKeepsClaims(hosts: map<EndPoint, Host>, hosts': map<EndPoint, Host>, m: Move, write: Option<AppRequest>)
    requires EveryKeyClaimedOnce(hosts)
    requires Moved(hosts, hosts', m, write)
    ensures EveryKeyClaimedOnce(hosts')
    ensures forall k: Key :: GlobalValue(hosts', k) == Written(write, k, GlobalValue(hosts, k))
  {
    forall k: Key
      ensures ExactlyOneClaim(hosts', k)
      ensures GlobalValue(hosts', k) == Written(write, k, GlobalValue(hosts, k))
    {
      assert ExactlyOneClaim(hosts, k);
      var c :| Claims(hosts, k, c) && forall c' :: Claims(hosts, k, c') ==> c' == c;
      var d := Forward(m, k, c);
      assert Claims(hosts', k, d);
      forall d' | Claims(hosts', k, d')
        ensures d' == d
      {
        assert Claims(hosts, k, Backward(m, k, d'));
      }
      ClaimDeterminesValue(hosts, k, c);
      ClaimDeterminesValue(hosts', k, d);
    }
  }

}
