/** Two hosts and a client: a value is set on one host, its key is handed over, and the other host serves it. */
module ExampleRun {
  import opened Options
  import opened KeyRanges
  import opened SingleDelivery
  import opened HostProtocol
  import opened ShardedStore
  import opened ShardedStoreSteps
  import opened ShardedStoreTheorems
  import opened WrittenReceive
  import opened HostImpl

  const ARGS: seq<seq<Byte>> := [[1], [2]]
  const ROOT := EndPoint([1])
  const OTHER := EndPoint([2])
  const CLIENT := EndPoint([3])
  const KEY: Key := 5
  const ONE_KEY := KeyRange(At(5), At(6))
  const VALUE: Value := [42]

  // ----- what a host can do -----

  /** The next message to `dst`, and the delivery state once it is sent. */
  function NextMessage(sd: Delivery, dst: EndPoint, m: Msg): SingleMessage {
    var prior := AckStateLookup(dst, sd.sendState);
    Message(prior.numPacketsAcked + |prior.unAcked| + 1, dst, m)
  }

  function SentOn(sd: Delivery, dst: EndPoint, m: Msg): Delivery {
    var prior := AckStateLookup(dst, sd.sendState);
    sd.(sendState := sd.sendState[dst := prior.(unAcked := prior.unAcked + [NextMessage(sd, dst, m)])])
  }

  predicate CanSend(sd: Delivery, dst: EndPoint) {
    AckStateLookup(dst, sd.sendState).numPacketsAcked + |AckStateLookup(dst, sd.sendState).unAcked|
    < STATIC_PARAMS.maxSeqno
  }

  /** A host that may process what it has buffered. */
  ghost predicate Ready(s: State, id: EndPoint) {
    && id in s.hosts && s.hosts[id].constants.me == id && s.hosts[id].constants.params == STATIC_PARAMS
    && Complete(s.hosts[id].delegationMap)
    && ShouldProcess(s.hosts[id]) && CanSend(s.hosts[id].sd, s.hosts[id].receivedPacket.value.src)
  }

  lemma ProcessedStep(s: State, id: EndPoint, h: Host, sent: seq<Packet>)
    requires id in s.hosts && FramedNext(s.hosts[id], h, SendsOf(sent)) && Outbound(sent, id)
    ensures SystemNext(s, After(s, id, h, PacketSet(sent)), HostStep(id, SendsOf(sent)))
  {
    hide FramedNext;
    SendsOfSend(sent);
  }

  function AfterSet(g: Host, src: EndPoint, seqno: nat, k: Key, v: Value): Host {
    g.(h := g.h[k := v], sd := SentOn(g.sd, src, Reply(k, Some(v))), receivedPacket := None,
       receivedRequests := g.receivedRequests + [AppSetRequest(seqno, k, Some(v))])
  }

  lemma OwnerSets(s: State, id: EndPoint, src: EndPoint, seqno: nat, k: Key, v: Value) returns (sent: seq<Packet>)
    requires Ready(s, id) && s.hosts[id].delegationMap[k] == id && ValidValue(v)
    requires s.hosts[id].receivedPacket == Some(Packet(id, src, Message(seqno, id, SetRequest(k, Some(v)))))
    ensures SystemNext(s, After(s, id, AfterSet(s.hosts[id], src, seqno, k, v), PacketSet(sent)),
                       HostStep(id, SendsOf(sent)))
  {
    hide Complete, FramedNext;
    var g, reply := s.hosts[id], Reply(k, Some(v));
    var h, sm := AfterSet(g, src, seqno, k, v), NextMessage(g.sd, src, reply);
    sent := [Packet(src, id, sm)];
    assert PacketSet(sent) == {Packet(src, id, sm)};
    assert NextSetRequestComplete(g, h, src, seqno, SetRequest(k, Some(v)), sm, reply, PacketSet(sent), true);
    ProcessedIsNext(g, h, sent);
    ProcessedStep(s, id, h, sent);
  }

  function AfterGet(g: Host, src: EndPoint, seqno: nat, k: Key): Host {
    g.(sd := SentOn(g.sd, src, Reply(k, Lookup(g.h, k))), receivedPacket := None,
       receivedRequests := g.receivedRequests + [AppGetRequest(seqno, k)])
  }

  lemma OwnerGets(s: State, id: EndPoint, src: EndPoint, seqno: nat, k: Key) returns (sent: seq<Packet>)
    requires Ready(s, id) && s.hosts[id].delegationMap[k] == id
    requires s.hosts[id].receivedPacket == Some(Packet(id, src, Message(seqno, id, GetRequest(k))))
    ensures sent == [Packet(src, id, NextMessage(s.hosts[id].sd, src, Reply(k, Lookup(s.hosts[id].h, k))))]
    ensures SystemNext(s, After(s, id, AfterGet(s.hosts[id], src, seqno, k), PacketSet(sent)),
                       HostStep(id, SendsOf(sent)))
  {
    hide Complete, FramedNext;
    var g := s.hosts[id];
    var reply := Reply(k, Lookup(g.h, k));
    var h, sm := AfterGet(g, src, seqno, k), NextMessage(g.sd, src, reply);
    sent := [Packet(src, id, sm)];
    assert PacketSet(sent) == {Packet(src, id, sm)};
    assert NextGetRequestReply(g, h, src, seqno, k, sm, reply, PacketSet(sent), true);
    ProcessedIsNext(g, h, sent);
    ProcessedStep(s, id, h, sent);
  }

  ghost function AfterShard(g: Host, kr: KeyRange, to: EndPoint): Host {
    g.(delegationMap := Reassign(g.delegationMap, kr, to), h := BulkRemove(g.h, kr),
       sd := SentOn(g.sd, to, Delegate(kr, ExtractRange(g.h, kr))), receivedPacket := None,
       numDelegations := g.numDelegations + 1)
  }

  lemma OwnerShards(s: State, id: EndPoint, src: EndPoint, seqno: nat, kr: KeyRange, to: EndPoint)
    returns (sent: seq<Packet>)
    requires Ready(s, id) && CanSend(s.hosts[id].sd, to)
    requires s.hosts[id].receivedPacket == Some(Packet(id, src, Message(seqno, id, Shard(kr, to))))
    requires !MustRejectShard(s.hosts[id], Shard(kr, to))
    ensures sent == [Packet(to, id, NextMessage(s.hosts[id].sd, to, Delegate(kr, ExtractRange(s.hosts[id].h, kr))))]
    ensures SystemNext(s, After(s, id, AfterShard(s.hosts[id], kr, to), PacketSet(sent)), HostStep(id, SendsOf(sent)))
  {
    hide Complete, FramedNext, Reassign, BulkRemove, ExtractRange, MustRejectShard;
    var g := s.hosts[id];
    var m := Delegate(kr, ExtractRange(g.h, kr));
    var h, sm := AfterShard(g, kr, to), NextMessage(g.sd, to, m);
    sent := [Packet(to, id, sm)];
    AcceptedShard(g, h, g.receivedPacket.value, Some(sm), sent);
    ProcessedIsNext(g, h, sent);
    ProcessedStep(s, id, h, sent);
  }

  ghost function AfterDelegate(g: Host, kr: KeyRange, table: Hashtable): Host {
    g.(delegationMap := Reassign(g.delegationMap, kr, g.constants.me), h := BulkUpdate(g.h, kr, table),
       receivedPacket := None, numDelegations := g.numDelegations + 1)
  }

  lemma HostAdopts(s: State, id: EndPoint, src: EndPoint, seqno: nat, kr: KeyRange, table: Hashtable)
    requires Ready(s, id) && src in s.hosts[id].constants.hostIds
    requires s.hosts[id].receivedPacket == Some(Packet(id, src, Message(seqno, id, Delegate(kr, table))))
    ensures SystemNext(s, After(s, id, AfterDelegate(s.hosts[id], kr, table), {}), HostStep(id, []))
  {
    hide Complete, FramedNext, Reassign, BulkUpdate;
    var g := s.hosts[id];
    var h := AfterDelegate(g, kr, table);
    assert PacketSet([]) == {} && SendsOf([]) == [];
    assert NextDelegate(g, h, g.receivedPacket.value, PacketSet([]));
    ProcessedIsNext(g, h, []);
    ProcessedStep(s, id, h, []);
  }

  // ----- growing a run -----

  /** The run ends with these hosts, has served this log, and its network holds at least these packets. */
  ghost predicate Reaches(r: Run, log: seq<AppRequest>, hosts: map<EndPoint, Host>, network: set<Packet>) {
    && IsRun(r, ARGS)
    && ServedLog(r, |r.events|) == log
    && r.states[|r.events|].hosts == hosts
    && network <= r.states[|r.events|].network
  }

  lemma {:induction false} SamePrefixSameLog(r: Run, t: Run, n: nat)
    requires n <= |r.events| < |r.states| && n <= |t.events| < |t.states|
    requires forall i :: 0 <= i <= n ==> r.states[i] == t.states[i]
    requires forall i :: 0 <= i < n ==> r.events[i] == t.events[i]
    ensures ServedLog(r, n) == ServedLog(t, n)
  {
    hide ServedBy;
    if n > 0 {
      SamePrefixSameLog(r, t, n - 1);
    }
  }

  function AsLog(served: Option<AppRequest>): seq<AppRequest> {
    match served
    case None => []
    case Some(req) => [req]
  }

  lemma Extend(r: Run, log: seq<AppRequest>, s': State, e: Event) returns (r': Run)
    requires IsRun(r, ARGS) && ServedLog(r, |r.events|) == log
    requires SystemNext(r.states[|r.events|], s', e)
    ensures Reaches(r', log + AsLog(ServedBy(r.states[|r.events|], s', e)), s'.hosts, s'.network)
  {
    hide SystemNext, SystemInit, ServedBy;
    r' := Run(r.states + [s'], r.events + [e]);
    SamePrefixSameLog(r, r', |r.events|);
    forall i | 0 <= i < |r'.events|
      ensures SystemNext(r'.states[i], r'.states[i + 1], r'.events[i])
    {
      if i < |r.events| { assert SystemNext(r.states[i], r.states[i + 1], r.events[i]); }
    }
  }

  /** A host with a free buffer takes in a packet that is around. */
  lemma TakesIn(r: Run, log: seq<AppRequest>, hosts: map<EndPoint, Host>, network: set<Packet>, p: Packet)
    returns (r': Run)
    requires Reaches(r, log, hosts, network) && p in network
    requires p.dst in hosts && hosts[p.dst].receivedPacket.None? && Complete(hosts[p.dst].delegationMap)
    ensures Reaches(r', log, hosts[p.dst := TookIn(hosts[p.dst], p)], network)
  {
    hide SystemNext, SystemInit, Complete, TakeIn, SentPackets;
    var s, g := r.states[|r.events|], hosts[p.dst];
    var s' := After(s, p.dst, TookIn(g, p), SentPackets(TakeIn(g, p)));
    TakingInSteps(s, p, TookIn(g, p));
    NothingServed(s, s', HostStep(p.dst, TakeIn(g, p)));
    r' := Extend(r, log, s', HostStep(p.dst, TakeIn(g, p)));
  }

  lemma NothingServed(s: State, s': State, e: Event)
    requires e.HostStep? ==> e.id in s.hosts && e.id in s'.hosts
                             && s'.hosts[e.id].receivedRequests == s.hosts[e.id].receivedRequests
    ensures ServedBy(s, s', e) == None
  {
  }

  /** A client sends a packet, and the host it is for takes it in. */
  lemma Request(r: Run, log: seq<AppRequest>, hosts: map<EndPoint, Host>, p: Packet) returns (r': Run)
    requires Reaches(r, log, hosts, {}) && p.src !in hosts
    requires p.dst in hosts && hosts[p.dst].receivedPacket.None? && Complete(hosts[p.dst].delegationMap)
    ensures Reaches(r', log, hosts[p.dst := TookIn(hosts[p.dst], p)], {})
  {
    hide SystemInit, Complete, TookIn;
    var s := r.states[|r.events|];
    var s' := s.(network := s.network + {p});
    NothingServed(s, s', ClientSend(p));
    r' := Extend(r, log, s', ClientSend(p));
    r' := TakesIn(r', log, hosts, s'.network, p);
  }

  /** A host processes what it has buffered. */
  lemma Processes(r: Run, log: seq<AppRequest>, hosts: map<EndPoint, Host>, id: EndPoint, h: Host, sent: seq<Packet>,
                  log': seq<AppRequest>) returns (r': Run)
    requires Reaches(r, log, hosts, {}) && id in hosts
    requires h.receivedRequests == hosts[id].receivedRequests + log' && |log'| <= 1
    requires var s := r.states[|r.events|];
             SystemNext(s, After(s, id, h, PacketSet(sent)), HostStep(id, SendsOf(sent)))
    ensures Reaches(r', log + log', hosts[id := h], PacketSet(sent))
  {
    hide SystemInit, SystemNext;
    var s := r.states[|r.events|];
    var s' := After(s, id, h, PacketSet(sent));
    assert AsLog(ServedBy(s, s', HostStep(id, SendsOf(sent)))) == log';
    r' := Extend(r, log, s', HostStep(id, SendsOf(sent)));
  }

  // ----- the run -----

  const SET := Packet(ROOT, CLIENT, Message(1, ROOT, SetRequest(KEY, Some(VALUE))))
  const MOVE := Packet(ROOT, CLIENT, Message(2, ROOT, Shard(ONE_KEY, OTHER)))
  const GET := Packet(OTHER, CLIENT, Message(1, OTHER, GetRequest(KEY)))
  const MOVED := Packet(OTHER, ROOT, Message(1, OTHER, Delegate(ONE_KEY, map[KEY := VALUE])))

  ghost function Fresh(id: EndPoint): Host {
    Host(Constants(ROOT, [ROOT, OTHER], STATIC_PARAMS, id), InitialTable(ROOT), map[], EMPTY_DELIVERY, None, 1, [])
  }

  ghost function RootAfterSet(): Host {
    AfterSet(TookIn(Fresh(ROOT), SET), CLIENT, 1, KEY, VALUE)
  }

  ghost function RootAfterMove(): Host {
    AfterShard(TookIn(RootAfterSet(), MOVE), ONE_KEY, OTHER)
  }

  ghost function OtherAfterMove(): Host {
    AfterDelegate(TookIn(Fresh(OTHER), MOVED), ONE_KEY, map[KEY := VALUE])
  }

  ghost function OtherAfterGet(): Host {
    AfterGet(TookIn(OtherAfterMove(), GET), CLIENT, 1, KEY)
  }

  /** The state of a host that has taken in a packet and may process it. */
  ghost predicate Buffers(g: Host, id: EndPoint, p: Packet) {
    && g.receivedPacket == Some(p) && g.constants.me == id && g.constants.params == STATIC_PARAMS
    && Complete(g.delegationMap) && ShouldProcess(g) && CanSend(g.sd, p.src)
  }

  lemma RootTakesSet()
    ensures Fresh(ROOT).receivedPacket.None? && Complete(Fresh(ROOT).delegationMap)
    ensures Buffers(TookIn(Fresh(ROOT), SET), ROOT, SET)
    ensures TookIn(Fresh(ROOT), SET).delegationMap == InitialTable(ROOT)
    ensures TookIn(Fresh(ROOT), SET).delegationMap[KEY] == ROOT
  {
  }

  lemma RootTakesMove()
    ensures RootAfterSet().receivedPacket.None? && Complete(RootAfterSet().delegationMap)
    ensures Buffers(TookIn(RootAfterSet(), MOVE), ROOT, MOVE) && CanSend(TookIn(RootAfterSet(), MOVE).sd, OTHER)
    ensures !MustRejectShard(TookIn(RootAfterSet(), MOVE), Shard(ONE_KEY, OTHER))
    ensures TookIn(RootAfterSet(), MOVE).h == map[KEY := VALUE]
    ensures NextMessage(TookIn(RootAfterSet(), MOVE).sd, OTHER, MOVED.msg.m) == MOVED.msg
  {
    var g := TookIn(RootAfterSet(), MOVE);
    assert ROOT.id[0] != OTHER.id[0] && OTHER.id[0] != CLIENT.id[0];
    assert OTHER in [ROOT, OTHER];
    assert g.h == map[KEY := VALUE];
    TheOneKey(g.h);
  }

  lemma TheOneKey(h: Hashtable)
    requires h == map[KEY := VALUE]
    ensures ExtractRange(h, ONE_KEY) == h && |h| == 1
  {
    assert ONE_KEY.Contains(KEY);
  }

  lemma OtherTakesMove()
    ensures Fresh(OTHER).receivedPacket.None? && Complete(Fresh(OTHER).delegationMap)
    ensures Buffers(TookIn(Fresh(OTHER), MOVED), OTHER, MOVED)
    ensures ROOT in TookIn(Fresh(OTHER), MOVED).constants.hostIds
  {
    assert ROOT in [ROOT, OTHER];
  }

  lemma OtherTakesGet()
    ensures OtherAfterMove().receivedPacket.None? && Complete(OtherAfterMove().delegationMap)
    ensures Buffers(TookIn(OtherAfterMove(), GET), OTHER, GET)
    ensures TookIn(OtherAfterMove(), GET).delegationMap[KEY] == OTHER
    ensures Lookup(TookIn(OtherAfterMove(), GET).h, KEY) == Some(VALUE)
  {
    assert ROOT.id[0] != CLIENT.id[0];
    assert ONE_KEY.Contains(KEY);
  }

  ghost function Hosts(root: Host, other: Host): map<EndPoint, Host> {
    map[ROOT := root, OTHER := other]
  }

  lemma HostsAre(g: Host, other: Host, h: Host)
    ensures ROOT in Hosts(g, other) && Hosts(g, other)[ROOT] == g
    ensures OTHER in Hosts(g, other) && Hosts(g, other)[OTHER] == other
    ensures CLIENT !in Hosts(g, other)
    ensures Hosts(g, other)[ROOT := h] == Hosts(h, other) && Hosts(g, other)[OTHER := h] == Hosts(g, h)
  {
    assert ROOT.id[0] != OTHER.id[0] && OTHER.id[0] != CLIENT.id[0] && ROOT.id[0] != CLIENT.id[0];
    Updated(ROOT, OTHER, g, other, h);
  }

  lemma Updated<T>(a: EndPoint, b: EndPoint, x: T, y: T, z: T)
    requires a != b
    ensures map[a := x, b := y][a := z] == map[a := z, b := y] && map[a := x, b := y][b := z] == map[a := x, b := z]
  {
  }

  lemma Starts() returns (r: Run)
    ensures Reaches(r, [], Hosts(Fresh(ROOT), Fresh(OTHER)), {})
  {
    var s := State(Hosts(Fresh(ROOT), Fresh(OTHER)), {});
    r := Run([s], []);
    var endPoints := ParseArgs(ARGS).value;
    assert |endPoints| == 2 && endPoints[0] == ROOT && endPoints[1] == OTHER;
    assert endPoints == [ROOT, OTHER];
    assert s.hosts.Keys == (set e | e in [ROOT, OTHER]);
    assert SystemInit(s, ARGS);
  }

  const SET_LOGGED := AppSetRequest(1, KEY, Some(VALUE))
  const GET_LOGGED := AppGetRequest(1, KEY)

  lemma LogsGrow(g: Host)
    ensures AfterSet(g, CLIENT, 1, KEY, VALUE).receivedRequests == g.receivedRequests + [SET_LOGGED]
    ensures AfterGet(g, CLIENT, 1, KEY).receivedRequests == g.receivedRequests + [GET_LOGGED]
    ensures AfterShard(g, ONE_KEY, OTHER).receivedRequests == g.receivedRequests + []
    ensures AfterDelegate(g, ONE_KEY, map[KEY := VALUE]).receivedRequests == g.receivedRequests + []
  {
  }

  lemma RootSets(r: Run, g: Host, other: Host) returns (r': Run)
    requires Reaches(r, [], Hosts(g, other), {})
    requires Buffers(g, ROOT, SET) && g.delegationMap[KEY] == ROOT
    ensures Reaches(r', [SET_LOGGED], Hosts(AfterSet(g, CLIENT, 1, KEY, VALUE), other), {})
  {
    LogsGrow(g);
    HostsAre(g, other, AfterSet(g, CLIENT, 1, KEY, VALUE));
    hide SystemInit, SystemNext, Complete, ShouldProcess, CanSend, AfterSet, Hosts;
    var sent := OwnerSets(r.states[|r.events|], ROOT, CLIENT, 1, KEY, VALUE);
    r' := Processes(r, [], Hosts(g, other), ROOT, AfterSet(g, CLIENT, 1, KEY, VALUE), sent, [SET_LOGGED]);
    assert [] + [SET_LOGGED] == [SET_LOGGED];
  }

  lemma RootShips(r: Run, g: Host, other: Host) returns (r': Run)
    requires Reaches(r, [SET_LOGGED], Hosts(g, other), {})
    requires Buffers(g, ROOT, MOVE) && CanSend(g.sd, OTHER) && !MustRejectShard(g, Shard(ONE_KEY, OTHER))
    requires g.h == map[KEY := VALUE] && NextMessage(g.sd, OTHER, MOVED.msg.m) == MOVED.msg
    ensures Reaches(r', [SET_LOGGED], Hosts(AfterShard(g, ONE_KEY, OTHER), other), {MOVED})
  {
    LogsGrow(g);
    HostsAre(g, other, AfterShard(g, ONE_KEY, OTHER));
    TheOneKey(g.h);
    hide SystemInit, SystemNext, Complete, ShouldProcess, CanSend, MustRejectShard, NextMessage, ExtractRange,
         AfterShard, Hosts;
    var sent := OwnerShards(r.states[|r.events|], ROOT, CLIENT, 2, ONE_KEY, OTHER);
    assert PacketSet(sent) == {MOVED};
    r' := Processes(r, [SET_LOGGED], Hosts(g, other), ROOT, AfterShard(g, ONE_KEY, OTHER), sent, []);
    assert [SET_LOGGED] + [] == [SET_LOGGED];
  }

  lemma OtherAdopts(r: Run, root: Host, g: Host) returns (r': Run)
    requires Reaches(r, [SET_LOGGED], Hosts(root, g), {MOVED})
    requires Buffers(g, OTHER, MOVED) && ROOT in g.constants.hostIds
    ensures Reaches(r', [SET_LOGGED], Hosts(root, AfterDelegate(g, ONE_KEY, map[KEY := VALUE])), {})
  {
    LogsGrow(g);
    HostsAre(root, g, AfterDelegate(g, ONE_KEY, map[KEY := VALUE]));
    hide SystemInit, SystemNext, Complete, ShouldProcess, CanSend, AfterDelegate, Hosts;
    HostAdopts(r.states[|r.events|], OTHER, ROOT, 1, ONE_KEY, map[KEY := VALUE]);
    assert PacketSet([]) == {} && SendsOf([]) == [];
    r' := Processes(r, [SET_LOGGED], Hosts(root, g), OTHER, AfterDelegate(g, ONE_KEY, map[KEY := VALUE]), [], []);
    assert [SET_LOGGED] + [] == [SET_LOGGED];
  }

  lemma OtherGets(r: Run, root: Host, g: Host) returns (r': Run, answer: Packet)
    requires Reaches(r, [SET_LOGGED], Hosts(root, g), {})
    requires Buffers(g, OTHER, GET) && g.delegationMap[KEY] == OTHER && Lookup(g.h, KEY) == Some(VALUE)
    ensures Reaches(r', [SET_LOGGED, GET_LOGGED], Hosts(root, AfterGet(g, CLIENT, 1, KEY)), {answer})
    ensures answer.src == OTHER && answer.msg.Message? && answer.msg.m == Reply(KEY, Some(VALUE))
  {
    LogsGrow(g);
    HostsAre(root, g, AfterGet(g, CLIENT, 1, KEY));
    hide SystemInit, SystemNext, Complete, ShouldProcess, CanSend, AfterGet, Hosts;
    var sent := OwnerGets(r.states[|r.events|], OTHER, CLIENT, 1, KEY);
    answer := sent[0];
    r' := Processes(r, [SET_LOGGED], Hosts(root, g), OTHER, AfterGet(g, CLIENT, 1, KEY), sent, [GET_LOGGED]);
    assert [SET_LOGGED] + [GET_LOGGED] == [SET_LOGGED, GET_LOGGED];
    assert PacketSet(sent) == {answer};
  }

  lemma SetOnRoot(r: Run) returns (r': Run)
    requires Reaches(r, [], Hosts(Fresh(ROOT), Fresh(OTHER)), {})
    ensures Reaches(r', [SET_LOGGED], Hosts(RootAfterSet(), Fresh(OTHER)), {})
  {
    RootTakesSet();
    var g := TookIn(Fresh(ROOT), SET);
    HostsAre(Fresh(ROOT), Fresh(OTHER), g);
    hide Reaches, TookIn, Fresh, Complete, ShouldProcess, CanSend, AfterSet, Hosts;
    r' := Request(r, [], Hosts(Fresh(ROOT), Fresh(OTHER)), SET);
    r' := RootSets(r', g, Fresh(OTHER));
  }

  lemma MoveFromRoot(r: Run) returns (r': Run)
    requires Reaches(r, [SET_LOGGED], Hosts(RootAfterSet(), Fresh(OTHER)), {})
    ensures Reaches(r', [SET_LOGGED], Hosts(RootAfterMove(), Fresh(OTHER)), {MOVED})
  {
    RootTakesMove();
    var g := TookIn(RootAfterSet(), MOVE);
    HostsAre(RootAfterSet(), Fresh(OTHER), g);
    hide Reaches, TookIn, Fresh, Complete, ShouldProcess, CanSend, MustRejectShard, RootAfterSet, NextMessage,
         AfterShard, Hosts;
    r' := Request(r, [SET_LOGGED], Hosts(RootAfterSet(), Fresh(OTHER)), MOVE);
    r' := RootShips(r', g, Fresh(OTHER));
  }

  lemma MoveToOther(r: Run) returns (r': Run)
    requires Reaches(r, [SET_LOGGED], Hosts(RootAfterMove(), Fresh(OTHER)), {MOVED})
    ensures Reaches(r', [SET_LOGGED], Hosts(RootAfterMove(), OtherAfterMove()), {})
  {
    OtherTakesMove();
    var g := TookIn(Fresh(OTHER), MOVED);
    HostsAre(RootAfterMove(), Fresh(OTHER), g);
    hide Reaches, TookIn, Fresh, Complete, ShouldProcess, CanSend, RootAfterMove, AfterDelegate, Hosts;
    r' := TakesIn(r, [SET_LOGGED], Hosts(RootAfterMove(), Fresh(OTHER)), {MOVED}, MOVED);
    r' := OtherAdopts(r', RootAfterMove(), g);
  }

  lemma GetFromOther(r: Run) returns (r': Run, answer: Packet)
    requires Reaches(r, [SET_LOGGED], Hosts(RootAfterMove(), OtherAfterMove()), {})
    ensures Reaches(r', [SET_LOGGED, GET_LOGGED], Hosts(RootAfterMove(), OtherAfterGet()), {answer})
    ensures answer.src == OTHER && answer.msg.Message? && answer.msg.m == Reply(KEY, Some(VALUE))
  {
    OtherTakesGet();
    var g := TookIn(OtherAfterMove(), GET);
    HostsAre(RootAfterMove(), OtherAfterMove(), g);
    hide Reaches, TookIn, Complete, ShouldProcess, CanSend, RootAfterMove, OtherAfterMove, AfterGet, Hosts;
    r' := Request(r, [SET_LOGGED], Hosts(RootAfterMove(), OtherAfterMove()), GET);
    r', answer := OtherGets(r', RootAfterMove(), g);
  }

  /** A run in which a value is set, its key moves to the other host, and that host answers with the value. */
  lemma ValuesMoveWithTheirKeys() returns (r: Run, answer: Packet)
    ensures IsRun(r, ARGS) && ServedLog(r, |r.events|) == [SET_LOGGED, GET_LOGGED]
    ensures answer in r.states[|r.events|].network && answer.src == OTHER
    ensures answer.msg.Message? && answer.msg.m == Reply(KEY, Some(VALUE))
  {
    hide Fresh, RootAfterSet, RootAfterMove, OtherAfterMove, OtherAfterGet, IsRun, ServedLog;
    r := Starts();
    r := SetOnRoot(r);
    r := MoveFromRoot(r);
    r := MoveToOther(r);
    r, answer := GetFromOther(r);
    assert Reaches(r, [SET_LOGGED, GET_LOGGED], Hosts(RootAfterMove(), OtherAfterGet()), {answer});
  }

}
