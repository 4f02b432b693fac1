/**
 The shim's get-then-update against the executable server: get, check the owner, replace with the version just
 read, and start over on a conflict, while any number of other requests reach the server in between.
 */
module GetThenUpdates {
  import opened Options
  import opened KubeObjects
  import opened ApiServers
  import opened ApiServerRuns
  import opened ApiServerOutcomes

  /** Both calls of the loop go to one API resource, whose kind need not be that of `obj`. */
  datatype GetThenUpdateRequest =
    GetThenUpdateRequest(apiResource: Kind, name: string, namespace: string, owner: OwnerReference, obj: DynamicObject)
  {
    /** What the server looks up for the get. */
    function Key(): ObjectRef {
      ObjectRef(apiResource, name, namespace)
    }

    /** What the server looks up for the replace, since it goes by the kind of the object. */
    function UpdateKey(): ObjectRef {
      ObjectRef(obj.kind, name, namespace)
    }

    predicate KindsAgree() {
      apiResource == obj.kind
    }
  }

  /** The replace request sent after reading `current`. */
  function ReplaceWith(req: GetThenUpdateRequest, current: DynamicObject): UpdateRequest {
    UpdateRequest(req.apiResource, req.name, req.namespace,
                  req.obj.(metadata := req.obj.metadata.(uid := current.metadata.uid,
                                                         resourceVersion := current.metadata.resourceVersion)))
  }

  predicate Owned(s: State, key: ObjectRef, owner: OwnerReference) {
    key in s.resources && s.resources[key].metadata.OwnerReferencesContains(owner)
  }

  /** Get, owner check and update as one indivisible operation. */
  function Atomic(s: State, req: GetThenUpdateRequest): (State, Result<DynamicObject>) {
    match HandleGet(s, req.Key())
    case Err(e) => (s, Err(e))
    case Ok(current) =>
      if current.metadata.OwnerReferencesContains(req.owner) then HandleUpdate(s, ReplaceWith(req, current))
      else (s, Err(TransactionAbort))
  }

  /** Errors come back from the server by name; a few names are not known to the shim. */
  function KubeErrorToApiError(e: APIError): APIError {
    if e in {ObjectNotFound, ObjectAlreadyExists, BadRequest, Conflict, Invalid, InternalError, Timeout, ServerTimeout}
    then e else Other
  }

  function AsSeenByClient(r: Result<DynamicObject>): Result<DynamicObject> {
    if r.Err? && r.error != TransactionAbort then Err(KubeErrorToApiError(r.error)) else r
  }

  /** What others do during one round: before the get, and between the get and the replace. */
  datatype Interference = Interference(beforeGet: seq<Request>, beforeReplace: seq<Request>)

  datatype Outcome =
    | Done(result: Result<DynamicObject>) // the loop returned
    | Retrying                            // the last replace ran into a conflict

  /** One round: what it leaves behind, and the states at which its get and its replace were served. */
  datatype Round = Round(after: State, outcome: Outcome, read: State, replaced: State)

  function Attempt(s: State, req: GetThenUpdateRequest, others: Interference): Round {
    var s1 := Run(s, others.beforeGet);
    match HandleGet(s1, req.Key())
    case Err(e) => Round(s1, Done(Err(KubeErrorToApiError(e))), s1, s1)
    case Ok(current) =>
      if !current.metadata.OwnerReferencesContains(req.owner) then Round(s1, Done(Err(TransactionAbort)), s1, s1) else
      var s2 := Run(s1, others.beforeReplace);
      var (s3, r) := HandleUpdate(s2, ReplaceWith(req, current));
      if r.Err? && KubeErrorToApiError(r.error) == Conflict then Round(s3, Retrying, s1, s2)
      else Round(s3, Done(AsSeenByClient(r)), s1, s2)
  }

  /** All rounds until the loop returns or `env` is used up. */
  function Attempts(s: State, req: GetThenUpdateRequest, env: seq<Interference>): Round
    decreases |env|
  {
    if |env| == 0 then Round(s, Retrying, s, s) else
    var first := Attempt(s, req, env[0]);
    if first.outcome.Retrying? then Attempts(first.after, req, env[1..]) else first
  }

  /** All that the others did in these rounds. */
  function AllOthers(env: seq<Interference>): seq<Request> {
    if |env| == 0 then [] else env[0].beforeGet + env[0].beforeReplace + AllOthers(env[1..])
  }

  /** The loop, rewriting the object to update in each round, on a server that others use in between. */
  method TransactionalGetThenUpdateByRetry(server: ApiServer, req: GetThenUpdateRequest, env: seq<Interference>)
    returns (outcome: Outcome)
    requires Inv(server.View())
    requires server.resourceVersionCounter + |AllOthers(env)| + |env| <= I64_MAX
    requires server.uidCounter + |AllOthers(env)| <= I64_MAX
    modifies server
    ensures var r := Attempts(old(server.View()), req, env); server.View() == r.after && outcome == r.outcome
  {
    hide Inv, Run, HandleUpdate, StoredWell, ObjectMeta.OwnerReferencesContains;
    var objToUpdate := req.obj;
    for n := 0 to |env|
      invariant Inv(server.View())
      invariant server.resourceVersionCounter + |AllOthers(env[n..])| + |env| - n <= I64_MAX
      invariant server.uidCounter + |AllOthers(env[n..])| <= I64_MAX
      invariant objToUpdate == req.obj.(metadata := req.obj.metadata.(
                  uid := objToUpdate.metadata.uid, resourceVersion := objToUpdate.metadata.resourceVersion))
      invariant var r, all := Attempts(server.View(), req, env[n..]), Attempts(old(server.View()), req, env);
                r.after == all.after && r.outcome == all.outcome
    {
      assert env[n..][1..] == env[n + 1..];
      Serve(server, env[n].beforeGet);
      var got := server.HandleGetRequest(req.Key());
      if got.Err? {
        return Done(Err(KubeErrorToApiError(got.error)));
      }
      var current := got.value;
      if !current.metadata.OwnerReferencesContains(req.owner) {
        return Done(Err(TransactionAbort));
      }
      objToUpdate := objToUpdate.(metadata := objToUpdate.metadata.(uid := current.metadata.uid));
      objToUpdate := objToUpdate.(metadata :=
        objToUpdate.metadata.(resourceVersion := current.metadata.resourceVersion));
      Serve(server, env[n].beforeReplace);
      var update := UpdateRequest(req.apiResource, req.name, req.namespace, objToUpdate);
      assert update == ReplaceWith(req, current);
      InvSuffices(server.View(), update.Key());
      ghost var before := server.View();
      var replaced := server.HandleUpdateRequest(update);
      match replaced {
        case Ok(obj) =>
          return Done(Ok(obj));
        case Err(e) =>
          RefusedUpdatesChangeNothing(before, update);
          if KubeErrorToApiError(e) != Conflict {
            return Done(Err(KubeErrorToApiError(e)));
          }
      }
    }
    assert env[|env|..] == [];
    outcome := Retrying;
  }

  // ----- atomicity -----

  lemma RefusedUpdatesChangeNothing(s: State, req: UpdateRequest)
    requires HandleUpdate(s, req).1.Err?
    ensures HandleUpdate(s, req).0 == s && HandleUpdate(s, req).1.error != TransactionAbort
  {
  }

  /** A request that is wrong whatever is stored. */
  predicate Malformed(req: GetThenUpdateRequest) {
    var m := req.obj.metadata;
    || m.name != Some(req.name)
    || (m.namespace.Some? && req.namespace != m.namespace.value)
    || !Unmarshallable(req.obj)
  }

  /** What an update that names its version and uid comes to, by what it finds. */
  lemma ReplaceEnds(s: State, req: GetThenUpdateRequest, current: DynamicObject)
    requires current.metadata.resourceVersion.Some?
    ensures var r, key := HandleUpdate(s, ReplaceWith(req, current)), req.UpdateKey();
            if Malformed(req) then r.1 == Err(BadRequest)
            else if key !in s.resources then r.1 == Err(ObjectNotFound)
            else
              && (s.resources[key].metadata.resourceVersion != current.metadata.resourceVersion <==>
                    r.1 == Err(Conflict))
              && r.1 != Err(BadRequest) && r.1 != Err(ObjectNotFound)
  {
    hide UpdatedObject;
  }

  /** Since the get, the object addressed by the replace is what was read, or has another version. */
  lemma SameVersionSameObject(s1: State, reqs: seq<Request>, req: GetThenUpdateRequest)
    requires Inv(s1) && req.Key() in s1.resources
    ensures s1.resources[req.Key()].metadata.resourceVersion.Some?
    ensures var s2, key := Run(s1, reqs), req.UpdateKey();
            key in s2.resources
            && s2.resources[key].metadata.resourceVersion == s1.resources[req.Key()].metadata.resourceVersion ==>
              req.KindsAgree() && s2.resources[key] == s1.resources[key]
  {
    var s2, key := Run(s1, reqs), req.UpdateKey();
    assert WellStored(s1, req.Key());
    hide Run;
    if key in s2.resources
       && s2.resources[key].metadata.resourceVersion == s1.resources[req.Key()].metadata.resourceVersion {
      OldVersionIsUntouched(s1, reqs, key);
    }
  }

  /**
   What becomes of the replace, whatever happened since the get: an object comes back only if the kinds agree, and
   then the atomic operation would have done the same at that instant, as it would for any refusal but a conflict
   or a malformed request. If the kinds differ, the replace is bound to fail.
   */
  lemma ReplaceIsAtomic(s1: State, reqs: seq<Request>, req: GetThenUpdateRequest)
    requires Inv(s1) && Owned(s1, req.Key(), req.owner)
    ensures var s2 := Run(s1, reqs);
            var r := HandleUpdate(s2, ReplaceWith(req, s1.resources[req.Key()]));
            && (r.1.Ok? ==> req.KindsAgree())
            && (Malformed(req) ==> r.1 == Err(BadRequest) && Atomic(s1, req) == (s1, Err(BadRequest)))
            && (!Malformed(req) && req.KindsAgree() && r.1 != Err(Conflict) ==> r == Atomic(s2, req))
            && (!Malformed(req) && !req.KindsAgree() ==>
                  r.1 == Err(if req.UpdateKey() in s2.resources then Conflict else ObjectNotFound))
  {
    var s2, current := Run(s1, reqs), s1.resources[req.Key()];
    SameVersionSameObject(s1, reqs, req);
    ReplaceEnds(s1, req, current);
    ReplaceEnds(s2, req, current);
    hide Inv, Run, HandleUpdate, Malformed, ReplaceWith;
    if HandleUpdate(s1, ReplaceWith(req, current)).1.Err? {
      RefusedUpdatesChangeNothing(s1, ReplaceWith(req, current));
    }
    if HandleUpdate(s2, ReplaceWith(req, current)).1.Err? {
      RefusedUpdatesChangeNothing(s2, ReplaceWith(req, current));
    }
  }

  /** The atomic operation, carried out at `at`, ends like this for the client and has this effect. */
  predicate IsAtomicAt(at: State, req: GetThenUpdateRequest, after: State, result: Result<DynamicObject>) {
    Atomic(at, req).0 == after && AsSeenByClient(Atomic(at, req).1) == result
  }

  /** The get finds an owned object, and the replace addresses another one of the same name. */
  predicate Mismatched(req: GetThenUpdateRequest, read: State) {
    !req.KindsAgree() && !Malformed(req) && Owned(read, req.Key(), req.owner)
  }

  predicate Clash(req: GetThenUpdateRequest, read: State, replaced: State) {
    Mismatched(req, read) && req.UpdateKey() in replaced.resources
  }

  /** Between get and replace, the other object went away and the one that was read changed owners. */
  predicate Overtaken(req: GetThenUpdateRequest, read: State, replaced: State) {
    && Mismatched(req, read) && req.UpdateKey() in read.resources
    && req.UpdateKey() !in replaced.resources
    && req.Key() in replaced.resources && !Owned(replaced, req.Key(), req.owner)
  }

  /** At one instant, a request whose kinds differ never succeeds. */
  lemma MismatchedAtOnce(s: State, req: GetThenUpdateRequest)
    requires Inv(s) && !req.KindsAgree() && !Malformed(req)
    ensures Atomic(s, req) == (s, Err(
              if req.Key() !in s.resources then ObjectNotFound
              else if !Owned(s, req.Key(), req.owner) then TransactionAbort
              else if req.UpdateKey() in s.resources then Conflict
              else ObjectNotFound))
  {
    hide Malformed;
    if Owned(s, req.Key(), req.owner) {
      ReplaceIsAtomic(s, [], req);
      RefusedUpdatesChangeNothing(s, ReplaceWith(req, s.resources[req.Key()]));
    }
  }

  /** What one round, or the last of several, comes to. */
  ghost predicate Accounted(r: Round, req: GetThenUpdateRequest) {
    r.outcome.Done? ==>
      if r.outcome.result.Ok? then
        req.KindsAgree() && IsAtomicAt(r.replaced, req, r.after, r.outcome.result)
      else
        && r.after == r.replaced
        && (|| IsAtomicAt(r.replaced, req, r.replaced, r.outcome.result)
            || IsAtomicAt(r.read, req, r.read, r.outcome.result)
            <==> !Overtaken(req, r.read, r.replaced))
  }

  lemma RoundIsAtomic(s: State, req: GetThenUpdateRequest, others: Interference)
    requires Inv(s)
    ensures var r := Attempt(s, req, others);
            && (r.outcome.Retrying? ==> r.after == r.replaced == Run(Run(s, others.beforeGet), others.beforeReplace))
            && Accounted(r, req)
  {
    hide Inv, Run, HandleUpdate, Malformed;
    var s1 := Run(s, others.beforeGet);
    RunKeepsInv(s, others.beforeGet);
    if Owned(s1, req.Key(), req.owner) {
      var s2, update := Run(s1, others.beforeReplace), ReplaceWith(req, s1.resources[req.Key()]);
      if HandleUpdate(s2, update).1.Err? {
        RefusedUpdatesChangeNothing(s2, update);
      }
      ReplaceIsAtomic(s1, others.beforeReplace, req);
      if Mismatched(req, s1) {
        RunKeepsInv(s1, others.beforeReplace);
        MismatchedAtOnce(s1, req);
        MismatchedAtOnce(s2, req);
      }
    }
  }

  /**
   Whatever the others do, and whatever the request: rounds that end in a conflict leave no trace; if the loop
   returns an object, it did what one indivisible get, owner check and update would have done at the instant of
   its last replace; if it returns an error, it changed nothing, and the indivisible operation would have failed
   with that error at the instant of its last replace or of its last get, exactly if it was not overtaken.
   */
  lemma {:induction false} RetryingIsAtomic(s: State, req: GetThenUpdateRequest, env: seq<Interference>)
    requires Inv(s)
    ensures var r := Attempts(s, req, env);
            && (r.outcome.Retrying? ==> r.after == Run(s, AllOthers(env)))
            && Accounted(r, req)
    decreases |env|
  {
    hide Inv, Attempt, IsAtomicAt, Overtaken, Run;
    if |env| == 0 {
      assert Run(s, []) == s by { RunNothing(s); }
    } else {
      var first := Attempt(s, req, env[0]);
      RoundIsAtomic(s, req, env[0]);
      if first.outcome.Retrying? {
        RunKeepsInv(s, env[0].beforeGet);
        RunKeepsInv(Run(s, env[0].beforeGet), env[0].beforeReplace);
        RetryingIsAtomic(first.after, req, env[1..]);
        RunSplits(s, env[0].beforeGet, env[0].beforeReplace);
        RunSplits(s, env[0].beforeGet + env[0].beforeReplace, AllOthers(env[1..]));
      }
    }
  }

  lemma RunNothing(s: State)
    ensures Run(s, []) == s
  {
  }

  lemma RunOne(s: State, req: Request)
    ensures Run(s, [req]) == Step(s, req)
  {
    assert [req][..0] == [];
  }

  lemma RunTwo(s: State, first: Request, second: Request)
    ensures Run(s, [first, second]) == Step(Step(s, first), second)
  {
    RunOne(s, first);
    assert [first, second][..1] == [first];
  }

  // ----- what is written -----

  /** What the client may choose of an object is as it asked; the rest is as it was stored. */
  predicate AsAsked(obj: DynamicObject, asked: DynamicObject, was: DynamicObject) {
    var m := asked.metadata;
    && obj.kind == asked.kind && obj.spec == asked.spec && obj.status == was.status
    && obj.metadata.name == m.name && obj.metadata.generateName == m.generateName
    && obj.metadata.labels == m.labels && obj.metadata.annotations == m.annotations
    && obj.metadata.ownerReferences == m.ownerReferences && obj.metadata.finalizers == m.finalizers
    && obj.metadata.uid == was.metadata.uid && obj.metadata.deletionTimestamp == was.metadata.deletionTimestamp
  }

  /** The owner is among the owners of what is stored under `key`. */
  predicate HasOwner(s: State, key: ObjectRef, owner: OwnerReference) {
    && key in s.resources
    && s.resources[key].metadata.ownerReferences.Some?
    && owner in s.resources[key].metadata.ownerReferences.value
  }

  /** A round reads what is stored, and gives up at once exactly if nothing is, or the owner is not among its owners. */
  lemma RoundsCheckOwners(s: State, req: GetThenUpdateRequest, others: Interference)
    requires Inv(s)
    ensures var r, key := Attempt(s, req, others), ObjectRef(req.apiResource, req.name, req.namespace);
            && r.read == Run(s, others.beforeGet)
            && (key !in r.read.resources ==> r.outcome == Done(Err(ObjectNotFound)) && r.after == r.read)
            && (r.outcome == Done(Err(TransactionAbort)) <==>
                  key in r.read.resources && !HasOwner(r.read, key, req.owner))
            && (HasOwner(r.read, key, req.owner) ==> r.replaced == Run(r.read, others.beforeReplace))
  {
    hide Inv, Run, HandleUpdate;
    var s1 := Run(s, others.beforeGet);
    if Owned(s1, req.Key(), req.owner) {
      var s2, update := Run(s1, others.beforeReplace), ReplaceWith(req, s1.resources[req.Key()]);
      if HandleUpdate(s2, update).1.Err? {
        RefusedUpdatesChangeNothing(s2, update);
      }
    }
  }

  /**
   An object that the loop returns is the one asked for, was owned until then, and is stored, unless the update let
   go of it.
   */
  lemma {:induction false} ReturnedAsAsked(s: State, req: GetThenUpdateRequest, env: seq<Interference>)
    requires Inv(s)
    ensures var r, key := Attempts(s, req, env), ObjectRef(req.obj.kind, req.name, req.namespace);
            r.outcome.Done? && r.outcome.result.Ok? ==>
              && HasOwner(r.replaced, key, req.owner)
              && AsAsked(r.outcome.result.value, req.obj, r.replaced.resources[key])
              && (if key in r.after.resources then r.after.resources[key] == r.outcome.result.value
                  else r.outcome.result.value.metadata.deletionTimestamp.Some?)
    decreases |env|
  {
    hide Inv, Run, HandleUpdate, Malformed;
    if |env| > 0 {
      var s1 := Run(s, env[0].beforeGet);
      var s2 := Run(s1, env[0].beforeReplace);
      if Owned(s1, req.Key(), req.owner) {
        ReplacedAsAsked(s2, req, s1.resources[req.Key()]);
      }
      RoundIsAtomic(s, req, env[0]);
      if Attempt(s, req, env[0]).outcome.Retrying? {
        RunKeepsInv(s, env[0].beforeGet);
        RunKeepsInv(s1, env[0].beforeReplace);
        ReturnedAsAsked(s2, req, env[1..]);
      }
    }
  }

  lemma ReplacedAsAsked(s: State, req: GetThenUpdateRequest, current: DynamicObject)
    ensures var r, key := HandleUpdate(s, ReplaceWith(req, current)), ObjectRef(req.obj.kind, req.name, req.namespace);
            r.1.Ok? ==>
              && key in s.resources
              && AsAsked(r.1.value, req.obj, s.resources[key])
              && (if key in r.0.resources then r.0.resources[key] == r.1.value
                  else r.1.value.metadata.deletionTimestamp.Some?)
  {
    UpdateDoes(s, ReplaceWith(req, current));
    hide HandleUpdate, RuleBroken, Unmarshallable;
  }

  // ----- the cluster model's operation -----

  /** The indivisible operation of the cluster model: it goes by the kind of the object, and wants a controller. */
  function ClusterGetThenUpdate(s: State, req: GetThenUpdateRequest): (State, Result<DynamicObject>) {
    if !req.owner.IsController() then (s, Err(BadRequest)) else
    match HandleGet(s, req.UpdateKey())
    case Err(e) => (s, Err(e))
    case Ok(current) =>
      if current.metadata.OwnerReferencesContains(req.owner) then HandleUpdate(s, ReplaceWith(req, current))
      else (s, Err(TransactionAbort))
  }

  /** Two objects of one name count as alike if neither is there, or both are with other owners. */
  predicate AgreesWithCluster(s: State, req: GetThenUpdateRequest) {
    var key, other := req.Key(), req.UpdateKey();
    if !req.owner.IsController() then
      Owned(s, key, req.owner) && Malformed(req)
    else
      || req.KindsAgree()
      || (key !in s.resources && other !in s.resources)
      || (key in s.resources && !Owned(s, key, req.owner) && other in s.resources && !Owned(s, other, req.owner))
      || (Owned(s, key, req.owner) && if Malformed(req) then Owned(s, other, req.owner) else other !in s.resources)
  }

  /** What get, owner check and update come to at one instant is what the cluster model says exactly in these cases. */
  lemma AtomicIsTheClustersExactly(s: State, req: GetThenUpdateRequest)
    requires Inv(s)
    ensures Atomic(s, req) == ClusterGetThenUpdate(s, req) <==> AgreesWithCluster(s, req)
  {
    hide Inv, HandleUpdate, Malformed;
    if Owned(s, req.Key(), req.owner) { OwnedUpdates(s, req, req.Key()); }
    if Owned(s, req.UpdateKey(), req.owner) { OwnedUpdates(s, req, req.UpdateKey()); }
    if !req.KindsAgree() && !Malformed(req) { MismatchedAtOnce(s, req); }
  }

  /** An update over an owned object is a bad request exactly if it is malformed; its own name is then there. */
  lemma OwnedUpdates(s: State, req: GetThenUpdateRequest, key: ObjectRef)
    requires key in s.resources
    ensures var r := HandleUpdate(s, ReplaceWith(req, s.resources[key]));
            && (r.1 == Err(BadRequest) <==> Malformed(req))
            && (r.1.Err? ==> r.0 == s)
            && r.1 != Err(TransactionAbort)
            && (key == req.UpdateKey() ==> r.1 != Err(ObjectNotFound) && r.1 != Err(Conflict))
  {
    hide UpdatedObject;
  }

  /** The atomic operation of the cluster model, carried out at `at`, ends like this for the client. */
  predicate IsTheClustersAt(at: State, req: GetThenUpdateRequest, after: State, result: Result<DynamicObject>) {
    ClusterGetThenUpdate(at, req).0 == after && AsSeenByClient(ClusterGetThenUpdate(at, req).1) == result
  }

  /**
   The loop simulates the cluster model's operation exactly for owners that are controllers: then an object comes
   back as that operation would have given it, and errors too if the kinds agree; for another owner it refuses what
   the loop carries out.
   */
  lemma RetryingIsTheClusters(s: State, req: GetThenUpdateRequest, env: seq<Interference>)
    requires Inv(s)
    ensures var r := Attempts(s, req, env);
            r.outcome.Done? ==>
              if r.outcome.result.Ok? then
                IsTheClustersAt(r.replaced, req, r.after, r.outcome.result) <==> req.owner.IsController()
              else
                req.KindsAgree() && req.owner.IsController() ==>
                  && r.after == r.replaced
                  && (|| IsTheClustersAt(r.replaced, req, r.replaced, r.outcome.result)
                      || IsTheClustersAt(r.read, req, r.read, r.outcome.result))
  {
    hide Inv, Attempts, HandleUpdate, Malformed;
    RetryingIsAtomic(s, req, env);
  }

  // ----- termination -----

  function Entry(s: State, key: ObjectRef): Option<DynamicObject> {
    if key in s.resources then Some(s.resources[key]) else None
  }

  /** How many of these requests changed what is stored under `key`. */
  function Writes(s: State, reqs: seq<Request>, key: ObjectRef): nat {
    if |reqs| == 0 then 0 else
    var before := reqs[..|reqs| - 1];
    Writes(s, before, key) + if Entry(Run(s, before), key) == Entry(Run(s, reqs), key) then 0 else 1
  }

  /** Writes of others to the object that came between a get and its replace. */
  function InterferingWrites(s: State, req: GetThenUpdateRequest, env: seq<Interference>): nat
    decreases |env|
  {
    if |env| == 0 then 0 else
    Writes(Run(s, env[0].beforeGet), env[0].beforeReplace, req.Key())
    + InterferingWrites(Attempt(s, req, env[0]).after, req, env[1..])
  }

  lemma {:induction false} NoWritesNoChange(s: State, reqs: seq<Request>, key: ObjectRef)
    requires Writes(s, reqs, key) == 0
    ensures Entry(Run(s, reqs), key) == Entry(s, key)
  {
    if |reqs| > 0 {
      NoWritesNoChange(s, reqs[..|reqs| - 1], key);
    }
  }

  lemma ConflictsNeedWrites(s: State, req: GetThenUpdateRequest, others: Interference)
    requires Inv(s) && req.KindsAgree() && Attempt(s, req, others).outcome.Retrying?
    ensures Writes(Run(s, others.beforeGet), others.beforeReplace, req.Key()) > 0
  {
    hide Inv, Run, HandleUpdate, Malformed;
    var s1 := Run(s, others.beforeGet);
    if Writes(s1, others.beforeReplace, req.Key()) == 0 {
      NoWritesNoChange(s1, others.beforeReplace, req.Key());
      OwnedUpdates(Run(s1, others.beforeReplace), req, req.Key());
    }
  }

  /** Every round reads an owned object and finds the other one at its replace. */
  predicate Clashing(s: State, req: GetThenUpdateRequest, env: seq<Interference>)
    decreases |env|
  {
    |env| == 0 ||
      var s1 := Run(s, env[0].beforeGet);
      var s2 := Run(s1, env[0].beforeReplace);
      Clash(req, s1, s2) && Clashing(s2, req, env[1..])
  }

  /**
   If the kinds differ, the loop is still retrying exactly if every round found both objects. The shim means one
   object by its two calls, and the server two.
   */
  lemma {:induction false} MismatchedRetriesExactly(s: State, req: GetThenUpdateRequest, env: seq<Interference>)
    requires Inv(s) && !req.KindsAgree()
    ensures Attempts(s, req, env).outcome.Retrying? <==> Clashing(s, req, env)
    decreases |env|
  {
    hide Inv, HandleUpdate, Run, Malformed;
    if |env| > 0 {
      var s1 := Run(s, env[0].beforeGet);
      var s2 := Run(s1, env[0].beforeReplace);
      RunKeepsInv(s, env[0].beforeGet);
      RunKeepsInv(s1, env[0].beforeReplace);
      if Owned(s1, req.Key(), req.owner) {
        ReplaceIsAtomic(s1, env[0].beforeReplace, req);
      }
      RoundIsAtomic(s, req, env[0]);
      if Attempt(s, req, env[0]).outcome.Retrying? {
        MismatchedRetriesExactly(s2, req, env[1..]);
      }
    }
  }

  /** With at most `n` interfering writes, the loop returns within `n + 1` rounds, unless two objects clash in each. */
  lemma {:induction false} FewWritesFewRounds(s: State, req: GetThenUpdateRequest, env: seq<Interference>, n: nat)
    requires Inv(s) && (req.KindsAgree() || !Clashing(s, req, env))
    requires InterferingWrites(s, req, env) <= n < |env|
    ensures Attempts(s, req, env).outcome.Done?
    decreases |env|
  {
    hide Inv, Attempt, Writes, Clash;
    if !req.KindsAgree() {
      MismatchedRetriesExactly(s, req, env);
    } else {
      var first := Attempt(s, req, env[0]);
      if first.outcome.Retrying? {
        ConflictsNeedWrites(s, req, env[0]);
        RoundIsAtomic(s, req, env[0]);
        RunKeepsInv(s, env[0].beforeGet);
        RunKeepsInv(Run(s, env[0].beforeGet), env[0].beforeReplace);
        FewWritesFewRounds(first.after, req, env[1..], n - 1);
      }
    }
  }

  const QUIET := Interference([], [])

  /** Left alone, the loop does not return, however long it runs, exactly if the server takes its object for another. */
  lemma {:induction false} LeftAloneRetriesExactly(s: State, req: GetThenUpdateRequest, rounds: nat)
    requires Inv(s) && rounds > 0
    ensures Attempts(s, req, seq(rounds, _ => QUIET)).outcome.Retrying? <==> Clash(req, s, s)
  {
    hide Inv, Clash, Attempt;
    RunNothing(s);
    var env := seq(rounds, _ => QUIET);
    if req.KindsAgree() {
      if Attempt(s, req, QUIET).outcome.Retrying? {
        ConflictsNeedWrites(s, req, QUIET);
        assert false;
      }
      assert !Clash(req, s, s) by { NoClash(req, s); }
    } else {
      MismatchedRetriesExactly(s, req, env);
      QuietlyClashing(s, req, rounds);
    }
  }

  lemma NoClash(req: GetThenUpdateRequest, s: State)
    requires req.KindsAgree()
    ensures !Clash(req, s, s)
  {
  }

  lemma {:induction false} QuietlyClashing(s: State, req: GetThenUpdateRequest, rounds: nat)
    requires rounds > 0
    ensures Clashing(s, req, seq(rounds, _ => QUIET)) <==> Clash(req, s, s)
  {
    hide Clash, Run;
    RunNothing(s);
    assert seq(rounds, _ => QUIET)[1..] == seq(rounds - 1, _ => QUIET);
    if rounds > 1 {
      QuietlyClashing(s, req, rounds - 1);
    }
  }

  // ----- errors by name -----

  /** Of all errors an update can end in, the client sees the server's own but for `Forbidden`. */
  lemma OnlyForbiddenIsRenamed(s: State, req: UpdateRequest)
    ensures var r := HandleUpdate(s, req).1;
            r.Err? ==> (AsSeenByClient(r) == r <==> r.error != Forbidden)
  {
  }

  /** An update is forbidden exactly if it would add a finalizer to an object that is being deleted. */
  lemma UpdatesAreForbiddenExactly(s: State, req: UpdateRequest)
    ensures HandleUpdate(s, req).1 == Err(Forbidden) <==>
            && UpdateRequestAdmissionCheck(req, s).None?
            && AtMostOneController(req.obj.metadata)
            && s.resources[req.Key()].metadata.deletionTimestamp.Some?
            && !(req.obj.metadata.FinalizersAsSet() <= s.resources[req.Key()].metadata.FinalizersAsSet())
  {
    if UpdateRequestAdmissionCheck(req, s).None? {
      var oldObj := s.resources[req.Key()];
      ControllersAreCounted(UpdatedObject(req, oldObj).WithResourceVersion(s.resourceVersionCounter));
    }
    hide FilterControllers, ValidObject, Immutable, Unmarshallable;
  }

  // ----- examples of all this -----

  function Named(kind: Kind, owner: OwnerReference, finalizers: seq<string>, data: string): DynamicObject {
    DynamicObject(kind, ObjectMeta(Some("a"), None, Some("ns"), None, None, None, None, Some([owner]),
                                   Some(finalizers), None), Data(data), "")
  }

  function Creating(obj: DynamicObject): Request {
    Create(CreateRequest("ns", obj), "")
  }

  /** What the server stores for it, as the `n`th object of the `n`th write. */
  function Created(obj: DynamicObject, n: int): DynamicObject {
    obj.(metadata := obj.metadata.(resourceVersion := Some(n), uid := Some(n)))
  }

  /** Nothing but the object itself stands against its creation. */
  lemma CreationStores(s: State, kind: Kind, owner: OwnerReference, finalizers: seq<string>, data: string)
    requires kind in {ConfigMapKind, SecretKind} && s.uidCounter == s.resourceVersionCounter
    requires ObjectRef(kind, "a", "ns") !in s.resources
    ensures var obj, key := Named(kind, owner, finalizers, data), ObjectRef(kind, "a", "ns");
            var n := s.uidCounter;
            Step(s, Creating(obj)) ==
              State(s.resources[key := Created(obj, n)], n + 1, n + 1, s.stableResources - {key})
  {
    var obj := Named(kind, owner, finalizers, data);
    assert |[owner]| == 1;
    assert CreatedObject(CreateRequest("ns", obj), s, "") == Created(obj, s.uidCounter);
  }

  const CONTROLLER := OwnerReference(Some(true), CustomResourceKind, "cr", 7)
  const BYSTANDER := OwnerReference(None, CustomResourceKind, "cr", 7)

  function Twins(): seq<Request> {
    [Creating(Named(ConfigMapKind, CONTROLLER, [], "")), Creating(Named(SecretKind, CONTROLLER, [], ""))]
  }

  function Config(owner: OwnerReference): DynamicObject {
    Named(ConfigMapKind, owner, [], "")
  }

  const CONFIG_KEY := ObjectRef(ConfigMapKind, "a", "ns")
  const SECRET_KEY := ObjectRef(SecretKind, "a", "ns")

  /** A request that reads the one of these two objects and would replace the other. */
  function TwinRequest(): GetThenUpdateRequest {
    GetThenUpdateRequest(ConfigMapKind, "a", "ns", CONTROLLER, Named(SecretKind, CONTROLLER, [], ""))
  }

  lemma TwinsAreStored()
    ensures var s := Run(EMPTY, Twins());
            && s.resources == map[CONFIG_KEY := Created(Config(CONTROLLER), 0),
                                  SECRET_KEY := Created(Named(SecretKind, CONTROLLER, [], ""), 1)]
            && s.resourceVersionCounter == 2
            && Mismatched(TwinRequest(), s)
  {
    RunTwo(EMPTY, Twins()[0], Twins()[1]);
    CreationStores(EMPTY, ConfigMapKind, CONTROLLER, [], "");
    CreationStores(Step(EMPTY, Twins()[0]), SecretKind, CONTROLLER, [], "");
    assert CONTROLLER in [CONTROLLER];
  }

  /** Two creations away from the empty server, the loop may be left alone and still not return. */
  lemma TwinsClash()
    ensures Clash(TwinRequest(), Run(EMPTY, Twins()), Run(EMPTY, Twins()))
  {
    hide Run;
    TwinsAreStored();
  }

  /** The loop changes an object for an owner that is no controller, where the cluster model refuses. */
  lemma SomeUpdateTheClusterRefuses() returns (reqs: seq<Request>, req: GetThenUpdateRequest)
    ensures var s := Run(EMPTY, reqs);
            && Attempts(s, req, [QUIET]).outcome.Done? && Attempts(s, req, [QUIET]).outcome.result.Ok?
            && Attempts(s, req, [QUIET]).after != s
            && ClusterGetThenUpdate(s, req) == (s, Err(BadRequest))
  {
    var obj := Named(ConfigMapKind, BYSTANDER, [], "");
    reqs := [Creating(obj)];
    req := GetThenUpdateRequest(ConfigMapKind, "a", "ns", BYSTANDER, Named(ConfigMapKind, BYSTANDER, [], "new"));
    RunOne(EMPTY, reqs[0]);
    CreationStores(EMPTY, ConfigMapKind, BYSTANDER, [], "");
    var s := Run(EMPTY, reqs);
    RunNothing(s);
    var current := s.resources[req.Key()];
    assert current == Created(obj, 0) && BYSTANDER in [BYSTANDER] && |[BYSTANDER]| == 1;
    assert HandleUpdate(s, ReplaceWith(req, current)).1.Ok?;
    assert HandleUpdate(s, ReplaceWith(req, current)).0.resourceVersionCounter == 2;
  }

  /** An object with a finalizer is being deleted; a get-then-update that adds another one ends in `Other`. */
  lemma SomeErrorIsRenamed() returns (reqs: seq<Request>, req: GetThenUpdateRequest)
    ensures var s := Run(EMPTY, reqs);
            Atomic(s, req) == (s, Err(Forbidden)) && Attempts(s, req, [QUIET]).outcome == Done(Err(Other))
  {
    var obj := Named(ConfigMapKind, CONTROLLER, ["f"], "");
    var key := ObjectRef(ConfigMapKind, "a", "ns");
    reqs := [Creating(obj), Delete(key, "now")];
    req := GetThenUpdateRequest(ConfigMapKind, "a", "ns", CONTROLLER, Named(ConfigMapKind, CONTROLLER, ["g"], ""));
    RunTwo(EMPTY, reqs[0], reqs[1]);
    CreationStores(EMPTY, ConfigMapKind, CONTROLLER, ["f"], "");
    var s := Run(EMPTY, reqs);
    RunNothing(s);
    assert |["f"]| == 1;
    var current := s.resources[key];
    assert current.metadata.finalizers == Some(["f"]) && current.metadata.deletionTimestamp == Some("now");
    assert CONTROLLER in [CONTROLLER];
    assert "g" in ["g"] && "g" !in ["f"] by { assert "g"[0] != "f"[0]; }
    var update := ReplaceWith(req, current);
    assert "g" in update.obj.metadata.FinalizersAsSet() && "g" !in current.metadata.FinalizersAsSet();
    assert |[CONTROLLER]| == 1;
    FilteringShortens([CONTROLLER]);
    UpdatesAreForbiddenExactly(s, update);
  }

  function HandedOver(): UpdateRequest {
    UpdateRequest(ConfigMapKind, "a", "ns", Config(BYSTANDER))
  }

  lemma HandingOver(s: State)
    requires s.resources == map[CONFIG_KEY := Created(Config(CONTROLLER), 0)]
    ensures var end := Step(s, Update(HandedOver())).resources;
            && SECRET_KEY !in end && CONFIG_KEY in end
            && !end[CONFIG_KEY].metadata.OwnerReferencesContains(CONTROLLER)
  {
    assert |[BYSTANDER]| == 1 && CONTROLLER !in [BYSTANDER];
  }

  function InBetween(): seq<Request> {
    [Delete(SECRET_KEY, "now"), Update(HandedOver())]
  }

  lemma ThingsChangeInBetween(s: State)
    requires s.resources == map[CONFIG_KEY := Created(Config(CONTROLLER), 0),
                                SECRET_KEY := Created(Named(SecretKind, CONTROLLER, [], ""), 1)]
    ensures var end := Run(s, InBetween());
            SECRET_KEY !in end.resources && CONFIG_KEY in end.resources && !Owned(end, CONFIG_KEY, CONTROLLER)
  {
    RunTwo(s, InBetween()[0], InBetween()[1]);
    var mid := Step(s, Delete(SECRET_KEY, "now"));
    assert mid.resources == map[CONFIG_KEY := Created(Config(CONTROLLER), 0)];
    hide Run, HandleUpdate, Created, HandedOver;
    HandingOver(mid);
  }

  lemma OvertakenRoundFails(s: State, req: GetThenUpdateRequest, others: seq<Request>)
    requires Inv(s) && Overtaken(req, s, Run(s, others))
    ensures var r := Attempts(s, req, [Interference([], others)]);
            && r.outcome == Done(Err(ObjectNotFound))
            && Atomic(r.read, req).1 == Err(Conflict) && Atomic(r.replaced, req).1 == Err(TransactionAbort)
  {
    RunNothing(s);
    RunKeepsInv(s, others);
    hide Run, Inv, HandleUpdate, Malformed, Atomic;
    MismatchedAtOnce(s, req);
    MismatchedAtOnce(Run(s, others), req);
    ReplaceIsAtomic(s, others, req);
  }

  /** The other object is deleted and the one that was read changes owners: the error is that of no single instant. */
  lemma SomeErrorIsNotAtomic()
    ensures var r := Attempts(Run(EMPTY, Twins()), TwinRequest(), [Interference([], InBetween())]);
            && r.outcome == Done(Err(ObjectNotFound))
            && Atomic(r.read, TwinRequest()).1 == Err(Conflict)
            && Atomic(r.replaced, TwinRequest()).1 == Err(TransactionAbort)
  {
    hide Run, Inv, Attempts, Malformed;
    TwinsAreStored();
    ThingsChangeInBetween(Run(EMPTY, Twins()));
    ReachableIsSound(Twins());
    OvertakenRoundFails(Run(EMPTY, Twins()), TwinRequest(), InBetween());
  }

}
