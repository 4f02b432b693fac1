/** What holds over every sequence of requests: no version or uid is ever used twice, and how objects may change. */
module ApiServerRuns {
  import opened Options
  import opened KubeObjects
  import opened ApiServers

  datatype Request =
    | Get(key: ObjectRef)
    | Create(create: CreateRequest, generatedName: string)
    | Delete(key: ObjectRef, now: string)
    | Update(update: UpdateRequest)
    | UpdateStatus(update: UpdateRequest)

  function Step(s: State, req: Request): State {
    match req
    case Get(_) => s
    case Create(create, generatedName) => HandleCreate(s, create, generatedName).0
    case Delete(key, now) => HandleDelete(s, key, now).0
    case Update(update) => HandleUpdate(s, update).0
    case UpdateStatus(update) => HandleUpdateStatus(s, update).0
  }

  function Run(s: State, reqs: seq<Request>): State {
    if |reqs| == 0 then s else Step(Run(s, reqs[..|reqs| - 1]), reqs[|reqs| - 1])
  }

  // ----- the invariant -----

  /** The object names `key`, is numbered below the counters, valid, and not overdue for removal. */
  predicate FineAt(obj: DynamicObject, key: ObjectRef, resourceVersionCounter: int, uidCounter: int) {
    var m := obj.metadata;
    && Unmarshallable(obj) && ValidObject(obj)
    && m.name == Some(key.name) && m.namespace == Some(key.namespace) && obj.kind == key.kind
    && m.resourceVersion.Some? && m.resourceVersion.value < resourceVersionCounter
    && m.uid.Some? && m.uid.value < uidCounter
    && (m.deletionTimestamp.Some? ==> m.HasFinalizers())
    && AtMostOneController(m)
  }

  predicate WellStored(s: State, key: ObjectRef) {
    key in s.resources && FineAt(s.resources[key], key, s.resourceVersionCounter, s.uidCounter)
  }

  /** The server counts controllers only among several owners; that misses nothing. */
  lemma ControllersAreCounted(obj: DynamicObject)
    ensures MetadataValidityCheck(obj).None? <==> AtMostOneController(obj.metadata)
  {
    if obj.metadata.ownerReferences.Some? {
      FilteringShortens(obj.metadata.ownerReferences.value);
    }
  }

  ghost predicate Inv(s: State) {
    && (forall key :: key in s.resources ==> WellStored(s, key))
    && (forall k1, k2 :: k1 in s.resources && k2 in s.resources && k1 != k2 ==>
          s.resources[k1].metadata.resourceVersion != s.resources[k2].metadata.resourceVersion)
    && (forall k1, k2 :: k1 in s.resources && k2 in s.resources && k1 != k2 ==>
          s.resources[k1].metadata.uid != s.resources[k2].metadata.uid)
  }

  /** What the server's update methods ask of the stored object. */
  lemma InvSuffices(s: State, key: ObjectRef)
    requires Inv(s)
    ensures StoredWell(s, key)
  {
    assert key in s.resources ==> WellStored(s, key);
  }

  /** How an object may change while it keeps its uid. */
  ghost predicate Evolves(was: DynamicObject, now: DynamicObject) {
    && now.kind == was.kind
    && now.metadata.uid == was.metadata.uid
    && Immutable(now) == Immutable(was)
    && (was.metadata.deletionTimestamp.Some? ==>
          && now.metadata.deletionTimestamp == was.metadata.deletionTimestamp
          && now.metadata.FinalizersAsSet() <= was.metadata.FinalizersAsSet())
    && was.metadata.resourceVersion.Some? && now.metadata.resourceVersion.Some?
    && was.metadata.resourceVersion.value <= now.metadata.resourceVersion.value
    && (was.metadata.resourceVersion == now.metadata.resourceVersion ==> now == was)
  }

  /**
   At most one entry changes: it is removed, evolves, or is new; a write takes the next version, a creation the
   next uid.
   */
  ghost predicate OneWrite(s: State, s': State, key: ObjectRef) {
    && s.resourceVersionCounter <= s'.resourceVersionCounter
    && s.uidCounter <= s'.uidCounter
    && (forall k :: k != key ==> (k in s'.resources <==> k in s.resources))
    && (forall k :: k != key && k in s.resources ==> s'.resources[k] == s.resources[k])
    && (key in s'.resources ==>
          || (key in s.resources && s'.resources[key] == s.resources[key])
          || (&& WellStored(s', key)
              && s'.resources[key].metadata.resourceVersion == Some(s.resourceVersionCounter)
              && (|| (key in s.resources && Evolves(s.resources[key], s'.resources[key]))
                  || s'.resources[key].metadata.uid == Some(s.uidCounter))))
  }

  lemma ShapeIsAboutSpec(a: DynamicObject, b: DynamicObject)
    requires a.kind == b.kind && a.spec == b.spec
    ensures Unmarshallable(a) == Unmarshallable(b) && ValidObject(a) == ValidObject(b) && Immutable(a) == Immutable(b)
  {
  }

  lemma CreatedIsFine(req: CreateRequest, s: State, generatedName: string)
    requires CreateRequestAdmissionCheck(req, s).None?
    requires CreatedObjectValidityCheck(CreatedObject(req, s, generatedName)).None?
    ensures var obj := CreatedObject(req, s, generatedName);
            FineAt(obj, obj.Ref(), s.resourceVersionCounter + 1, s.uidCounter + 1)
  {
    hide Unmarshallable, ValidObject, FilterControllers;
    ShapeIsAboutSpec(req.obj, CreatedObject(req, s, generatedName));
    ControllersAreCounted(CreatedObject(req, s, generatedName));
  }

  lemma CreateWritesOne(s: State, req: CreateRequest, generatedName: string) returns (key: ObjectRef)
    requires Inv(s)
    ensures OneWrite(s, HandleCreate(s, req, generatedName).0, key)
  {
    hide FineAt, CreateRequestAdmissionCheck, CreatedObjectValidityCheck, Evolves;
    var obj := CreatedObject(req, s, generatedName);
    key := obj.Ref();
    if CreateRequestAdmissionCheck(req, s).None? && CreatedObjectValidityCheck(obj).None? {
      CreatedIsFine(req, s, generatedName);
    }
  }

  lemma StampedIsFine(obj: DynamicObject, key: ObjectRef, rvc: int, uidc: int, now: string)
    requires FineAt(obj, key, rvc, uidc)
    requires obj.metadata.HasFinalizers() && obj.metadata.deletionTimestamp.None?
    ensures var stamped := obj.(metadata := obj.metadata.(deletionTimestamp := Some(now))).WithResourceVersion(rvc);
            FineAt(stamped, key, rvc + 1, uidc) && Evolves(obj, stamped)
  {
    hide Unmarshallable, ValidObject, Immutable, FilterControllers;
    ShapeIsAboutSpec(obj, obj.(metadata := obj.metadata.(deletionTimestamp := Some(now))).WithResourceVersion(rvc));
  }

  lemma DeleteWritesOne(s: State, key: ObjectRef, now: string)
    requires Inv(s)
    ensures OneWrite(s, HandleDelete(s, key, now).0, key)
  {
    hide FineAt, Evolves;
    if key in s.resources {
      assert WellStored(s, key);
      var obj := s.resources[key];
      if obj.metadata.HasFinalizers() && obj.metadata.deletionTimestamp.None? {
        StampedIsFine(obj, key, s.resourceVersionCounter, s.uidCounter, now);
      }
    }
  }

  /** An update that passes the checks and is not a removal. */
  lemma UpdatedIsFine(req: UpdateRequest, oldObj: DynamicObject, rvc: int, uidc: int)
    requires FineAt(oldObj, req.Key(), rvc, uidc)
    requires Unmarshallable(req.obj) && req.obj.metadata.name == Some(req.name)
    requires UpdatedObjectValidityCheck(UpdatedObject(req, oldObj).WithResourceVersion(rvc), oldObj).None?
    requires oldObj.metadata.deletionTimestamp.None? || req.obj.metadata.HasFinalizers()
    ensures var obj := UpdatedObject(req, oldObj).WithResourceVersion(rvc);
            FineAt(obj, req.Key(), rvc + 1, uidc) && Evolves(oldObj, obj)
  {
    hide Unmarshallable, ValidObject, Immutable, FilterControllers;
    ShapeIsAboutSpec(req.obj, UpdatedObject(req, oldObj).WithResourceVersion(rvc));
    ControllersAreCounted(UpdatedObject(req, oldObj).WithResourceVersion(rvc));
  }

  lemma UpdateWritesOne(s: State, req: UpdateRequest)
    requires Inv(s)
    ensures OneWrite(s, HandleUpdate(s, req).0, req.Key())
  {
    hide FineAt, UpdatedObjectValidityCheck, Evolves, Unmarshallable;
    if req.Key() in s.resources {
      assert WellStored(s, req.Key());
      var oldObj := s.resources[req.Key()];
      var obj := UpdatedObject(req, oldObj).WithResourceVersion(s.resourceVersionCounter);
      if UpdateRequestAdmissionCheck(req, s).None? && UpdatedObjectValidityCheck(obj, oldObj).None?
         && (obj.metadata.deletionTimestamp.None? || obj.metadata.HasFinalizers()) {
        UpdatedIsFine(req, oldObj, s.resourceVersionCounter, s.uidCounter);
      }
    }
  }

  lemma StatusUpdatedIsFine(req: UpdateRequest, oldObj: DynamicObject, rvc: int, uidc: int)
    requires FineAt(oldObj, req.Key(), rvc, uidc)
    ensures var obj := StatusUpdatedObject(req, oldObj).WithResourceVersion(rvc);
            FineAt(obj, req.Key(), rvc + 1, uidc) && Evolves(oldObj, obj)
  {
    hide Unmarshallable, ValidObject, Immutable, FilterControllers;
    ShapeIsAboutSpec(oldObj, StatusUpdatedObject(req, oldObj).WithResourceVersion(rvc));
  }

  lemma UpdateStatusWritesOne(s: State, req: UpdateRequest)
    requires Inv(s)
    ensures OneWrite(s, HandleUpdateStatus(s, req).0, req.Key())
  {
    hide FineAt, UpdatedObjectValidityCheck, Evolves, Unmarshallable;
    if req.Key() in s.resources {
      assert WellStored(s, req.Key());
      StatusUpdatedIsFine(req, s.resources[req.Key()], s.resourceVersionCounter, s.uidCounter);
    }
  }

  lemma StepWritesOne(s: State, req: Request) returns (key: ObjectRef)
    requires Inv(s)
    ensures OneWrite(s, Step(s, req), key)
  {
    hide Inv, OneWrite, HandleCreate, HandleDelete, HandleUpdate, HandleUpdateStatus;
    match req
    case Get(k) => key := k; NoWrite(s, k);
    case Create(create, generatedName) => key := CreateWritesOne(s, create, generatedName);
    case Delete(k, now) => key := k; DeleteWritesOne(s, k, now);
    case Update(update) => key := update.Key(); UpdateWritesOne(s, update);
    case UpdateStatus(update) => key := update.Key(); UpdateStatusWritesOne(s, update);
  }

  lemma NoWrite(s: State, key: ObjectRef)
    ensures OneWrite(s, s, key)
  {
  }

  lemma UnwrittenStaysWellStored(s: State, s': State, key: ObjectRef, k: ObjectRef)
    requires Inv(s) && OneWrite(s, s', key) && k in s'.resources
    ensures WellStored(s', k)
  {
    hide Unmarshallable, ValidObject, Evolves, MetadataValidityCheck, ObjectMeta.HasFinalizers;
    if k in s.resources { assert WellStored(s, k); }
  }

  lemma NumbersStayDistinct(s: State, s': State, key: ObjectRef, k1: ObjectRef, k2: ObjectRef)
    requires Inv(s) && OneWrite(s, s', key) && k1 in s'.resources && k2 in s'.resources && k1 != k2
    ensures s'.resources[k1].metadata.resourceVersion != s'.resources[k2].metadata.resourceVersion
    ensures s'.resources[k1].metadata.uid != s'.resources[k2].metadata.uid
  {
    hide MetadataValidityCheck, ObjectMeta.HasFinalizers, Immutable, Unmarshallable, ValidObject;
    if k1 in s.resources { assert WellStored(s, k1); }
    if k2 in s.resources { assert WellStored(s, k2); }
  }

  lemma OneWriteKeepsInv(s: State, s': State, key: ObjectRef)
    requires Inv(s) && OneWrite(s, s', key)
    ensures Inv(s')
  {
    hide WellStored, OneWrite;
    forall k | k in s'.resources
      ensures WellStored(s', k)
    {
      UnwrittenStaysWellStored(s, s', key, k);
    }
    forall k1, k2 | k1 in s'.resources && k2 in s'.resources && k1 != k2
      ensures s'.resources[k1].metadata.resourceVersion != s'.resources[k2].metadata.resourceVersion
      ensures s'.resources[k1].metadata.uid != s'.resources[k2].metadata.uid
    {
      NumbersStayDistinct(s, s', key, k1, k2);
    }
  }

  lemma StepKeepsInv(s: State, req: Request)
    requires Inv(s)
    ensures Inv(Step(s, req))
  {
    hide Inv, OneWrite, Step;
    var key := StepWritesOne(s, req);
    OneWriteKeepsInv(s, Step(s, req), key);
  }

  // ----- what a request may not do -----

  /** The version counter moves by one exactly when something stored changes; nothing becomes stable by a request. */
  lemma CounterCountsWrites(s: State, req: Request)
    requires Inv(s)
    ensures var s' := Step(s, req);
            && s'.stableResources <= s.stableResources
            && s'.resourceVersionCounter == s.resourceVersionCounter + (if s'.resources == s.resources then 0 else 1)
            && s'.uidCounter == s.uidCounter + (if req.Create? && s'.resources != s.resources then 1 else 0)
  {
    hide FineAt, CreateRequestAdmissionCheck, CreatedObjectValidityCheck, UpdatedObjectValidityCheck, Unmarshallable;
    match req
    case Get(_) =>
    case Create(create, generatedName) =>
      var obj := CreatedObject(create, s, generatedName);
      assert obj.Ref() !in s.resources ==> s.resources[obj.Ref() := obj] != s.resources;
    case Delete(key, now) => if key in s.resources { WrittenIsChanged(s, key); }
    case Update(update) => if update.Key() in s.resources { WrittenIsChanged(s, update.Key()); }
    case UpdateStatus(update) => if update.Key() in s.resources { WrittenIsChanged(s, update.Key()); }
  }

  lemma WrittenIsChanged(s: State, key: ObjectRef)
    requires Inv(s) && key in s.resources
    ensures s.resources[key].metadata.resourceVersion != Some(s.resourceVersionCounter)
    ensures s.resources - {key} != s.resources
    ensures forall obj: DynamicObject ::
              s.resources[key := obj.WithResourceVersion(s.resourceVersionCounter)] != s.resources
  {
    assert WellStored(s, key);
    forall obj: DynamicObject
      ensures s.resources[key := obj.WithResourceVersion(s.resourceVersionCounter)] != s.resources
    {
      assert s.resources[key := obj.WithResourceVersion(s.resourceVersionCounter)][key] != s.resources[key];
    }
  }

  // ----- runs -----

  /** A run is cut at `n` into what came before and what comes after. */
  lemma {:induction false} RunKeepsInv(s: State, reqs: seq<Request>)
    requires Inv(s)
    ensures Inv(Run(s, reqs))
  {
    hide Inv, Step;
    if |reqs| > 0 {
      RunKeepsInv(s, reqs[..|reqs| - 1]);
      StepKeepsInv(Run(s, reqs[..|reqs| - 1]), reqs[|reqs| - 1]);
    }
  }

  lemma StartIsSound()
    ensures Inv(EMPTY)
  {
  }

  lemma ReachableIsSound(reqs: seq<Request>)
    ensures Inv(Run(EMPTY, reqs))
  {
    hide Inv;
    StartIsSound();
    RunKeepsInv(EMPTY, reqs);
  }

  lemma {:induction false} RunSplits(s: State, before: seq<Request>, after: seq<Request>)
    ensures Run(s, before + after) == Run(Run(s, before), after)
  {
    if |after| == 0 {
      assert before + after == before;
    } else {
      RunSplits(s, before, after[..|after| - 1]);
      assert (before + after)[..|before + after| - 1] == before + after[..|after| - 1];
    }
  }

  /** Counters never fall. */
  lemma {:induction false} CountersNeverFall(s: State, reqs: seq<Request>)
    requires Inv(s)
    ensures s.resourceVersionCounter <= Run(s, reqs).resourceVersionCounter && s.uidCounter <= Run(s, reqs).uidCounter
  {
    hide Inv, Step;
    if |reqs| > 0 {
      var mid := Run(s, reqs[..|reqs| - 1]);
      CountersNeverFall(s, reqs[..|reqs| - 1]);
      RunKeepsInv(s, reqs[..|reqs| - 1]);
      var key := StepWritesOne(mid, reqs[|reqs| - 1]);
    }
  }

  /** An object with an old version was not written since. */
  lemma {:induction false} OldVersionIsUntouched(s: State, reqs: seq<Request>, key: ObjectRef)
    requires Inv(s) && key in Run(s, reqs).resources
    requires Run(s, reqs).resources[key].metadata.resourceVersion.Some?
    requires Run(s, reqs).resources[key].metadata.resourceVersion.value < s.resourceVersionCounter
    ensures key in s.resources && s.resources[key] == Run(s, reqs).resources[key]
  {
    hide Inv, Step;
    if |reqs| > 0 {
      var mid := Run(s, reqs[..|reqs| - 1]);
      CountersNeverFall(s, reqs[..|reqs| - 1]);
      RunKeepsInv(s, reqs[..|reqs| - 1]);
      var written := StepWritesOne(mid, reqs[|reqs| - 1]);
      OldVersionIsUntouched(s, reqs[..|reqs| - 1], key);
    }
  }

  /** No ABA: equal versions at any two moments of a run mean the same object under the same name. */
  lemma VersionsIdentifyObjects(before: seq<Request>, after: seq<Request>, k1: ObjectRef, k2: ObjectRef)
    requires k1 in Run(EMPTY, before).resources && k2 in Run(EMPTY, before + after).resources
    requires Run(EMPTY, before).resources[k1].metadata.resourceVersion
          == Run(EMPTY, before + after).resources[k2].metadata.resourceVersion
    ensures k1 == k2 && Run(EMPTY, before).resources[k1] == Run(EMPTY, before + after).resources[k2]
  {
    hide Run;
    var s := Run(EMPTY, before);
    ReachableIsSound(before);
    RunSplits(EMPTY, before, after);
    assert WellStored(s, k1);
    OldVersionIsUntouched(s, after, k2);
  }

  // ----- the server itself -----

  /** Any requests, one after another: the server ends where the run does. */
  method Serve(server: ApiServer, reqs: seq<Request>)
    requires Inv(server.View())
    requires server.resourceVersionCounter + |reqs| <= I64_MAX && server.uidCounter + |reqs| <= I64_MAX
    modifies server
    ensures server.View() == Run(old(server.View()), reqs) && Inv(server.View())
    ensures server.resourceVersionCounter <= old(server.resourceVersionCounter) + |reqs|
    ensures server.uidCounter <= old(server.uidCounter) + |reqs|
  {
    hide Inv, HandleCreate, HandleDelete, HandleUpdate, HandleUpdateStatus, StoredWell;
    ghost var start := server.View();
    assert reqs[..0] == [];
    for n := 0 to |reqs|
      invariant server.View() == Run(start, reqs[..n]) && Inv(server.View())
      invariant server.resourceVersionCounter <= old(server.resourceVersionCounter) + n
      invariant server.uidCounter <= old(server.uidCounter) + n
    {
      ghost var before := server.View();
      StepKeepsInv(before, reqs[n]);
      CounterCountsWrites(before, reqs[n]);
      match reqs[n] {
        case Get(key) =>
          var _ := server.HandleGetRequest(key);
        case Create(create, generatedName) =>
          var _ := server.HandleCreateRequest(create, generatedName);
        case Delete(key, now) =>
          var _ := server.HandleDeleteRequest(key, now);
        case Update(update) =>
          InvSuffices(before, update.Key());
          var _ := server.HandleUpdateRequest(update);
        case UpdateStatus(update) =>
          InvSuffices(before, update.Key());
          var _ := server.HandleUpdateStatusRequest(update);
      }
      assert server.View() == Step(before, reqs[n]);
      assert reqs[..n + 1][..n] == reqs[..n];
    }
    assert reqs[..|reqs|] == reqs;
  }

  // ----- the life of a uid -----

  lemma EvolvingIsTransitive(a: DynamicObject, b: DynamicObject, c: DynamicObject)
    requires Evolves(a, b) && Evolves(b, c)
    ensures Evolves(a, c)
  {
  }

  /** An object with an old uid has been there all along, and has only evolved. */
  lemma {:induction false} OldUidEvolved(s: State, reqs: seq<Request>, key: ObjectRef)
    requires Inv(s) && key in Run(s, reqs).resources
    requires Run(s, reqs).resources[key].metadata.uid.Some?
    requires Run(s, reqs).resources[key].metadata.uid.value < s.uidCounter
    ensures key in s.resources && Evolves(s.resources[key], Run(s, reqs).resources[key])
  {
    hide Inv, Step, Evolves, WellStored;
    if |reqs| == 0 {
      NothingEvolves(s, key);
    } else {
      var mid, end := Run(s, reqs[..|reqs| - 1]), Run(s, reqs);
      CountersNeverFall(s, reqs[..|reqs| - 1]);
      RunKeepsInv(s, reqs[..|reqs| - 1]);
      var written := StepWritesOne(mid, reqs[|reqs| - 1]);
      if end.resources[key].metadata.uid != Some(mid.uidCounter) || key != written {
        KeepsUid(mid, end, written, key);
        OldUidEvolved(s, reqs[..|reqs| - 1], key);
        if mid.resources[key] != end.resources[key] {
          EvolvingIsTransitive(s.resources[key], mid.resources[key], end.resources[key]);
        }
      }
    }
  }

  lemma NothingEvolves(s: State, key: ObjectRef)
    requires Inv(s) && key in s.resources
    ensures Evolves(s.resources[key], s.resources[key])
  {
    assert WellStored(s, key);
  }

  lemma KeepsUid(s: State, s': State, written: ObjectRef, key: ObjectRef)
    requires OneWrite(s, s', written) && key in s'.resources
    requires s'.resources[key].metadata.uid != Some(s.uidCounter) || key != written
    ensures key in s.resources && s.resources[key].metadata.uid == s'.resources[key].metadata.uid
    ensures s.resources[key] == s'.resources[key] || Evolves(s.resources[key], s'.resources[key])
  {
  }

  /**
   Over every run, two objects with one uid are one object at two moments: it has the same name, was stored at
   every moment between, its immutable part never changed, and once stamped for deletion it keeps the stamp
   while its finalizers only dwindle.
   */
  lemma UidsIdentifyLives(before: seq<Request>, between: seq<Request>, after: seq<Request>, k1: ObjectRef,
                          k2: ObjectRef)
    requires k1 in Run(EMPTY, before).resources && k2 in Run(EMPTY, before + between + after).resources
    requires Run(EMPTY, before).resources[k1].metadata.uid
          == Run(EMPTY, before + between + after).resources[k2].metadata.uid
    ensures k1 == k2
    ensures Evolves(Run(EMPTY, before).resources[k1], Run(EMPTY, before + between + after).resources[k1])
    ensures k1 in Run(EMPTY, before + between).resources
    ensures Evolves(Run(EMPTY, before).resources[k1], Run(EMPTY, before + between).resources[k1])
    ensures Evolves(Run(EMPTY, before + between).resources[k1], Run(EMPTY, before + between + after).resources[k1])
  {
    hide Run, Evolves;
    var s, mid := Run(EMPTY, before), Run(EMPTY, before + between);
    ReachableIsSound(before);
    ReachableIsSound(before + between);
    RunSplits(EMPTY, before, between);
    RunSplits(EMPTY, before + between, after);
    RunSplits(s, between, after);
    assert WellStored(s, k1);
    CountersNeverFall(s, between);
    OldUidEvolved(mid, after, k2);
    assert mid.resources[k2].metadata.uid == s.resources[k1].metadata.uid by {
      EvolvingKeepsUid(mid.resources[k2], Run(mid, after).resources[k2]);
    }
    OldUidEvolved(s, between, k2);
    assert s.resources[k2].metadata.uid == s.resources[k1].metadata.uid by {
      EvolvingKeepsUid(s.resources[k2], mid.resources[k2]);
    }
    EvolvingIsTransitive(s.resources[k2], mid.resources[k2], Run(mid, after).resources[k2]);
  }

  lemma EvolvingKeepsUid(was: DynamicObject, now: DynamicObject)
    requires Evolves(was, now)
    ensures was.metadata.uid == now.metadata.uid
  {
  }

  /** Every object ever stored is under its own name, and if it is being deleted something still holds it back. */
  lemma StoredObjectsAreSound(reqs: seq<Request>, key: ObjectRef)
    requires key in Run(EMPTY, reqs).resources
    ensures var s, obj := Run(EMPTY, reqs), Run(EMPTY, reqs).resources[key];
            && Unmarshallable(obj) && ValidObject(obj)
            && obj.metadata.name == Some(key.name) && obj.metadata.namespace == Some(key.namespace)
            && obj.kind == key.kind
            && obj.metadata.resourceVersion.Some? && obj.metadata.resourceVersion.value < s.resourceVersionCounter
            && obj.metadata.uid.Some? && obj.metadata.uid.value < s.uidCounter
            && (obj.metadata.deletionTimestamp.Some? ==> obj.metadata.FinalizersAsSet() != {})
            && (obj.metadata.ownerReferences.Some? ==>
                  forall i, j :: 0 <= i < j < |obj.metadata.ownerReferences.value| ==>
                    !(&& obj.metadata.ownerReferences.value[i].IsController()
                      && obj.metadata.ownerReferences.value[j].IsController()))
  {
    ReachableIsSound(reqs);
    hide Run;
    var s, obj := Run(EMPTY, reqs), Run(EMPTY, reqs).resources[key];
    assert WellStored(s, key);
    if obj.metadata.deletionTimestamp.Some? {
      assert obj.metadata.finalizers.value[0] in obj.metadata.FinalizersAsSet();
    }
    if obj.metadata.ownerReferences.Some? {
      CountedControllersAreDistinct(obj.metadata.ownerReferences.value);
    }
  }

}
