/** The executable model of the Kubernetes API server: its meaning as functions, and the server itself. */
module ApiServers {
  import opened Options
  import opened KubeObjects

  type I64 = x: int | -0x8000_0000_0000_0000 <= x < 0x8000_0000_0000_0000

  const I64_MAX: I64 := 0x7fff_ffff_ffff_ffff

  datatype APIError =
    | BadRequest
    | Conflict
    | Forbidden
    | Invalid
    | ObjectNotFound
    | ObjectAlreadyExists
    | NotSupported
    | InternalError
    | Timeout
    | ServerTimeout
    | TransactionAbort
    | Other

  datatype Result<T> = Ok(value: T) | Err(error: APIError)

  datatype CreateRequest = CreateRequest(namespace: string, obj: DynamicObject)

  /** Sent to an API resource, which the server disregards: it looks up the object under the kind of `obj`. */
  datatype UpdateRequest = UpdateRequest(apiResource: Kind, name: string, namespace: string, obj: DynamicObject) {
    function Key(): ObjectRef {
      ObjectRef(obj.kind, name, namespace)
    }
  }

  datatype State = State(
    resources: map<ObjectRef, DynamicObject>,
    uidCounter: int,
    resourceVersionCounter: int,
    stableResources: set<ObjectRef>)

  const EMPTY := State(map[], 0, 0, {})

  // ----- admission and validity -----

  function MetadataValidityCheck(obj: DynamicObject): Option<APIError> {
    if && obj.metadata.ownerReferences.Some?
       && |obj.metadata.ownerReferences.value| > 1
       && |FilterControllers(obj.metadata.ownerReferences.value)| > 1
    then Some(Invalid) else None
  }

  function MetadataTransitionValidityCheck(obj: DynamicObject, oldObj: DynamicObject): Option<APIError> {
    if && oldObj.metadata.deletionTimestamp.Some?
       && obj.metadata.finalizers.Some?
       && !(obj.metadata.FinalizersAsSet() <= oldObj.metadata.FinalizersAsSet())
    then Some(Forbidden) else None
  }

  function CreatedObjectValidityCheck(obj: DynamicObject): Option<APIError> {
    if MetadataValidityCheck(obj).Some? then MetadataValidityCheck(obj)
    else if !ValidObject(obj) then Some(Invalid)
    else None
  }

  function UpdatedObjectValidityCheck(obj: DynamicObject, oldObj: DynamicObject): Option<APIError> {
    if MetadataValidityCheck(obj).Some? then MetadataValidityCheck(obj)
    else if MetadataTransitionValidityCheck(obj, oldObj).Some? then MetadataTransitionValidityCheck(obj, oldObj)
    else if !ValidObject(obj) then Some(Invalid)
    else if Immutable(obj) != Immutable(oldObj) then Some(Invalid)
    else None
  }

  function CreateRequestAdmissionCheck(req: CreateRequest, s: State): Option<APIError> {
    var m := req.obj.metadata;
    if m.name.None? && m.generateName.None? then Some(Invalid)
    else if m.namespace.Some? && req.namespace != m.namespace.value then Some(BadRequest)
    else if !Unmarshallable(req.obj) then Some(BadRequest)
    else if m.name.Some? && ObjectRef(req.obj.kind, m.name.value, req.namespace) in s.resources then
      Some(ObjectAlreadyExists)
    else None
  }

  predicate AllowUnconditionalUpdate(kind: Kind) {
    !kind.CustomResourceKind?
  }

  function UpdateRequestAdmissionCheck(req: UpdateRequest, s: State): Option<APIError> {
    var m, key := req.obj.metadata, req.Key();
    if m.name.None? then Some(BadRequest)
    else if req.name != m.name.value then Some(BadRequest)
    else if m.namespace.Some? && req.namespace != m.namespace.value then Some(BadRequest)
    else if !Unmarshallable(req.obj) then Some(BadRequest)
    else if key !in s.resources then Some(ObjectNotFound)
    else if m.resourceVersion.None? && !AllowUnconditionalUpdate(key.kind) then Some(Invalid)
    else if m.resourceVersion.Some? && m.resourceVersion != s.resources[key].metadata.resourceVersion then
      Some(Conflict)
    else if m.uid.Some? && m.uid != s.resources[key].metadata.uid then Some(InternalError)
    else None
  }

  // ----- what each request means -----

  function HandleGet(s: State, key: ObjectRef): Result<DynamicObject> {
    if key in s.resources then Ok(s.resources[key]) else Err(ObjectNotFound)
  }

  function CreatedObject(req: CreateRequest, s: State, generatedName: string): DynamicObject {
    var m := req.obj.metadata;
    req.obj.(
      metadata := m.(
        name := if m.name.None? then Some(generatedName) else m.name,
        namespace := Some(req.namespace),
        resourceVersion := Some(s.resourceVersionCounter),
        uid := Some(s.uidCounter),
        deletionTimestamp := None),
      status := DefaultStatus(req.obj.kind))
  }

  /** `generatedName` stands for the random name the server would pick. */
  function HandleCreate(s: State, req: CreateRequest, generatedName: string): (State, Result<DynamicObject>) {
    var refusal := CreateRequestAdmissionCheck(req, s);
    if refusal.Some? then (s, Err(refusal.value)) else
    var obj := CreatedObject(req, s, generatedName);
    var invalid := CreatedObjectValidityCheck(obj);
    if obj.Ref() in s.resources then (s, Err(ObjectAlreadyExists))
    else if invalid.Some? then (s, Err(invalid.value))
    else
      (State(s.resources[obj.Ref() := obj], s.uidCounter + 1, s.resourceVersionCounter + 1,
             s.stableResources - {obj.Ref()}),
       Ok(obj))
  }

  /** `now` stands for the clock. */
  function HandleDelete(s: State, key: ObjectRef, now: string): (State, Result<()>) {
    if key !in s.resources then (s, Err(ObjectNotFound)) else
    var obj := s.resources[key];
    if obj.metadata.HasFinalizers() then
      if obj.metadata.deletionTimestamp.Some? then (s, Ok(())) else
      var stamped := obj.(metadata := obj.metadata.(deletionTimestamp := Some(now)))
                        .WithResourceVersion(s.resourceVersionCounter);
      (s.(resources := s.resources[key := stamped], resourceVersionCounter := s.resourceVersionCounter + 1), Ok(()))
    else
      (s.(resources := s.resources - {key}, resourceVersionCounter := s.resourceVersionCounter + 1), Ok(()))
  }

  function UpdatedObject(req: UpdateRequest, oldObj: DynamicObject): DynamicObject {
    req.obj.(
      metadata := req.obj.metadata.(
        namespace := Some(req.namespace),
        resourceVersion := oldObj.metadata.resourceVersion,
        uid := oldObj.metadata.uid,
        deletionTimestamp := oldObj.metadata.deletionTimestamp),
      status := oldObj.status)
  }

  function HandleUpdate(s: State, req: UpdateRequest): (State, Result<DynamicObject>) {
    var refusal := UpdateRequestAdmissionCheck(req, s);
    if refusal.Some? then (s, Err(refusal.value)) else
    var oldObj := s.resources[req.Key()];
    var same := UpdatedObject(req, oldObj);
    if same == oldObj then (s, Ok(oldObj)) else
    var obj := same.WithResourceVersion(s.resourceVersionCounter);
    var invalid := UpdatedObjectValidityCheck(obj, oldObj);
    if invalid.Some? then (s, Err(invalid.value))
    else if obj.metadata.deletionTimestamp.None? || obj.metadata.HasFinalizers() then
      (s.(resources := s.resources[req.Key() := obj],
          resourceVersionCounter := s.resourceVersionCounter + 1,
          stableResources := s.stableResources - {req.Key()}),
       Ok(obj))
    else
      (s.(resources := s.resources - {obj.Ref()}, resourceVersionCounter := s.resourceVersionCounter + 1), Ok(obj))
  }

  function StatusUpdatedObject(req: UpdateRequest, oldObj: DynamicObject): DynamicObject {
    req.obj.(metadata := oldObj.metadata, spec := oldObj.spec)
  }

  function HandleUpdateStatus(s: State, req: UpdateRequest): (State, Result<DynamicObject>) {
    var refusal := UpdateRequestAdmissionCheck(req, s);
    if refusal.Some? then (s, Err(refusal.value)) else
    var oldObj := s.resources[req.Key()];
    var same := StatusUpdatedObject(req, oldObj);
    if same == oldObj then (s, Ok(oldObj)) else
    var obj := same.WithResourceVersion(s.resourceVersionCounter);
    var invalid := UpdatedObjectValidityCheck(obj, oldObj);
    if invalid.Some? then (s, Err(invalid.value))
    else
      (s.(resources := s.resources[req.Key() := obj], resourceVersionCounter := s.resourceVersionCounter + 1), Ok(obj))
  }

  // ----- the server -----

  /** What the verified cluster invariant promises about the stored object an update is about. */
  predicate StoredWell(s: State, key: ObjectRef) {
    key in s.resources ==>
      var obj := s.resources[key];
      && Unmarshallable(obj)
      && ValidObject(obj)
      && obj.metadata.name.Some? && obj.metadata.namespace.Some? && obj.Ref() == key
  }

  class ApiServer {
    var resources: map<ObjectRef, DynamicObject>
    var uidCounter: I64
    var resourceVersionCounter: I64
    var stableResources: set<ObjectRef>

    function View(): State
      reads this
    {
      State(resources, uidCounter, resourceVersionCounter, stableResources)
    }

    constructor ()
      ensures View() == EMPTY
    {
      resources, uidCounter, resourceVersionCounter, stableResources := map[], 0, 0, {};
    }

    method HandleGetRequest(key: ObjectRef) returns (ret: Result<DynamicObject>)
      ensures ret == HandleGet(View(), key)
      ensures ret == if key in resources then Ok(resources[key]) else Err(ObjectNotFound)
    {
      if key !in resources {
        return Err(ObjectNotFound);
      } else {
        return Ok(resources[key]);
      }
    }

    method HandleCreateRequest(req: CreateRequest, generatedName: string) returns (ret: Result<DynamicObject>)
      requires resourceVersionCounter < I64_MAX && uidCounter < I64_MAX
      modifies this
      ensures (View(), ret) == HandleCreate(old(View()), req, generatedName)
    {
      var refusal := CreateRequestAdmissionCheck(req, View());
      if refusal.Some? {
        return Err(refusal.value);
      }
      var created := req.obj;
      if req.obj.metadata.name.None? {
        created := created.(metadata := created.metadata.(name := Some(generatedName)));
      }
      created := created.(metadata := created.metadata.(namespace := Some(req.namespace)));
      created := created.WithResourceVersion(resourceVersionCounter);
      created := created.(metadata := created.metadata.(uid := Some(uidCounter)));
      created := created.(metadata := created.metadata.(deletionTimestamp := None));
      created := created.(status := DefaultStatus(created.kind));
      var invalid := CreatedObjectValidity(created);
      if created.Ref() in resources {
        return Err(ObjectAlreadyExists);
      } else if invalid.Some? {
        return Err(invalid.value);
      }
      resources := resources[created.Ref() := created];
      stableResources := stableResources - {created.Ref()};
      uidCounter := uidCounter + 1;
      resourceVersionCounter := resourceVersionCounter + 1;
      return Ok(created);
    }

    method HandleDeleteRequest(key: ObjectRef, now: string) returns (ret: Result<()>)
      requires resourceVersionCounter < I64_MAX
      modifies this
      ensures (View(), ret) == HandleDelete(old(View()), key, now)
    {
      if key !in resources {
        return Err(ObjectNotFound);
      }
      var obj := resources[key];
      if obj.metadata.HasFinalizers() {
        if obj.metadata.deletionTimestamp.Some? {
          return Ok(());
        }
        obj := obj.(metadata := obj.metadata.(deletionTimestamp := Some(now)));
        obj := obj.WithResourceVersion(resourceVersionCounter);
        resources := resources[key := obj];
      } else {
        resources := resources - {key};
      }
      resourceVersionCounter := resourceVersionCounter + 1;
      return Ok(());
    }

    static method CreatedObjectValidity(obj: DynamicObject) returns (ret: Option<APIError>)
      ensures ret == CreatedObjectValidityCheck(obj)
    {
      var invalidMetadata := MetadataValidityCheck(obj);
      if invalidMetadata.Some? {
        return invalidMetadata;
      }
      var valid := ObjectStateValidation(obj);
      return if valid then None else Some(Invalid);
    }

    static method UpdatedObjectValidity(obj: DynamicObject, oldObj: DynamicObject) returns (ret: Option<APIError>)
      requires Unmarshallable(obj) && Unmarshallable(oldObj) && obj.kind == oldObj.kind && ValidObject(oldObj)
      ensures ret == UpdatedObjectValidityCheck(obj, oldObj)
    {
      if MetadataValidityCheck(obj).Some? {
        return MetadataValidityCheck(obj);
      } else if MetadataTransitionValidityCheck(obj, oldObj).Some? {
        return MetadataTransitionValidityCheck(obj, oldObj);
      }
      var valid := ObjectStateValidation(obj);
      if !valid {
        return Some(Invalid);
      }
      var validTransition := ObjectTransitionValidation(obj, oldObj);
      return if validTransition then None else Some(Invalid);
    }

    method HandleUpdateRequest(req: UpdateRequest) returns (ret: Result<DynamicObject>)
      requires resourceVersionCounter < I64_MAX
      requires StoredWell(View(), req.Key())
      modifies this
      ensures (View(), ret) == HandleUpdate(old(View()), req)
    {
      var refusal := UpdateRequestAdmissionCheck(req, View());
      if refusal.Some? {
        return Err(refusal.value);
      }
      var oldObj := resources[req.Key()];
      var updated := req.obj;
      updated := updated.(metadata := updated.metadata.(namespace := Some(req.namespace)));
      updated := updated.(metadata := updated.metadata.(resourceVersion := oldObj.metadata.resourceVersion));
      updated := updated.(metadata := updated.metadata.(uid := oldObj.metadata.uid));
      updated := updated.(metadata := updated.metadata.(deletionTimestamp := oldObj.metadata.deletionTimestamp));
      updated := updated.(status := oldObj.status);
      if updated == oldObj {
        return Ok(oldObj);
      }
      updated := updated.WithResourceVersion(resourceVersionCounter);
      var invalid := UpdatedObjectValidity(updated, oldObj);
      if invalid.Some? {
        return Err(invalid.value);
      }
      if updated.metadata.deletionTimestamp.None? || updated.metadata.HasFinalizers() {
        stableResources := stableResources - {req.Key()};
        resources := resources[req.Key() := updated];
      } else {
        resources := resources - {updated.Ref()};
      }
      resourceVersionCounter := resourceVersionCounter + 1;
      return Ok(updated);
    }

    method HandleUpdateStatusRequest(req: UpdateRequest) returns (ret: Result<DynamicObject>)
      requires resourceVersionCounter < I64_MAX
      requires StoredWell(View(), req.Key())
      modifies this
      ensures (View(), ret) == HandleUpdateStatus(old(View()), req)
    {
      var refusal := UpdateRequestAdmissionCheck(req, View());
      if refusal.Some? {
        return Err(refusal.value);
      }
      var oldObj := resources[req.Key()];
      var updated := req.obj;
      updated := updated.(metadata := oldObj.metadata);
      updated := updated.(spec := oldObj.spec);
      if updated == oldObj {
        return Ok(oldObj);
      }
      updated := updated.WithResourceVersion(resourceVersionCounter);
      var invalid := UpdatedObjectValidity(updated, oldObj);
      if invalid.Some? {
        return Err(invalid.value);
      }
      resources := resources[req.Key() := updated];
      resourceVersionCounter := resourceVersionCounter + 1;
      return Ok(updated);
    }
  }

}
