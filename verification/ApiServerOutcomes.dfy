/**
 What each request does to what is stored and how it is answered, in terms of the request and the stored object alone:
 which error comes first, every field of what is written, and that nothing else changes.
 */
module ApiServerOutcomes {
  import opened Options
  import opened KubeObjects
  import opened ApiServers
  import opened ApiServerRuns

  /** Under `key` there is now `obj`, or nothing; all other objects are as they were. */
  ghost predicate Holds(s: State, s': State, key: ObjectRef, obj: Option<DynamicObject>) {
    && (if obj.Some? then key in s'.resources && s'.resources[key] == obj.value else key !in s'.resources)
    && (forall k :: k != key ==> (k in s'.resources <==> k in s.resources))
    && (forall k :: k != key && k in s.resources && k in s'.resources ==> s'.resources[k] == s.resources[k])
  }

  /** One more version is used up, and as many uids; these objects are no longer known to be stable. */
  predicate Counts(s: State, s': State, uids: int, unstable: set<ObjectRef>) {
    && s'.resourceVersionCounter == s.resourceVersionCounter + 1 && s'.uidCounter == s.uidCounter + uids
    && s'.stableResources == s.stableResources - unstable
  }

  predicate NoFinalizers(m: ObjectMeta) {
    m.finalizers == None || m.finalizers == Some([])
  }

  // ----- delete -----

  ghost predicate Deletes(s: State, key: ObjectRef, now: string, s': State, answer: Result<()>) {
    if key !in s.resources then s' == s && answer == Err(ObjectNotFound)
    else
      var obj := s.resources[key];
      && answer == Ok(())
      && if NoFinalizers(obj.metadata) then Holds(s, s', key, None) && Counts(s, s', 0, {})
         else if obj.metadata.deletionTimestamp.Some? then s' == s
         else
           && Counts(s, s', 0, {})
           && Holds(s, s', key, Some(obj.(metadata := obj.metadata.(
                deletionTimestamp := Some(now), resourceVersion := Some(s.resourceVersionCounter)))))
  }

  /** A delete removes what nothing holds back, stamps what is held back, and fails exactly if there is nothing. */
  lemma DeleteDoes(s: State, key: ObjectRef, now: string)
    ensures Deletes(s, key, now, HandleDelete(s, key, now).0, HandleDelete(s, key, now).1)
  {
  }

  // ----- create -----

  /** The first thing wrong with a creation under `name`. */
  function CreateError(s: State, req: CreateRequest, name: string): Option<APIError> {
    var m := req.obj.metadata;
    if m.name.None? && m.generateName.None? then Some(Invalid)
    else if (m.namespace.Some? && m.namespace.value != req.namespace) || !Unmarshallable(req.obj) then Some(BadRequest)
    else if ObjectRef(req.obj.kind, name, req.namespace) in s.resources then Some(ObjectAlreadyExists)
    else if !AtMostOneController(m) || !ValidObject(req.obj) then Some(Invalid)
    else None
  }

  ghost predicate Creates(s: State, req: CreateRequest, generatedName: string, s': State, answer: Result<DynamicObject>)
  {
    var m := req.obj.metadata;
    var name := if m.name.Some? then m.name.value else generatedName;
    var obj := DynamicObject(
      req.obj.kind,
      ObjectMeta(Some(name), m.generateName, Some(req.namespace), Some(s.resourceVersionCounter), Some(s.uidCounter),
                 m.labels, m.annotations, m.ownerReferences, m.finalizers, None),
      req.obj.spec,
      "");
    match CreateError(s, req, name)
    case Some(e) => s' == s && answer == Err(e)
    case None =>
      && answer == Ok(obj)
      && var key := ObjectRef(req.obj.kind, name, req.namespace);
         Holds(s, s', key, Some(obj)) && Counts(s, s', 1, {key})
  }

  /** A creation stores what is asked, under the given or the generated name, new numbers and no stamp. */
  lemma CreateDoes(s: State, req: CreateRequest, generatedName: string)
    ensures Creates(s, req, generatedName, HandleCreate(s, req, generatedName).0,
                    HandleCreate(s, req, generatedName).1)
  {
    var obj := CreatedObject(req, s, generatedName);
    ControllersAreCounted(obj);
    ShapeIsAboutSpec(req.obj, obj);
    hide Unmarshallable, ValidObject, FilterControllers, MetadataValidityCheck;
  }

  // ----- update -----

  /** The first reason not to admit an update, whatever it asks for. */
  function UpdateError(s: State, req: UpdateRequest): Option<APIError> {
    var m, key := req.obj.metadata, ObjectRef(req.obj.kind, req.name, req.namespace);
    if m.name != Some(req.name) || (m.namespace.Some? && m.namespace.value != req.namespace) || !Unmarshallable(req.obj)
    then Some(BadRequest)
    else if key !in s.resources then Some(ObjectNotFound)
    else if m.resourceVersion.None? && req.obj.kind == CustomResourceKind then Some(Invalid)
    else if m.resourceVersion.Some? && m.resourceVersion != s.resources[key].metadata.resourceVersion then
      Some(Conflict)
    else if m.uid.Some? && m.uid != s.resources[key].metadata.uid then Some(InternalError)
    else None
  }

  /** The first rule an admitted update breaks. */
  function RuleBroken(req: UpdateRequest, was: DynamicObject): Option<APIError> {
    var m := req.obj.metadata;
    if !AtMostOneController(m) then Some(Invalid)
    else if was.metadata.deletionTimestamp.Some? && !(m.FinalizersAsSet() <= was.metadata.FinalizersAsSet()) then
      Some(Forbidden)
    else if !ValidObject(req.obj) || Immutable(req.obj) != Immutable(was) then Some(Invalid)
    else None
  }

  /** The requested object, with the number, stamp and status of the stored one. */
  function Asked(req: UpdateRequest, was: DynamicObject, version: Option<int>): DynamicObject {
    var m := req.obj.metadata;
    DynamicObject(
      req.obj.kind,
      ObjectMeta(m.name, m.generateName, Some(req.namespace), version, was.metadata.uid, m.labels, m.annotations,
                 m.ownerReferences, m.finalizers, was.metadata.deletionTimestamp),
      req.obj.spec,
      was.status)
  }

  ghost predicate Updates(s: State, req: UpdateRequest, s': State, answer: Result<DynamicObject>) {
    var key := ObjectRef(req.obj.kind, req.name, req.namespace);
    match UpdateError(s, req)
    case Some(e) => s' == s && answer == Err(e)
    case None =>
      key in s.resources &&
      var was := s.resources[key];
      if Asked(req, was, was.metadata.resourceVersion) == was then s' == s && answer == Ok(was)
      else
        match RuleBroken(req, was)
        case Some(e) => s' == s && answer == Err(e)
        case None =>
          var obj := Asked(req, was, Some(s.resourceVersionCounter));
          var gone := was.metadata.deletionTimestamp.Some? && NoFinalizers(req.obj.metadata);
          && answer == Ok(obj)
          && Holds(s, s', key, if gone then None else Some(obj)) && Counts(s, s', 0, if gone then {} else {key})
  }

  /** An update stores every field asked for that is the client's to choose, and fails for the first reason there is. */
  lemma UpdateDoes(s: State, req: UpdateRequest)
    ensures Updates(s, req, HandleUpdate(s, req).0, HandleUpdate(s, req).1)
  {
    var key := ObjectRef(req.obj.kind, req.name, req.namespace);
    if key in s.resources {
      var was := s.resources[key];
      var obj := UpdatedObject(req, was).WithResourceVersion(s.resourceVersionCounter);
      ControllersAreCounted(obj);
      ShapeIsAboutSpec(req.obj, obj);
      assert obj == Asked(req, was, Some(s.resourceVersionCounter)) || req.obj.metadata.name != Some(req.name);
    }
    hide Unmarshallable, ValidObject, FilterControllers, MetadataValidityCheck, Immutable;
  }

  ghost predicate UpdatesStatus(s: State, req: UpdateRequest, s': State, answer: Result<DynamicObject>) {
    var key := ObjectRef(req.obj.kind, req.name, req.namespace);
    match UpdateError(s, req)
    case Some(e) => s' == s && answer == Err(e)
    case None =>
      key in s.resources &&
      var was := s.resources[key];
      if req.obj.status == was.status then s' == s && answer == Ok(was)
      else
        var obj := was.(status := req.obj.status,
                        metadata := was.metadata.(resourceVersion := Some(s.resourceVersionCounter)));
        answer == Ok(obj) && Holds(s, s', key, Some(obj)) && Counts(s, s', 0, {})
  }

  /** A status update that is admitted is carried out: it changes the status and the version, and nothing else. */
  lemma UpdateStatusDoes(s: State, req: UpdateRequest)
    requires Inv(s)
    ensures UpdatesStatus(s, req, HandleUpdateStatus(s, req).0, HandleUpdateStatus(s, req).1)
  {
    var key := ObjectRef(req.obj.kind, req.name, req.namespace);
    if key in s.resources {
      assert WellStored(s, key);
      var was := s.resources[key];
      var obj := StatusUpdatedObject(req, was).WithResourceVersion(s.resourceVersionCounter);
      ControllersAreCounted(obj);
      ShapeIsAboutSpec(was, obj);
    }
    hide Inv, Unmarshallable, ValidObject, FilterControllers, MetadataValidityCheck, Immutable;
  }

}
