/** Kubernetes objects as the API server model stores them, and the validation rules of each kind. */
module KubeObjects {
  import opened Options

  datatype Kind =
    | ConfigMapKind
    | DaemonSetKind
    | PersistentVolumeClaimKind
    | PodKind
    | RoleKind
    | RoleBindingKind
    | StatefulSetKind
    | ServiceKind
    | ServiceAccountKind
    | SecretKind
    | CustomResourceKind

  datatype ObjectRef = ObjectRef(kind: Kind, name: string, namespace: string)

  datatype OwnerReference = OwnerReference(controller: Option<bool>, kind: Kind, name: string, uid: int) {
    predicate IsController() {
      controller == Some(true)
    }
  }

  datatype ObjectMeta = ObjectMeta(
    name: Option<string>,
    generateName: Option<string>,
    namespace: Option<string>,
    resourceVersion: Option<int>,
    uid: Option<int>,
    labels: Option<map<string, string>>,
    annotations: Option<map<string, string>>,
    ownerReferences: Option<seq<OwnerReference>>,
    finalizers: Option<seq<string>>,
    deletionTimestamp: Option<string>)
  {
    function FinalizersAsSet(): set<string> {
      match finalizers
      case None => {}
      case Some(fs) => set f | f in fs
    }

    predicate HasFinalizers() {
      finalizers.Some? && |finalizers.value| > 0
    }

    predicate OwnerReferencesContains(owner: OwnerReference) {
      ownerReferences.Some? && owner in ownerReferences.value
    }
  }

  datatype DaemonSetSpec = DaemonSetSpec(selector: string, template: string)

  datatype StatefulSetSpec = StatefulSetSpec(
    selector: string,
    serviceName: string,
    replicas: Option<int>,
    podManagementPolicy: Option<string>,
    volumeClaimTemplates: Option<seq<string>>,
    template: string)

  datatype PolicyRule = PolicyRule(apiGroups: Option<seq<string>>, resources: Option<seq<string>>, verbs: seq<string>) {
    predicate StateValidation() {
      && apiGroups.Some? && |apiGroups.value| > 0
      && resources.Some? && |resources.value| > 0
      && |verbs| > 0
    }
  }

  datatype RoleRef = RoleRef(apiGroup: string, kind: string, name: string)

  /** What an object says beyond its metadata and status; the fields that no rule looks at stay text. */
  datatype Spec =
    | DaemonSet(daemonSet: Option<DaemonSetSpec>)
    | StatefulSet(statefulSet: Option<StatefulSetSpec>)
    | Role(rules: Option<seq<PolicyRule>>)
    | RoleBinding(roleRef: RoleRef, subjects: string)
    | Workload(workload: Option<string>) // Pod, PersistentVolumeClaim, Service
    | Data(data: string)                 // ConfigMap, Secret, ServiceAccount, custom resources

  datatype DynamicObject = DynamicObject(kind: Kind, metadata: ObjectMeta, spec: Spec, status: string) {
    function Ref(): ObjectRef
      requires metadata.name.Some? && metadata.namespace.Some?
    {
      ObjectRef(kind, metadata.name.value, metadata.namespace.value)
    }

    function WithResourceVersion(v: int): DynamicObject {
      this.(metadata := metadata.(resourceVersion := Some(v)))
    }
  }

  /** The spec has the shape its kind calls for. */
  predicate Unmarshallable(obj: DynamicObject) {
    match obj.kind
    case DaemonSetKind => obj.spec.DaemonSet?
    case StatefulSetKind => obj.spec.StatefulSet?
    case RoleKind => obj.spec.Role?
    case RoleBindingKind => obj.spec.RoleBinding?
    case PodKind => obj.spec.Workload?
    case PersistentVolumeClaimKind => obj.spec.Workload?
    case ServiceKind => obj.spec.Workload?
    case ConfigMapKind => obj.spec.Data?
    case SecretKind => obj.spec.Data?
    case ServiceAccountKind => obj.spec.Data?
    case CustomResourceKind => obj.spec.Data?
  }

  function DefaultStatus(kind: Kind): string {
    ""
  }

  // ----- state validation -----

  const RBAC := "rbac.authorization.k8s.io"

  predicate ValidObject(obj: DynamicObject) {
    match obj.spec
    case DaemonSet(spec) => spec.Some?
    case StatefulSet(spec) => spec.Some? && (spec.value.replicas.Some? ==> spec.value.replicas.value >= 0)
    case Role(rules) => rules.Some? ==> forall i :: 0 <= i < |rules.value| ==> rules.value[i].StateValidation()
    case RoleBinding(roleRef, _) =>
      roleRef.apiGroup == RBAC && (roleRef.kind == "Role" || roleRef.kind == "ClusterRole")
    case Workload(spec) => spec.Some?
    case Data(_) => true
  }

  /** The rule names a group, a resource and a verb. */
  predicate NamesAll(rule: PolicyRule) {
    rule.apiGroups !in {None, Some([])} && rule.resources !in {None, Some([])} && rule.verbs != []
  }

  method RoleStateValidation(rules: Option<seq<PolicyRule>>) returns (allValid: bool)
    ensures allValid <==> (rules.Some? ==> forall i :: 0 <= i < |rules.value| ==> rules.value[i].StateValidation())
  {
    if rules.None? {
      return true;
    }
    allValid := true;
    for i := 0 to |rules.value|
      invariant allValid <==> forall j :: 0 <= j < i ==> rules.value[j].StateValidation()
    {
      allValid := allValid && rules.value[i].StateValidation();
    }
  }

  // ----- transition validation -----

  /** What an update of an object may never change. */
  datatype ImmutablePart =
    | NothingImmutable
    | DaemonSetPart(selector: string)
    | StatefulSetPart(selector: string, serviceName: string, podManagementPolicy: Option<string>,
                      volumeClaimTemplates: Option<seq<string>>)
    | RoleBindingPart(roleRef: RoleRef)

  function Immutable(obj: DynamicObject): ImmutablePart {
    match obj.spec
    case DaemonSet(Some(spec)) => DaemonSetPart(spec.selector)
    case StatefulSet(Some(spec)) =>
      StatefulSetPart(spec.selector, spec.serviceName, spec.podManagementPolicy, spec.volumeClaimTemplates)
    case RoleBinding(roleRef, _) => RoleBindingPart(roleRef)
    case _ => NothingImmutable
  }

  /** Field by field, with the claim templates compared one at a time. */
  method StatefulSetTransitionValidation(spec: StatefulSetSpec, prior: StatefulSetSpec) returns (ret: bool)
    ensures ret <==> (&& spec.selector == prior.selector
                      && spec.serviceName == prior.serviceName
                      && spec.podManagementPolicy == prior.podManagementPolicy
                      && spec.volumeClaimTemplates == prior.volumeClaimTemplates)
  {
    ret := && spec.selector == prior.selector
           && spec.serviceName == prior.serviceName
           && spec.podManagementPolicy.None? == prior.podManagementPolicy.None?
           && (spec.podManagementPolicy.Some? ==> spec.podManagementPolicy.value == prior.podManagementPolicy.value)
           && spec.volumeClaimTemplates.None? == prior.volumeClaimTemplates.None?;
    if ret && spec.volumeClaimTemplates.Some? {
      var templates, was := spec.volumeClaimTemplates.value, prior.volumeClaimTemplates.value;
      if |templates| != |was| {
        return false;
      }
      var allEqual := true;
      for i := 0 to |templates|
        invariant allEqual <==> forall j :: 0 <= j < i ==> templates[j] == was[j]
      {
        allEqual := allEqual && templates[i] == was[i];
      }
      assert allEqual <==> templates == was;
      return allEqual;
    }
  }

  method ObjectStateValidation(obj: DynamicObject) returns (ret: bool)
    ensures ret == ValidObject(obj)
  {
    match obj.spec
    case Role(rules) => ret := RoleStateValidation(rules);
    case DaemonSet(spec) => ret := spec.Some?;
    case StatefulSet(spec) => ret := spec.Some? && (spec.value.replicas.Some? ==> spec.value.replicas.value >= 0);
    case RoleBinding(roleRef, _) => ret := roleRef.apiGroup == RBAC && roleRef.kind in ["Role", "ClusterRole"];
    case Workload(spec) => ret := spec.Some?;
    case Data(_) => ret := true;
  }

  /** An update is a valid transition exactly if it leaves the immutable part alone. */
  method ObjectTransitionValidation(obj: DynamicObject, oldObj: DynamicObject) returns (ret: bool)
    requires Unmarshallable(obj) && Unmarshallable(oldObj) && obj.kind == oldObj.kind
    requires ValidObject(obj) && ValidObject(oldObj)
    ensures ret <==> Immutable(obj) == Immutable(oldObj)
  {
    match obj.spec
    case DaemonSet(spec) => ret := spec.value.selector == oldObj.spec.daemonSet.value.selector;
    case StatefulSet(spec) => ret := StatefulSetTransitionValidation(spec.value, oldObj.spec.statefulSet.value);
    case RoleBinding(roleRef, _) => ret := roleRef == oldObj.spec.roleRef;
    case _ => ret := true;
  }

  /** What each kind asks of an object. */
  lemma ValidObjectsByKind(obj: DynamicObject)
    requires Unmarshallable(obj)
    ensures obj.kind == DaemonSetKind ==> (ValidObject(obj) <==> obj.spec.daemonSet != None)
    ensures obj.kind == StatefulSetKind ==>
              (ValidObject(obj) <==> obj.spec.statefulSet != None
                                     && (obj.spec.statefulSet.value.replicas != None ==>
                                           0 <= obj.spec.statefulSet.value.replicas.value))
    ensures obj.kind == RoleKind ==>
              (ValidObject(obj) <==> (obj.spec.rules != None ==> forall r :: r in obj.spec.rules.value ==> NamesAll(r)))
    ensures obj.kind == RoleBindingKind ==>
              (ValidObject(obj) <==> obj.spec.roleRef.apiGroup == "rbac.authorization.k8s.io"
                                     && obj.spec.roleRef.kind in ["Role", "ClusterRole"])
    ensures obj.kind in {PodKind, PersistentVolumeClaimKind, ServiceKind} ==>
              (ValidObject(obj) <==> obj.spec.workload != None)
    ensures obj.kind in {ConfigMapKind, SecretKind, ServiceAccountKind, CustomResourceKind} ==> ValidObject(obj)
  {
    if obj.spec.Role? && obj.spec.rules.Some? {
      var rules := obj.spec.rules.value;
      assert forall i :: 0 <= i < |rules| ==> (rules[i].StateValidation() <==> NamesAll(rules[i]));
    }
  }

  /** What each kind does not let an update change. */
  lemma ImmutableByKind(obj: DynamicObject, was: DynamicObject)
    requires obj.kind == was.kind && Unmarshallable(obj) && Unmarshallable(was) && ValidObject(obj) && ValidObject(was)
    ensures Immutable(obj) == Immutable(was) <==>
            && (obj.kind == DaemonSetKind ==>
                  obj.spec.daemonSet.value.selector == was.spec.daemonSet.value.selector)
            && (obj.kind == StatefulSetKind ==>
                  var s, t := obj.spec.statefulSet.value, was.spec.statefulSet.value;
                  s == t.(replicas := s.replicas, template := s.template))
            && (obj.kind == RoleBindingKind ==> obj.spec.roleRef == was.spec.roleRef)
  {
  }

  // ----- owners -----

  function FilterControllers(owners: seq<OwnerReference>): seq<OwnerReference> {
    if |owners| == 0 then []
    else (if owners[0].IsController() then [owners[0]] else []) + FilterControllers(owners[1..])
  }

  /** No two of an object's owners are controllers. */
  predicate AtMostOneController(m: ObjectMeta) {
    m.ownerReferences.Some? ==> |FilterControllers(m.ownerReferences.value)| <= 1
  }

  lemma {:induction false} FilteringShortens(owners: seq<OwnerReference>)
    ensures |FilterControllers(owners)| <= |owners|
  {
    if |owners| > 0 {
      FilteringShortens(owners[1..]);
    }
  }

  lemma {:induction false} EveryControllerIsCounted(owners: seq<OwnerReference>, i: nat)
    requires i < |owners| && owners[i].IsController()
    ensures |FilterControllers(owners)| >= 1
  {
    if i > 0 {
      EveryControllerIsCounted(owners[1..], i - 1);
    }
  }

  /** Counting controllers, as the server does, is the same as asking that no two owners are controllers. */
  lemma {:induction false} CountedControllersAreDistinct(owners: seq<OwnerReference>)
    ensures |FilterControllers(owners)| <= 1 <==>
            forall i, j :: 0 <= i < j < |owners| ==> !(owners[i].IsController() && owners[j].IsController())
  {
    if |owners| > 0 {
      var rest := owners[1..];
      CountedControllersAreDistinct(rest);
      assert forall i :: 0 <= i < |rest| ==> rest[i] == owners[i + 1];
      if |FilterControllers(owners)| <= 1 {
        forall i, j | 0 <= i < j < |owners|
          ensures !(owners[i].IsController() && owners[j].IsController())
        {
          if i == 0 && owners[0].IsController() && owners[j].IsController() {
            EveryControllerIsCounted(rest, j - 1);
            assert false;
          } else if i > 0 {
            assert owners[i] == rest[i - 1] && owners[j] == rest[j - 1];
          }
        }
      } else if owners[0].IsController() && FilterControllers(rest) != [] {
        var j := SomeController(rest);
        assert owners[0].IsController() && owners[j + 1].IsController();
      } else {
        var i, j :| 0 <= i < j < |rest| && rest[i].IsController() && rest[j].IsController();
        assert owners[i + 1].IsController() && owners[j + 1].IsController();
      }
    }
  }

  lemma {:induction false} SomeController(owners: seq<OwnerReference>) returns (j: nat)
    requires FilterControllers(owners) != []
    ensures j < |owners| && owners[j].IsController()
  {
    if owners[0].IsController() {
      j := 0;
    } else {
      j := SomeController(owners[1..]);
      j := j + 1;
    }
  }

}
