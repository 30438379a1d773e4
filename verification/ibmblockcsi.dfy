/** The `IBMBlockCSI` custom-resource wrapper: the labels and annotations put
    on every resource the operator creates, the pod labels of the controller
    and node components, the container image strings, sidecar lookup, and the
    per-platform default-image tables. */
module IbmBlockCsi {
  import opened Wrappers
  import opened Labels
  import opened Config

  /** An image given as repository and tag (`spec.controller`, `spec.node`). */
  datatype ImageSpec = ImageSpec(repository: string, tag: string)

  /** One entry of `spec.sidecars`. */
  datatype Sidecar = Sidecar(name: string, repository: string, tag: string, imagePullPolicy: string)

  datatype Spec = Spec(controller: ImageSpec, node: ImageSpec, sidecars: seq<Sidecar>)

  /** The custom resource together with the server version it was read
      against. A nil label or annotation map is the empty map here. */
  datatype IBMBlockCSI = IBMBlockCSI(
    name: string,
    labels: LabelSet,
    annotations: LabelSet,
    spec: Spec,
    serverVersion: string)

  const NameKey := "app.kubernetes.io/name"
  const InstanceKey := "app.kubernetes.io/instance"
  const VersionKey := "app.kubernetes.io/version"
  const ManagedByKey := "app.kubernetes.io/managed-by"
  const CsiKey := "csi"
  const ProductKey := "product"
  const ComponentKey := "app.kubernetes.io/component"

  const ProductIDKey := "productID"
  const ProductNameKey := "productName"
  const ProductVersionKey := "productVersion"

  /** `corev1.PullIfNotPresent`. */
  const PullIfNotPresent := "IfNotPresent"

  // ---------------------------------------------------------------------
  // Labels and annotations
  // ---------------------------------------------------------------------

  /** The six labels the operator always sets. */
  function DefaultLabels(k: Constants, c: IBMBlockCSI): LabelSet {
    map[NameKey := k.productName,
        InstanceKey := c.name,
        VersionKey := k.version,
        ManagedByKey := k.operatorName,
        CsiKey := "ibm",
        ProductKey := k.productName]
  }

  /** Labels set on every resource: the defaults, plus every user label whose
      key is not a default key. The defaults win on a shared key. */
  function GetLabels(k: Constants, c: IBMBlockCSI): (r: LabelSet)
    ensures r.Keys == {NameKey, InstanceKey, VersionKey, ManagedByKey, CsiKey, ProductKey} + c.labels.Keys
    ensures NameKey in r && r[NameKey] == k.productName
    ensures InstanceKey in r && r[InstanceKey] == c.name
    ensures VersionKey in r && r[VersionKey] == k.version
    ensures ManagedByKey in r && r[ManagedByKey] == k.operatorName
    ensures CsiKey in r && r[CsiKey] == "ibm"
    ensures ProductKey in r && r[ProductKey] == k.productName
    ensures forall key :: key in c.labels && key !in DefaultLabels(k, c) ==> r[key] == c.labels[key]
    ensures c.labels == map[] ==> r == DefaultLabels(k, c)
  {
    var defaults := DefaultLabels(k, c);
    assert defaults.Keys == {NameKey, InstanceKey, VersionKey, ManagedByKey, CsiKey, ProductKey};
    AddMissing(defaults, c.labels)
  }

  /** The three annotations the operator always sets. */
  function DefaultAnnotations(k: Constants): LabelSet {
    map[ProductIDKey := k.productName,
        ProductNameKey := k.productName,
        ProductVersionKey := k.version]
  }

  /** Annotations set on every resource, merged like `GetLabels`. */
  function GetAnnotations(k: Constants, c: IBMBlockCSI): (r: LabelSet)
    ensures r.Keys == {ProductIDKey, ProductNameKey, ProductVersionKey} + c.annotations.Keys
    ensures ProductIDKey in r && r[ProductIDKey] == k.productName
    ensures ProductNameKey in r && r[ProductNameKey] == k.productName
    ensures ProductVersionKey in r && r[ProductVersionKey] == k.version
    ensures forall key :: key in c.annotations && key !in DefaultAnnotations(k) ==> r[key] == c.annotations[key]
    ensures c.annotations == map[] ==> r == DefaultAnnotations(k)
  {
    var defaults := DefaultAnnotations(k);
    assert defaults.Keys == {ProductIDKey, ProductNameKey, ProductVersionKey};
    AddMissing(defaults, c.annotations)
  }

  /** Labels used in label selectors for one component: the component key
      alone. */
  function GetSelectorLabels(component: string): (r: LabelSet)
    ensures r.Keys == {ComponentKey} && r[ComponentKey] == component
  {
    map[ComponentKey := component]
  }

  function GetCSIControllerSelectorLabels(k: Constants): (r: LabelSet)
    ensures r.Keys == {ComponentKey} && r[ComponentKey] == k.csiController
  {
    GetSelectorLabels(k.csiController)
  }

  function GetCSINodeSelectorLabels(k: Constants): (r: LabelSet)
    ensures r.Keys == {ComponentKey} && r[ComponentKey] == k.csiNode
  {
    GetSelectorLabels(k.csiNode)
  }

  /** Pod labels of a component: the resource labels with the component
      selector merged over them, so the selector wins on its key. */
  function PodLabels(k: Constants, c: IBMBlockCSI, component: string): (r: LabelSet)
    ensures r.Keys == GetLabels(k, c).Keys + {ComponentKey}
    ensures ComponentKey in r && r[ComponentKey] == component
    ensures forall key :: key in r && key != ComponentKey ==> r[key] == GetLabels(k, c)[key]
  {
    var labels := GetLabels(k, c);
    var selector := GetSelectorLabels(component);
    assert selector.Keys == {ComponentKey} && selector[ComponentKey] == component;
    Merge(labels, selector)
  }

  /** Controller pod labels: the resource labels with the component key set
      to the controller component. */
  function GetCSIControllerPodLabels(k: Constants, c: IBMBlockCSI): (r: LabelSet)
    ensures r == PodLabels(k, c, k.csiController)
    ensures ComponentKey in r && r[ComponentKey] == k.csiController
  {
    Merge(GetLabels(k, c), GetCSIControllerSelectorLabels(k))
  }

  /** Node pod labels: the resource labels with the component key set to the
      node component. */
  function GetCSINodePodLabels(k: Constants, c: IBMBlockCSI): (r: LabelSet)
    ensures r == PodLabels(k, c, k.csiNode)
    ensures ComponentKey in r && r[ComponentKey] == k.csiNode
  {
    Merge(GetLabels(k, c), GetCSINodeSelectorLabels(k))
  }

  /** Controller and node pods carry the same labels except for the
      component key, which names their own component; a user label with that
      key is overridden, and so the two label sets always differ. */
  lemma ControllerAndNodePodLabels(k: Constants, c: IBMBlockCSI)
    requires Distinct(k)
    ensures GetCSIControllerPodLabels(k, c).Keys == GetCSINodePodLabels(k, c).Keys
    ensures forall key :: key in GetCSIControllerPodLabels(k, c) && key != ComponentKey ==>
              GetCSIControllerPodLabels(k, c)[key] == GetCSINodePodLabels(k, c)[key]
    ensures GetCSIControllerPodLabels(k, c) != GetCSINodePodLabels(k, c)
  {
    var ctl := GetCSIControllerPodLabels(k, c);
    var node := GetCSINodePodLabels(k, c);
    assert ctl[ComponentKey] != node[ComponentKey];
  }

  // ---------------------------------------------------------------------
  // Images
  // ---------------------------------------------------------------------

  /** An image reference: the repository alone when the tag is empty,
      otherwise `repository:tag`. */
  function ImageRef(s: ImageSpec): (r: string)
    ensures |s.repository| <= |r| && r[..|s.repository|] == s.repository
    ensures r == s.repository <==> s.tag == ""
    ensures s.tag != "" ==>
              |r| == |s.repository| + 1 + |s.tag| && r[|s.repository|] == ':' && r[|s.repository| + 1..] == s.tag
  {
    if s.tag == "" then s.repository else s.repository + ":" + s.tag
  }

  /** Recovers the tag from an image reference given its repository: what
      follows the repository and a `:` separator, `""` when there is no such
      separator. The inverse of `ImageRef` for a fixed repository. */
  function TagOf(image: string, repository: string): string {
    if |image| > |repository| + 1 && image[|repository|] == ':' then image[|repository| + 1..] else ""
  }

  lemma ImageRefRoundTrip(s: ImageSpec)
    ensures TagOf(ImageRef(s), s.repository) == s.tag
  {
    if s.tag != "" {
      var r := ImageRef(s);
      assert r == s.repository + ":" + s.tag;
      assert r[|s.repository| + 1..] == s.tag;
    }
  }

  /** For one repository, different tags always give different images. */
  lemma ImageRefInjective(repository: string, tag1: string, tag2: string)
    requires ImageRef(ImageSpec(repository, tag1)) == ImageRef(ImageSpec(repository, tag2))
    ensures tag1 == tag2
  {
    ImageRefRoundTrip(ImageSpec(repository, tag1));
    ImageRefRoundTrip(ImageSpec(repository, tag2));
  }

  function GetCSIControllerImage(c: IBMBlockCSI): (r: string)
    ensures r == c.spec.controller.repository <==> c.spec.controller.tag == ""
    ensures TagOf(r, c.spec.controller.repository) == c.spec.controller.tag
    ensures |c.spec.controller.repository| <= |r| && r[..|c.spec.controller.repository|] == c.spec.controller.repository
  {
    ImageRefRoundTrip(c.spec.controller);
    ImageRef(c.spec.controller)
  }

  function GetCSINodeImage(c: IBMBlockCSI): (r: string)
    ensures r == c.spec.node.repository <==> c.spec.node.tag == ""
    ensures TagOf(r, c.spec.node.repository) == c.spec.node.tag
    ensures |c.spec.node.repository| <= |r| && r[..|c.spec.node.repository|] == c.spec.node.repository
  {
    ImageRefRoundTrip(c.spec.node);
    ImageRef(c.spec.node)
  }

  /** A sidecar image is always `repository:tag`, even with an empty tag. */
  function SidecarImage(s: Sidecar): string {
    s.repository + ":" + s.tag
  }

  /** The controller/node image format and the sidecar format agree exactly
      when the tag is non-empty. */
  lemma ImageFormatsAgreeIffTagged(repository: string, tag: string)
    ensures ImageRef(ImageSpec(repository, tag)) == SidecarImage(Sidecar("", repository, tag, "")) <==> tag != ""
  {
    if tag == "" {
      assert |SidecarImage(Sidecar("", repository, tag, ""))| == |repository| + 1;
    }
  }

  // ---------------------------------------------------------------------
  // Sidecars
  // ---------------------------------------------------------------------

  /** `i` is the position of the first sidecar called `name`. */
  ghost predicate FirstNamed(sidecars: seq<Sidecar>, name: string, i: int) {
    && 0 <= i < |sidecars|
    && sidecars[i].name == name
    && forall j :: 0 <= j < i ==> sidecars[j].name != name
  }

  lemma FirstNamedUnique(sidecars: seq<Sidecar>, name: string, i: int, j: int)
    requires FirstNamed(sidecars, name, i) && FirstNamed(sidecars, name, j)
    ensures i == j
  {
  }

  /** The position of the first sidecar called `name`, scanning in list order. */
  function SidecarIndex(sidecars: seq<Sidecar>, name: string): (r: Option<nat>)
    ensures r.None? <==> forall i :: 0 <= i < |sidecars| ==> sidecars[i].name != name
    ensures r.Some? ==> FirstNamed(sidecars, name, r.value)
    decreases |sidecars|
  {
    if |sidecars| == 0 then None
    else if sidecars[0].name == name then Some(0)
    else match SidecarIndex(sidecars[1..], name)
      case None => None
      case Some(i) => Some(i + 1)
  }

  /** The first sidecar in `spec.sidecars` called `name`, or none. */
  function GetSidecarByName(c: IBMBlockCSI, name: string): (r: Option<Sidecar>)
    ensures r.None? <==> forall i :: 0 <= i < |c.spec.sidecars| ==> c.spec.sidecars[i].name != name
    ensures r.Some? ==> exists i :: FirstNamed(c.spec.sidecars, name, i) && r.value == c.spec.sidecars[i]
  {
    match SidecarIndex(c.spec.sidecars, name)
    case None => None
    case Some(i) => Some(c.spec.sidecars[i])
  }

  /** The pull policy of the named sidecar when it exists and sets one,
      otherwise `IfNotPresent`; never the empty string. */
  function GetSidecarPullPolicyByName(c: IBMBlockCSI, name: string): (r: string)
    ensures r != ""
    ensures (forall i :: 0 <= i < |c.spec.sidecars| ==> c.spec.sidecars[i].name != name) ==> r == PullIfNotPresent
    ensures forall i :: FirstNamed(c.spec.sidecars, name, i) ==>
              r == (if c.spec.sidecars[i].imagePullPolicy != "" then c.spec.sidecars[i].imagePullPolicy else PullIfNotPresent)
  {
    var sidecar := GetSidecarByName(c, name);
    if sidecar.Some? && sidecar.value.imagePullPolicy != "" then sidecar.value.imagePullPolicy
    else PullIfNotPresent
  }

  /** The image of the named sidecar, `""` when no sidecar has that name. */
  function GetSidecarImageByName(c: IBMBlockCSI, name: string): (r: string)
    ensures r == "" <==> forall i :: 0 <= i < |c.spec.sidecars| ==> c.spec.sidecars[i].name != name
    ensures forall i :: FirstNamed(c.spec.sidecars, name, i) ==>
              r == c.spec.sidecars[i].repository + ":" + c.spec.sidecars[i].tag
  {
    var sidecar := GetSidecarByName(c, name);
    if sidecar.Some? then SidecarImage(sidecar.value) else ""
  }

  /** The sidecars the operator deploys, each of which has an entry in both
      default-image tables. */
  function GetSidecarNames(k: Constants): (r: seq<string>)
    ensures |r| == 4
    ensures forall i :: 0 <= i < |r| ==> r[i] in ImageNames(k)
    ensures forall i :: Distinct(k) && 0 <= i < |r| ==> r[i] != k.controllerImage && r[i] != k.nodeImage
    ensures forall i, j :: Distinct(k) && 0 <= i < j < |r| ==> r[i] != r[j]
  {
    [k.csiAttacher, k.csiProvisioner, k.csiNodeDriverRegistrar, k.livenessProbe]
  }

  // ---------------------------------------------------------------------
  // Default images
  // ---------------------------------------------------------------------

  /** The default-image lookup for one platform; `""` for any other
      platform, and `""` for an unknown image name. */
  function GetDefaultImageByPlatformAndName(k: Constants, platform: string, name: string): (r: string)
    ensures platform != k.openShift && platform != k.kubernetes ==> r == ""
    ensures name !in ImageNames(k) ==> r == ""
    ensures platform == k.openShift ==> r == GetOpenShiftDefaultImageByName(k, name)
    ensures platform == k.kubernetes && platform != k.openShift ==> r == GetKubernetesDefaultImageByName(k, name)
  {
    if platform == k.openShift then GetOpenShiftDefaultImageByName(k, name)
    else if platform == k.kubernetes then GetKubernetesDefaultImageByName(k, name)
    else ""
  }

  function GetKubernetesDefaultImageByName(k: Constants, name: string): (r: string)
    ensures name !in ImageNames(k) ==> r == ""
  {
    if name == k.controllerImage then k.controllerRepository + ":" + k.controllerTag
    else if name == k.nodeImage then k.nodeRepository + ":" + k.nodeTag
    else if name == k.csiProvisioner then k.csiProvisionerImage
    else if name == k.csiAttacher then k.csiAttacherImage
    else if name == k.csiNodeDriverRegistrar then k.nodeDriverRegistrarImage
    else if name == k.livenessProbe then k.csiLivenessProbeImage
    else ""
  }

  function GetOpenShiftDefaultImageByName(k: Constants, name: string): (r: string)
    ensures name !in ImageNames(k) ==> r == ""
  {
    if name == k.controllerImage then k.openShiftControllerRepository + ":" + k.controllerTag
    else if name == k.nodeImage then k.openShiftNodeRepository + ":" + k.nodeTag
    else if name == k.csiProvisioner then k.openShiftCSIProvisionerImage
    else if name == k.csiAttacher then k.openShiftCSIAttacherImage
    else if name == k.csiNodeDriverRegistrar then k.openShiftNodeDriverRegistrarImage
    else if name == k.livenessProbe then k.openShiftCSILivenessProbeImage
    else ""
  }

  /** The Kubernetes defaults as a table, independent of the `switch`. */
  function KubernetesTable(k: Constants): map<string, string> {
    map[k.controllerImage := k.controllerRepository + ":" + k.controllerTag,
        k.nodeImage := k.nodeRepository + ":" + k.nodeTag,
        k.csiProvisioner := k.csiProvisionerImage,
        k.csiAttacher := k.csiAttacherImage,
        k.csiNodeDriverRegistrar := k.nodeDriverRegistrarImage,
        k.livenessProbe := k.csiLivenessProbeImage]
  }

  /** The OpenShift defaults as a table: the OpenShift repositories with the
      shared controller and node tags. */
  function OpenShiftTable(k: Constants): map<string, string> {
    map[k.controllerImage := k.openShiftControllerRepository + ":" + k.controllerTag,
        k.nodeImage := k.openShiftNodeRepository + ":" + k.nodeTag,
        k.csiProvisioner := k.openShiftCSIProvisionerImage,
        k.csiAttacher := k.openShiftCSIAttacherImage,
        k.csiNodeDriverRegistrar := k.openShiftNodeDriverRegistrarImage,
        k.livenessProbe := k.openShiftCSILivenessProbeImage]
  }

  /** With distinct case labels, the Kubernetes `switch` is exactly a lookup
      in its table, with `""` for names the table does not hold. */
  lemma KubernetesDefaultImageTable(k: Constants, name: string)
    requires Distinct(k)
    ensures KubernetesTable(k).Keys == ImageNames(k)
    ensures GetKubernetesDefaultImageByName(k, name) ==
              (if name in KubernetesTable(k) then KubernetesTable(k)[name] else "")
  {
    var t := KubernetesTable(k);
    if name == k.controllerImage {
      assert t[name] == k.controllerRepository + ":" + k.controllerTag;
    } else if name == k.nodeImage {
      assert t[name] == k.nodeRepository + ":" + k.nodeTag;
    } else if name == k.csiProvisioner {
      assert t[name] == k.csiProvisionerImage;
    } else if name == k.csiAttacher {
      assert t[name] == k.csiAttacherImage;
    } else if name == k.csiNodeDriverRegistrar {
      assert t[name] == k.nodeDriverRegistrarImage;
    } else if name == k.livenessProbe {
      assert t[name] == k.csiLivenessProbeImage;
    } else {
      assert name !in t;
    }
  }

  /** The same for the OpenShift `switch` and its table. */
  lemma OpenShiftDefaultImageTable(k: Constants, name: string)
    requires Distinct(k)
    ensures OpenShiftTable(k).Keys == ImageNames(k)
    ensures GetOpenShiftDefaultImageByName(k, name) ==
              (if name in OpenShiftTable(k) then OpenShiftTable(k)[name] else "")
  {
    var t := OpenShiftTable(k);
    if name == k.controllerImage {
      assert t[name] == k.openShiftControllerRepository + ":" + k.controllerTag;
    } else if name == k.nodeImage {
      assert t[name] == k.openShiftNodeRepository + ":" + k.nodeTag;
    } else if name == k.csiProvisioner {
      assert t[name] == k.openShiftCSIProvisionerImage;
    } else if name == k.csiAttacher {
      assert t[name] == k.openShiftCSIAttacherImage;
    } else if name == k.csiNodeDriverRegistrar {
      assert t[name] == k.openShiftNodeDriverRegistrarImage;
    } else if name == k.livenessProbe {
      assert t[name] == k.openShiftCSILivenessProbeImage;
    } else {
      assert name !in t;
    }
  }
}
