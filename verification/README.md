# IBM block CSI operator: resource metadata, iSCSI portal commands, endpoint selection

A Dafny model of three small, self-contained parts of the IBM block CSI
operator:

- **Resource metadata and images** (`IbmBlockCsi`, `Labels`, `Config`): the
  labels and annotations put on every resource the operator creates, where the
  operator's defaults always beat user-supplied keys; the controller and node
  pod labels (`labels.Merge` with the component selector, which wins); the
  controller, node and sidecar image strings; the first-match sidecar lookup
  with pull-policy defaulting; and the per-platform default-image tables.
  The `config` constants and the build version are opaque strings carried in a
  `Config.Constants` record; `Config.Distinct` states that the names used as
  `switch` cases are pairwise different.
- **The `iscsi` command** (`IscsiCmd`, `GoStrings`): subcommand dispatch, and
  the `login` / `logout` commands, which reject an empty `--portals`, split it
  with Go `strings.Split` semantics (no trimming, no de-duplication, empty
  pieces kept) and hand every piece, in order, to the external
  `DiscoverAndLogin` / `DiscoverAndLogout`. A failing call is logged and the
  loop goes on. The external calls are an oracle whose invocations are recorded
  in a ghost trace; the portals whose call failed are returned; the process
  exit is a returned `Status`.
- **Endpoint selection** (`Util`): `TestConnectivity` composes `addr` or
  `addr:port`, dials the addresses in list order and returns the first bare
  address that connects, or `""`. The dial is an abstract predicate on the
  dialed string, and a ghost trace records every dial.

Facts about the code that the model keeps:
- The portal list is only split on commas. It is not validated, not trimmed
  and not de-duplicated.
- The `iscsi` command never calls `TestConnectivity`.
- `watch` does no reconciliation. It sleeps forever, which is modelled as
  the `RunsForever` status.
- `TestConnectivity` returns `""` when no address connects. So an empty address that connects gives the same result as total
  failure; `Util.TestConnectivity`'s contract states both cases exactly.

## Model

| member | source | states |
|---|---|---|
| Labels.Merge | pkg/internal/ibmblockcsi/ibmblockcsi.go:104-110 | the merged set has the keys of both sets; on a shared key the second set's value wins, otherwise the first's is kept |
| Labels.AddMissing | pkg/internal/ibmblockcsi/ibmblockcsi.go:59-65 | the add-if-absent loop keeps every key already present with its value and copies in exactly the other keys of the extra set; an empty extra set changes nothing |
| Labels.AddMissingIsSwappedMerge | pkg/internal/ibmblockcsi/ibmblockcsi.go:59-65 | the add-if-absent loop equals `labels.Merge` with the arguments swapped |
| IbmBlockCsi.GetLabels | pkg/internal/ibmblockcsi/ibmblockcsi.go:48-68 | each of the six default keys maps to its fixed default whatever the user labels say; every non-default user key keeps the user's value; the key set is exactly defaults union user keys; no user labels gives exactly the defaults |
| IbmBlockCsi.GetAnnotations | pkg/internal/ibmblockcsi/ibmblockcsi.go:70-87 | the same defaults-win merge with `productID`, `productName`, `productVersion` |
| IbmBlockCsi.GetSelectorLabels | pkg/internal/ibmblockcsi/ibmblockcsi.go:89-94 | the selector labels hold the component key alone, mapped to the component |
| IbmBlockCsi.GetCSIControllerSelectorLabels | pkg/internal/ibmblockcsi/ibmblockcsi.go:96-98 | the controller selector maps the component key to the controller component, and nothing else |
| IbmBlockCsi.GetCSINodeSelectorLabels | pkg/internal/ibmblockcsi/ibmblockcsi.go:100-102 | the node selector maps the component key to the node component, and nothing else |
| IbmBlockCsi.PodLabels | pkg/internal/ibmblockcsi/ibmblockcsi.go:89-110 | pod labels are the resource labels plus the component key; the component key holds the component even when a user label used it; every other key is unchanged |
| IbmBlockCsi.GetCSIControllerPodLabels | pkg/internal/ibmblockcsi/ibmblockcsi.go:104-106 | the controller pod labels are the component pod labels for the controller component, so the component key holds the controller component |
| IbmBlockCsi.GetCSINodePodLabels | pkg/internal/ibmblockcsi/ibmblockcsi.go:108-110 | the node pod labels are the component pod labels for the node component, so the component key holds the node component |
| IbmBlockCsi.ControllerAndNodePodLabels | pkg/internal/ibmblockcsi/ibmblockcsi.go:96-110 | controller and node pod labels have the same keys and agree everywhere except the component key, so they always differ |
| IbmBlockCsi.ImageRef | pkg/internal/ibmblockcsi/ibmblockcsi.go:112-124 | the image starts with the repository; it is the repository alone exactly when the tag is empty; otherwise the repository is followed by `:` and the tag |
| IbmBlockCsi.ImageRefRoundTrip | pkg/internal/ibmblockcsi/ibmblockcsi.go:112-124 | the tag can be recovered from the image given the repository, by reading what follows the `:` separator |
| IbmBlockCsi.ImageRefInjective | pkg/internal/ibmblockcsi/ibmblockcsi.go:112-124 | for one repository, different tags give different images |
| IbmBlockCsi.GetCSIControllerImage | pkg/internal/ibmblockcsi/ibmblockcsi.go:112-117 | the controller image is the controller repository alone exactly when the tag is empty; it starts with the repository and gives back the tag after a `:` |
| IbmBlockCsi.GetCSINodeImage | pkg/internal/ibmblockcsi/ibmblockcsi.go:119-124 | the node image is the node repository alone exactly when the tag is empty; it starts with the repository and gives back the tag after a `:` |
| IbmBlockCsi.ImageFormatsAgreeIffTagged | pkg/internal/ibmblockcsi/ibmblockcsi.go:152-158 | the sidecar format `repo:tag` and the controller/node format agree if and only if the tag is non-empty |
| IbmBlockCsi.FirstNamedUnique | pkg/internal/ibmblockcsi/ibmblockcsi.go:135-142 | there is at most one first match |
| IbmBlockCsi.SidecarIndex | pkg/internal/ibmblockcsi/ibmblockcsi.go:135-142 | finds the first position with the name, in list order, and finds none exactly when no sidecar has the name |
| IbmBlockCsi.GetSidecarByName | pkg/internal/ibmblockcsi/ibmblockcsi.go:135-142 | returns the first sidecar in list order with the name, and none exactly when no sidecar has it |
| IbmBlockCsi.GetSidecarPullPolicyByName | pkg/internal/ibmblockcsi/ibmblockcsi.go:144-150 | the first matching sidecar's policy when it is non-empty, otherwise `IfNotPresent`; never empty |
| IbmBlockCsi.GetSidecarImageByName | pkg/internal/ibmblockcsi/ibmblockcsi.go:152-158 | `repo:tag` of the first matching sidecar (colon even for an empty tag); `""` exactly when no sidecar matches |
| IbmBlockCsi.GetSidecarNames | pkg/internal/ibmblockcsi/ibmblockcsi.go:126-133 | four names, each with an entry in the default-image tables; when the constants are distinct, none is the controller or node image name and no name repeats |
| IbmBlockCsi.GetDefaultImageByPlatformAndName | pkg/internal/ibmblockcsi/ibmblockcsi.go:160-169 | dispatches to the OpenShift or Kubernetes table; `""` for any other platform and for an unknown name |
| IbmBlockCsi.GetKubernetesDefaultImageByName | pkg/internal/ibmblockcsi/ibmblockcsi.go:171-188 | `""` for a name outside the six image names |
| IbmBlockCsi.GetOpenShiftDefaultImageByName | pkg/internal/ibmblockcsi/ibmblockcsi.go:190-207 | `""` for a name outside the six image names |
| IbmBlockCsi.KubernetesDefaultImageTable | pkg/internal/ibmblockcsi/ibmblockcsi.go:171-188 | when the names are distinct, the Kubernetes `switch` is a lookup in its six-entry table, with `""` for names outside it |
| IbmBlockCsi.OpenShiftDefaultImageTable | pkg/internal/ibmblockcsi/ibmblockcsi.go:190-207 | when the names are distinct, the OpenShift `switch` is a lookup in its six-entry table (OpenShift repositories, shared controller and node tags), with `""` for names outside it |
| GoStrings.Split | cmd/iscsi/main.go:63 | there is always at least one piece; the empty string gives one empty piece |
| GoStrings.SplitCount | cmd/iscsi/main.go:63 | there is one more piece than there are commas |
| GoStrings.SplitPiecesHaveNoSeparator | cmd/iscsi/main.go:63 | no piece contains a comma |
| GoStrings.JoinSplit | cmd/iscsi/main.go:63 | joining the pieces with commas gives back the input |
| GoStrings.SplitJoin | cmd/iscsi/main.go:63 | splitting comma-free pieces joined by commas gives back the pieces |
| GoStrings.SplitKeepsEmptyPieces | cmd/iscsi/main.go:63 | `"a,,b"` splits into `"a"`, `""`, `"b"` |
| IscsiCmd.Failures | cmd/iscsi/main.go:63-68 | the logged portals are among the dispatched pieces, at most one per call |
| IscsiCmd.FailedCallIsReported | cmd/iscsi/main.go:64-67 | a call that returns an error always gets its failure line |
| IscsiCmd.ReportedPortalFailed | cmd/iscsi/main.go:64-67 | every logged portal was handed to a call that returned an error |
| IscsiCmd.FailuresInCallOrder | cmd/iscsi/main.go:63-68 | failure lines come out in call order: the failures of earlier calls are a prefix of the failures of later ones |
| IscsiCmd.FailureCount | cmd/iscsi/main.go:63-68 | there is exactly one failure line per call that returned an error |
| IscsiCmd.NoFailuresWhenAllSucceed | cmd/iscsi/main.go:63-68 | when every call succeeds nothing is logged as failed |
| IscsiCmd.PortalCommand | cmd/iscsi/main.go:55-87 | empty portals exit 1 before any call; otherwise exactly one call per piece, left to right, commas plus one calls in all, whatever earlier calls returned; the failed portals are reported and the exit is 0 |
| IscsiCmd.TracePortalsJoinToInput | cmd/iscsi/main.go:61-64 | the portals in the call trace join back into the `--portals` value |
| IscsiCmd.Run | cmd/iscsi/main.go:22-53 | fewer than two arguments or an unknown subcommand exit 1 with no call; `watch` runs forever unless flag parsing exits; `login`/`logout` dispatch their portal pieces with the matching operation and report exactly the failures of those calls; every other path reports no failure |
| Util.DialAddress | pkg/util/utils.go:51-56 | the dialed address is the address alone exactly when the port is empty; otherwise it is the address, a `:`, then the port |
| Util.DialAddressRoundTrip | pkg/util/utils.go:51-56 | the bare address is recovered from the dialed one by stripping the `:port` suffix |
| Util.TestConnectivity | pkg/util/utils.go:47-64 | returns the first address in list order whose dial succeeds, bare; nothing after it is dialed; `""` when every dial fails, including for an empty list; the result is `""` or in the list |

## Left out

- `Invoke` in `pkg/util/utils.go` (runtime reflection over method sets) has no stable behaviour to state.
- `New` and `Unwrap` are the `IBMBlockCSI` datatype's constructor and fields.
- A nil label or annotation map is modelled as the empty map, since the code treats both alike.
- Go map iteration order does not matter: the add-if-absent loop only adds absent keys, and user keys are distinct.
- `pkg/iscsi` (`DiscoverAndLogin`, `DiscoverAndLogout`) is not part of this model. Its calls are an oracle that says which calls returned an error. No session state, idempotence or de-duplication is modelled.
- Log output is left out except for which portals get a failure line.
- The flag library is an abstract parser. It either yields the `--portals` value or exits by itself with a status of its own choosing.
- `os.Exit` is a returned status. Normal return from `main` is status 0.
- The `watch` loop's 24-hour sleep is the `RunsForever` status.
- The gRPC dial is an abstract predicate on the dialed address. Connection semantics, timeouts and closing the connection are not modelled.
- The concrete values of the `config` constants, `csiversion.Version` and the Kubernetes API types are not modelled. Only `Config.Distinct` is assumed about them, in the lemmas that need it.
- IbmBlockCsi.GetKubernetesDefaultImageByName: its contract only states the unknown-name case. The full table is stated by `IbmBlockCsi.KubernetesDefaultImageTable` under `Config.Distinct`.
- IbmBlockCsi.GetOpenShiftDefaultImageByName: its contract only states the unknown-name case. The full table is stated by `IbmBlockCsi.OpenShiftDefaultImageTable` under `Config.Distinct`.
