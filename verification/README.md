# oneinfra: host ports, addresses, files and reconcilers

oneinfra places the components of Kubernetes control planes on hypervisors. For every component it reserves host ports on
the hypervisor, uploads files to its host, hands out VPN addresses, and records all of this in objects of a Kubernetes API
server that many workers read and write at the same time. This project models the parts of that which carry state or
arithmetic, and proves what they are for.

* **Host ports.** `Ports` is the allocator of one hypervisor (a list of allocations, a queue of freed ports, and the next
  port at `low + len(allocated)`), `PortQueues` the order in which freed ports come back, `Hypervisors` and `Components` are the objects that use it in place.
* **The reservation protocol.** `Protocol` is the whole system as a transition system: a versioned store, users, schedulers,
  and any number of workers that list hypervisors, then components, change their copies, and write them back one by one,
  each write accepted only on an unchanged version (Kubernetes API Conventions, "Concurrency Control and Consistency").
  `ProtocolInvariant` and `ProtocolSafety` hold the invariant and its proof, `ProtocolTheorems` what follows for every
  interleaving, and `ProtocolEffects` what single steps write and what no step ever does. `Scheduling` is one scheduler pass.
* **Deletion.** `DeletionSteps`, `DeletionEffects` and `Deletion` follow the deletion of a control plane and of an ingress through all partial
  failures and retries. `DeletionRuns` shows a deletion to be a run of the protocol, `DeletionTraces` that the states in which
  one goes wrong are reached from the initial state, and that one nobody disturbs gets done.
* **Addresses.** `Bytes` and `Networks` prove the byte arithmetic of `requestVPNIP` against plain addition,
  `VpnPeers` the runs of it, `ServiceAddresses` the in-place addition for the service addresses.
* **Files.** `Paths` and `Files` are the upload cache and the directories it speaks about.
* **Reconcilers.** `StorageEndpoints` (with `Endpoints`), `Replicas`, `Conditions`, `JoinTokens` and `Documents`.

What comes from outside is a parameter: the outcome of every call to the API server, to etcd and to the container runtime,
random choices, generated names and keys, and the time. A call that fails may have been carried out. Maps are walked in any
order. SHA-1 digests are taken to be injective. Go's `int` is 64 bits wide where it matters (`Networks.GO_INT`).

Where the promise does not hold of the code, the code is kept and a lemma states exactly when it holds:
`Networks.MeetsExactly` (IPv6 networks whose first byte is zero), `ServiceAddresses.ServiceAddressesExactly` (networks with
fewer than four host bits), `JoinTokens.SuccessMeans` (an ID with two secrets), `Deletion.IngressReleases` (a VPN disabled
before the ingress is deleted), `Deletion.NothingHeldExactly` (a port held but not recorded), `DeletionSteps.OtherUrlExactly` (a
recorded port that another control plane holds by now), `Networks.UnparsedNetwork` (a CIDR that could not be parsed),
`Paths.RemovedDirectoryIsPrivate` and `Paths.ServiceFileShared` (names that leave or share a directory),
`Files.CacheAgreesExactly` (a write whose record was lost), `Files.UploadKeepsMatching`, `Files.FailureIsHarmless`,
`Files.ForgetKeepsMatching` and `Files.SharedPathBreaks` (records of other components on the same paths), `Replicas.Controller.Reconcile` (a negative number of replicas).

## Model

| member | source | states |
|---|---|---|
| Ports.RequestEffect | internal/pkg/infra/hypervisor.go:710-731 | a grant changes the assignment of the requested key only; a key that holds a port gets that port back and nothing changes |
| Ports.RequestKeepsValid | internal/pkg/infra/hypervisor.go:710-731 | on a valid table a request fails exactly when the key has no port and every port of the range is allocated; a new grant is a port of the range that no key held; validity is kept |
| Ports.FreeKeepsValid | internal/pkg/infra/hypervisor.go:734-757 | freeing forgets exactly that key, keeps the table valid and loses no port |
| Ports.ValidIsPermutation | internal/pkg/infra/hypervisor.go:700-757 | a valid table owns, allocated and freed together, exactly the multiset low, ..., low + n - 1 |
| Ports.NextIsUnowned | internal/pkg/infra/hypervisor.go:716-725 | with no freed port waiting, `low + len(allocated)` is owned by nobody |
| Ports.HeldInjective | internal/pkg/infra/hypervisor.go:700-731 | two keys never hold the same port |
| Ports.RunKeepsValid | internal/pkg/infra/hypervisor.go:700-757 | after any sequence of requests and frees from an empty hypervisor the owned ports are a permutation of an initial segment of the range and keys are unique |
| Ports.RunKeepsPort | internal/pkg/infra/hypervisor.go:710-757 | a key keeps its port until that key is freed, whatever other keys do |
| Ports.FullCapacityAgain | internal/pkg/infra/hypervisor.go:710-757 | once everything is freed, the full capacity can be allocated again |
| PortQueues.QueueOfRun | internal/pkg/infra/hypervisor.go:710-757 | first freed, first granted, over any run: the ports that waited and those freed since are, in order, the ports granted again and then those still waiting |
| PortQueues.FirstFreedFirstGranted | internal/pkg/infra/hypervisor.go:716-757 | after freeing held keys in any order, the next new keys get the ports those keys held, in that order, after the ports that waited before |
| Hypervisors.Hypervisor.HasPort | internal/pkg/infra/hypervisor.go:700-708 | the search finds exactly the port the key holds |
| Hypervisors.Hypervisor.RequestPort | internal/pkg/infra/hypervisor.go:710-731 | grants in place what the specification grants; a failed request changes nothing |
| Hypervisors.Hypervisor.FreePort | internal/pkg/infra/hypervisor.go:734-757 | the loop that rebuilds the allocations and queues the port meets the specification and keeps the table valid |
| Components.KeysNeverClash | internal/pkg/component/component.go:313-315 | keys built from the four port names are equal only for the same component and the same name |
| Components.KeyReadsBack | internal/pkg/component/component.go:313-315 | a key of one of the four port names reads back as the namespace, component, cluster and name it was made of |
| Components.ArbitraryNamesClash | internal/pkg/component/component.go:313-315 | with other port names two components can have the same key |
| Components.Component.RequestPort | internal/pkg/component/component.go:156-167 | returns the recorded port, or one granted by the hypervisor, which it records |
| Components.Component.FreePort | internal/pkg/component/component.go:169-178 | frees on both sides, and only a recorded port |
| Components.Component.PreReconcile | internal/pkg/component/components/control_plane.go:59-75 | without a hypervisor assigned, or for an unknown role, nothing is requested and it fails; otherwise it succeeds exactly when the hypervisor has a free port for each name that needs one, and then a control plane has recorded apiserver, etcd-peer and etcd-client and an ingress apiserver and, with a VPN, wireguard, besides what it had; those that are new are held; on a refusal the ports requested before it stay, in that order |
| Components.RoleIsRecorded | internal/pkg/component/components/control_plane_ingress.go:70-85 | the ports recorded for each role, name by name |
| Components.RoleInOrder | internal/pkg/component/components/control_plane.go:65-73 | the order they are requested in, also when one is refused |
| Components.ReadyExactly | internal/pkg/component/components/control_plane.go:65-73 | all names are granted exactly when the allocated ports and those still needed fit into the range |
| Components.GrantedStayReserved | internal/pkg/component/components/control_plane.go:65-73 | ports granted before a refusal stay recorded and held; nothing recorded or held before is lost |
| ProtocolSafety.ApplyKeepsInv | controllers/component_reconciler.go:46-160 | every step of any actor keeps the invariant of store, workers and schedulers, and the store only moves forward |
| ProtocolSafety.ApplyKeepsValid | internal/pkg/reconciler/resource_updater.go:28-90 | every step keeps every port table valid, in the store and in every copy |
| ProtocolSafety.ExecuteOk | controllers/component_reconciler.go:46-160 | both invariants hold along every run |
| ProtocolTheorems.ListedPortIsAllocated | controllers/component_reconciler.go:82-157 | in every reachable state a port an undeleted stored component lists is allocated to it, under its key, on its stored hypervisor, inside the port range |
| ProtocolTheorems.NoPortIsShared | controllers/component_reconciler.go:82-157 | in every reachable state no two undeleted components on one hypervisor list the same port, and none lists it twice |
| ProtocolTheorems.StoredTablesAreValid | internal/pkg/reconciler/resource_updater.go:28-56 | in every reachable state every stored hypervisor has a valid port table |
| ProtocolTheorems.AssignedOnce | controllers/component_scheduler.go:69-101 | once a hypervisor is assigned to a component it never changes |
| ProtocolTheorems.PlacedByRole | controllers/component_scheduler.go:69-101 | in every reachable state control planes are on private hypervisors and ingresses on public ones |
| ProtocolEffects.SaveEndsDeletion | controllers/component_reconciler.go:142-150 | the write that ends a deletion: if nobody wrote the component since, it stays stored exactly if it has a finalizer besides the cleanup one, its finalizers are then exactly those others, and nothing else changes |
| ProtocolEffects.RemovedInOrder | internal/pkg/utils/lists.go:53-65 | the other finalizers keep their order |
| ProtocolEffects.SaveStoresStatus | controllers/component_reconciler.go:125-140 | the write that ends any other reconciliation stores the ports and the rest of the status of the copy, only if they changed, and nothing else |
| ProtocolEffects.StaleSaveIsLost | controllers/component_reconciler.go:134-157 | a component written by someone else, or gone, is left alone, and the pass goes on with the hypervisors |
| ProtocolEffects.WriteStoresHypervisor | internal/pkg/reconciler/resource_updater.go:41-56 | a hypervisor is written exactly if nobody wrote it since: then allocations, freed ports and file record are the copy's, the rest is as stored, and no other object changes |
| ProtocolEffects.WriteStoresComponent | internal/pkg/reconciler/resource_updater.go:75-90 | the same for the ports and the rest of the status of a component |
| ProtocolEffects.ConflictReadsAgain | controllers/component_reconciler.go:82-103 | a conflict in the first round is retried on what is stored by then; in the second it ends the pass |
| ProtocolEffects.PreReconcileRecords | controllers/component_reconciler.go:90-94 | the reservation step goes on exactly when the target is placed, of a known role, and its hypervisor has a port for each one needed; the copy then records exactly the ports of the role, name by name, besides those it had, nothing else changes but the table of its hypervisor, and with nothing to add the pass goes on without a write |
| ProtocolEffects.RequestRecords | internal/pkg/component/component.go:156-167 | in the second round a port the role uses is recorded after a request, and held if it is new, unless the component has none and every port of the hypervisor is taken; other names stay |
| ProtocolEffects.FreeReleases | internal/pkg/component/component.go:169-178 | a pass frees ports of a target that is being deleted only; the name is then not recorded, and its key is forgotten exactly if it was recorded |
| ProtocolEffects.ChangesAreMade | controllers/component_reconciler.go:118-140 | file records and the rest of the status change as the pass changes them, and nothing else does |
| ProtocolEffects.NothingDirty | internal/pkg/reconciler/resource_updater.go:41-90 | a pass has nothing to write exactly when no object differs from what was read |
| ProtocolEffects.CreatedIsNew | apis/cluster/v1alpha1/component_webhook.go:47-58 | a new component is unscheduled, without ports, and has the cleanup finalizer besides those given |
| ProtocolEffects.DeleteMarks | controllers/cluster_controller.go:158-165 | deleting a component with finalizers marks it and changes nothing else |
| ProtocolEffects.TouchStores | apis/cluster/v1alpha1/component_webhook.go:47-58 | changing metadata keeps the cleanup finalizer of an undeleted component; with the last finalizer a deleted one goes |
| ProtocolEffects.AddedIsEmpty | internal/pkg/infra/hypervisor.go:700-731 | a new hypervisor has its range, no port taken and no record of files |
| ProtocolEffects.BeginStarts | controllers/component_reconciler.go:46-76 | a pass over an undeleted component reserves first, one over a deleted component does not |
| ProtocolEffects.SchedulerReads | controllers/component_scheduler.go:46-71 | the scheduler reads exactly the components without hypervisor, and all hypervisors |
| ProtocolEffects.PassReads | controllers/listing.go:110-124 | a pass reads exactly the components of the namespace and the cluster |
| ProtocolEffects.LeavesOnlyDeleted | controllers/component_reconciler.go:141-150 | in every run a component leaves the store only once it is marked as deleted, by the write of a worker that reconciled its deletion, or because a user took the last finalizer away |
| ProtocolEffects.PassStaysInCluster | controllers/reconciler.go:33-49 | in every run a pass writes only components of the namespace and the cluster of its target |
| ProtocolTheorems.ReservationStays | internal/pkg/reconciler/resource_updater.go:28-39 | what a stored hypervisor has reserved for a component stays reserved until the component is deleted |
| ProtocolTheorems.WrittenIsReserved | internal/pkg/reconciler/resource_updater.go:28-39 | once a worker wrote the hypervisor, and before it writes the component, every port in its copy is reserved in the store |
| ProtocolTheorems.HeldNameKeepsPort | internal/pkg/component/components/control_plane.go:65-73 | a name held before the requests gets the port it holds, whatever other names are requested |
| ProtocolTheorems.ReservationSurvives | controllers/component_reconciler.go:82-103 | whatever happens after that, worker stopped or in conflict, a later pass that lists the hypervisors, later the components, finds the component undeleted and later pre-reconciles, all steps of others in between, gets the same port for every name, unless refused another port; if it asks for no more names than the first pass it is not refused and leaves the tables it read unchanged |
| Scheduling.HypervisorsThatAre | internal/pkg/infra/hypervisor.go:845-866 | lists exactly the public, or the private, hypervisors |
| Scheduling.Place | controllers/component_scheduler.go:72-97 | places a component of known role exactly when there is a hypervisor for its role, and on such a one; one of unknown role exactly when the one before it is placed, and on the same kind of hypervisor; those before any of known role are not placed |
| Scheduling.PassIsRun | controllers/component_scheduler.go:72-101 | a whole pass, write after write, is a run of assignment steps of the protocol from the snapshot the scheduler read |
| Scheduling.PassPlaces | controllers/component_scheduler.go:96-100 | a component that is placed and was not written since is assigned that hypervisor, and nothing else of it changes but the cleanup finalizer; any other the pass read is left as it is |
| Scheduling.PassLeavesOthers | controllers/component_scheduler.go:72-101 | a pass writes no hypervisor and no component it did not read |
| Scheduling.Reconcile | controllers/component_scheduler.go:69-101 | the loop of the pass makes exactly that run |
| DeletionSteps.RequestInMoves | internal/pkg/component/component.go:156-167 | a request on the copies of a worker loses no port and keeps the keys of every other component |
| DeletionSteps.OwnFree | internal/pkg/component/component.go:169-178 | freeing a port of the target, recorded or not and held or not, removes the record, loses no port, and leaves held without record exactly what was so before |
| Deletion.ControlPlaneDeletion.EtcdClientEndpoints | internal/pkg/component/components/etcd.go:133-152 | collects the endpoints of the undeleted control planes in order, requesting their ports on the way: each one reads as the address and the client port of such a control plane, and one that records its client port is among them |
| DeletionSteps.LiveIsFound | internal/pkg/component/components/etcd.go:133-152 | with a control plane that is up with its client port there is an endpoint, whatever was requested before it |
| DeletionEffects.EndpointsRead | internal/pkg/component/components/etcd.go:133-152 | every endpoint found reads as the address and the client port of an undeleted control plane of the list |
| DeletionEffects.LiveIsAsked | internal/pkg/component/components/etcd.go:133-152 | an undeleted control plane that records its client port is asked at its address and that port |
| Deletion.ControlPlaneDeletion.EtcdPeerUrl | internal/pkg/component/components/etcd.go:332-341 | the peer URL reads as the address of the target's hypervisor and its recorded peer port, which requests keep; a peer port held without record is taken up |
| Deletion.ControlPlaneDeletion.EtcdMemberId | internal/pkg/component/components/etcd.go:315-330 | without a failure, finds the member with the target's peer URL exactly if there is one; it fails exactly if the members cannot be listed or there is no peer port |
| Deletion.ControlPlaneDeletion.RemoveEtcdMember | internal/pkg/component/components/etcd.go:507-541 | with an endpoint to ask, success means no member has the target's peer URL; no member with other URLs leaves, however the sixty attempts go; it succeeds exactly when there is a peer port for the target and the outcomes of the attempts get there; with no endpoint nothing is done |
| DeletionEffects.GetsThereExactly | internal/pkg/component/components/etcd.go:507-541 | the attempts succeed exactly if one of them lists the members and either removes the target's or finds it gone: never there, or removed by an earlier call that failed |
| Deletion.ControlPlaneDeletion.StopControlPlane | internal/pkg/component/components/control_plane.go:361-376 | the api server port is freed only once the pod is gone, and is then the last of those waiting |
| Deletion.ControlPlaneDeletion.StopEtcd | internal/pkg/component/components/etcd.go:555-573 | both etcd ports are freed, only once the pod is gone, and wait in the order peer, client after the others |
| Deletion.ControlPlaneDeletion.HostCleanup | internal/pkg/component/components/control_plane.go:398-452 | the file record goes only after the files did |
| DeletionEffects.FreedInOrder | internal/pkg/component/components/etcd.go:555-573 | two ports freed one after the other wait in that order |
| DeletionEffects.OtherFilesStay | internal/pkg/component/components/control_plane.go:398-452 | wherever a deletion stops, the file records of all other components, and those on other hypervisors, are what they were |
| Deletion.ControlPlaneDeletion.ReconcileDeletion | internal/pkg/component/components/control_plane.go:379-396 | from any recorded and any held ports, retries included: on success a key is held exactly if it was held without record, except a peer port when a member was asked; the file record is gone and, if a member was asked, the member with the target's peer URL left, the port recorded or only held or requested now; no other member leaves, however far it came, no port is lost and no other component loses a port or a file record; it succeeds exactly when its steps do, and a step that fails is the last one; an unscheduled component is a success with nothing done |
| DeletionSteps.LiveMemberIsAsked | internal/pkg/component/components/etcd.go:507-510 | some member is asked whenever another undeleted control plane is placed and records its client port |
| DeletionSteps.RecordedDecides | internal/pkg/component/components/etcd.go:507-541 | with the peer port recorded, whether the member is removed is a matter of the outcomes of the attempts alone |
| DeletionSteps.AskedIsBase | internal/pkg/component/components/etcd.go:133-152 | asking for the endpoints or the peer port again, in every attempt, changes nothing more |
| Deletion.NothingHeldExactly | internal/pkg/component/components/control_plane.go:379-396 | none of the three keys is held after a success exactly if none was held without record, the peer port excepted when a member was asked |
| Deletion.DeleteInterrupted | internal/pkg/component/components/control_plane.go:379-396 | after an interrupted reservation the whole deletion succeeds; the api server and client ports stay held, and the peer port exactly when no member was asked |
| DeletionSteps.OtherUrlExactly | internal/pkg/component/components/etcd.go:315-341 | the target's recorded peer URL is another control plane's exactly when that one holds the recorded port on the same hypervisor |
| DeletionSteps.OtherMemberStays | internal/pkg/component/components/etcd.go:507-541 | the member of another control plane leaves only in that case: never while the target holds its recorded port, and never when the target records none |
| Deletion.RetryRemovesAnother | internal/pkg/component/components/control_plane.go:379-396 | a retried deletion whose freed peer port went to another control plane succeeds as a whole and removes the member of that one |
| Deletion.ControlPlaneDeletion.DeleteComponent | internal/pkg/component/reconciler/reconciler.go:142-180 | the cleanup finalizer goes exactly when the deletion succeeds, which it does exactly when its steps do, and no other finalizer goes; on success all of the above holds |
| DeletionRuns.DeletionIsRun | internal/pkg/component/components/control_plane.go:379-396 | wherever a deletion stops, its copies are reached by a run of port requests, port frees and changes of the file record, and nothing else changes meanwhile |
| DeletionTraces.InterruptedIsReached | controllers/component_reconciler.go:82-103 | for every control plane and every hypervisor with three ports, a run from the initial state reaches a worker that deletes an interrupted reservation |
| DeletionTraces.TakenIsReached | controllers/component_reconciler.go:142-159 | for every two control planes of a cluster, a run from the initial state reaches a worker that deletes one again after its freed ports went to the other |
| DeletionTraces.DeletionIsStored | controllers/component_reconciler.go:141-157 | a deletion that nobody disturbs, and that changed only the target and its hypervisor, ends with the component gone, the stored hypervisor as the deletion left its copy, and all else as it was |
| DeletionTraces.DeletionIsDone | controllers/component_reconciler.go:141-157 | with the whole cluster deleted, from any reachable state without other passes: the component is gone, no record of its files is left, and of its three ports exactly those stay allocated that were held without record |
| DeletionSteps.FreedIsReleased | internal/pkg/component/component.go:169-178 | a freed name is held afterwards exactly when it was held but not recorded |
| Deletion.IngressReleases | internal/pkg/component/components/control_plane_ingress.go:219-240 | after stopping an ingress a port is held exactly if it was held without record, or is the recorded wireguard port of a cluster whose VPN is disabled by then |
| Deletion.IngressLeaksWireguard | internal/pkg/component/components/control_plane_ingress.go:219-240 | a concrete ingress whose wireguard port stays held after the VPN was disabled |
| Deletion.IngressDeletion.ReconcileDeletion | internal/pkg/component/components/control_plane_ingress.go:243-252 | the same for the whole deletion, which succeeds exactly when pod and files go, does nothing while the pod is there, loses no port and no file record of another component and drops its own file record |
| Bytes.MaskedIsQuotient | internal/pkg/cluster/cluster.go:348-350 | comparing bytes under a CIDR mask is comparing the quotients of the numbers by the block size |
| Networks.NextOfIpv4 | internal/pkg/cluster/cluster.go:340-352 | for every IPv4 network and every number of peers the byte computation gives network + n + 1 below 2^hostbits and fails from there on, carries out of the four bytes included |
| Networks.NextOfIpv6 | internal/pkg/cluster/cluster.go:340-352 | the same for every IPv6 network with a nonzero first byte, carries out of the sixteen bytes included |
| Networks.MeetsExactly | internal/pkg/cluster/cluster.go:340-352 | over all networks: the promise is met exactly for IPv4, IPv4-mapped and nonzero first byte, and otherwise only if the network is used up and the sum has two bytes |
| Networks.UnspecifiedPanics | internal/pkg/cluster/cluster.go:344 | the first address of `::/64` panics |
| Networks.UnparsedNetwork | internal/pkg/cluster/vpn.go:87-93 | with a CIDR that could not be parsed the first 255 peers panic, up to 65535 get the empty address, and from there on it fails |
| VpnPeers.Cluster.GenerateVpnPeer | internal/pkg/cluster/cluster.go:300-322 | a known name gets its peer and nothing changes; a new one gets a peer of its name with the generated key, stored under that name, and no other peer changes; without an address or a key none is added |
| VpnPeers.Cluster.Export | internal/pkg/cluster/vpn.go:105-116 | lists every peer once, in any order |
| VpnPeers.Cluster.Reload | internal/pkg/cluster/vpn.go:74-116 | exporting and importing in place changes no peer |
| VpnPeers.Import | internal/pkg/cluster/vpn.go:74-85 | the loop builds the map, a later entry replacing an earlier one of the same name |
| VpnPeers.ImportedLater | internal/pkg/cluster/vpn.go:74-85 | a later entry replaces an earlier one of the same name |
| VpnPeers.ImportOfExport | internal/pkg/cluster/vpn.go:74-116 | importing any listing of the peers gives the peers back |
| VpnPeers.GenerateInOrder | internal/pkg/cluster/cluster.go:300-322 | generating fails exactly when the network is used up or there is no key, never panics, and keeps the peers in order; a new peer has its name, the generated key and the next address, and is the only change |
| VpnPeers.RunInOrder | internal/pkg/cluster/cluster.go:300-352 | after any generating, exporting and importing the n peers hold exactly network + 1, ..., network + n, each once, inside the CIDR |
| VpnPeers.SamePeerAgain | internal/pkg/cluster/cluster.go:300-304 | a name asked for again after any run gets the peer it got first |
| ServiceAddresses.AddToLast | internal/pkg/cluster/cluster_ips.go:35 | adds to the last byte in place, wrapping around |
| ServiceAddresses.KubernetesServiceIp | internal/pkg/cluster/cluster_ips.go:30-37 | network + 1, inside, for four host bits or more; inside exactly with one host bit or more |
| ServiceAddresses.CoreDnsServiceIp | internal/pkg/cluster/cluster_ips.go:40-47 | network + 10, inside, for four host bits or more; inside exactly with four host bits or more |
| ServiceAddresses.InCidrExactly | internal/pkg/cluster/cluster_ips.go:30-47 | any offset added this way stays in the network exactly when it is below the block size, wrapping or not |
| ServiceAddresses.ServiceAddressesExactly | internal/pkg/cluster/cluster_ips.go:30-47 | exactly when each of the two addresses is inside; they always differ |
| ServiceAddresses.SmallNetworkMisses | internal/pkg/cluster/cluster_ips.go:40-47 | in `10.0.0.248/29` the CoreDNS address wraps around to `10.0.0.2` and is outside |
| Endpoints.UrlInjective | internal/pkg/cluster/reconciler/reconciler.go:238-247 | an endpoint URL determines the address and the port it was made of |
| Endpoints.UrlReadsBack | internal/pkg/cluster/reconciler/reconciler.go:238-247 | before the last colon a URL is the scheme and the address, in brackets exactly if it has a colon, and after it the decimal digits of the port |
| Endpoints.UrlOfReadsBack | internal/pkg/cluster/reconciler/reconciler.go:238-247 | the endpoint of a component reads as the address of its hypervisor and its recorded port |
| StorageEndpoints.ClusterStorage.ReconcileStorageEndpoints | internal/pkg/cluster/reconciler/reconciler.go:218-252 | succeeds exactly when the number of control planes, deleted ones counted, is the desired one and every undeleted one has a known hypervisor and both ports; then both maps have exactly the undeleted control planes, with endpoints that read as the address of the hypervisor and the recorded peer, or client, port, all different if ports and addresses are; otherwise neither map changes |
| StorageEndpoints.Collect | internal/pkg/cluster/reconciler/reconciler.go:226-249 | the loop over the control planes, stopping at the first that cannot be published |
| StorageEndpoints.PlanesAreListed | internal/pkg/component/component_list.go:38-61 | the two filters list exactly the control planes of the cluster, with different names |
| StorageEndpoints.ReadFromStoreApart | internal/pkg/cluster/reconciler/reconciler.go:218-252 | components read from the store at any point of any run have their ports apart |
| Paths.SecretsStayApart | internal/pkg/component/components/paths.go:31-45 | for proper names no secret of another component lies under the removed directory |
| Paths.RemovedDirectoryIsPrivate | internal/pkg/component/components/paths.go:31-45 | the removed directory holds no other component's secrets exactly for proper component names |
| Paths.ImproperRemoves | internal/pkg/component/components/paths.go:31-45 | what the other names remove: the empty one and `.` everything of the cluster, `..` everything of the namespace, exactly |
| Paths.SecretsFileIs | internal/pkg/component/components/paths.go:23-45 | where the secrets of a component are |
| Paths.JoinByParts | internal/pkg/component/components/paths.go:31-45 | an element with a slash is joined part by part |
| Paths.ServiceFileShared | internal/pkg/component/components/wireguard.go:145-152 | the wireguard unit file is shared with another cluster exactly when namespace or cluster name has a dash |
| Files.ForgetRefinesDelete | internal/pkg/component/components/file_map.go:23-40 | forgetting on the three-level map is deleting one key of the flat map |
| Files.ForgetLeavesNoEmptyLevel | internal/pkg/component/components/file_map.go:23-40 | no empty inner map is left on the touched path, and none anywhere if there was none |
| Files.UploadRefinesWrite | internal/pkg/infra/hypervisor.go:618-676 | with matching records, writing only the pending files leaves the host as if every file had been written |
| Files.UploadKeepsMatching | internal/pkg/infra/hypervisor.go:618-676 | a successful upload keeps the records matching exactly when no other component records a written path with other contents |
| Files.FailureIsHarmless | internal/pkg/infra/hypervisor.go:648-676 | a failed pod keeps them matching, whatever part it wrote, exactly when no component records a pending path with other contents |
| Files.ForgetKeepsMatching | internal/pkg/component/components/file_map.go:23-40 | removing a directory and forgetting its component keeps them matching exactly when no other component has a record below it |
| Files.CacheAgreesExactly | internal/pkg/infra/hypervisor.go:618-697 | with writes whose record is lost, the hypervisor not being stored or the pod failing half way: after any run the records match exactly if no record such a write made wrong is still so, no upload, cleanup or write since having put it right |
| Files.SkipsOnlyEqual | internal/pkg/infra/hypervisor.go:618-676 | leaving out the files recorded as uploaded comes to the same as writing all exactly if each of these is on the host as it is |
| Files.LostRecordSkipsUpload | internal/pkg/reconciler/resource_updater.go:41-56 | after an upload whose record is lost, going back to the contents before is skipped, and the host keeps the others |
| Files.CacheAgreesWithHost | internal/pkg/infra/hypervisor.go:618-697 | over any run of uploads and cleanups in which each path has one owner and no write goes unrecorded every recorded digest matches the host, and a successful upload leaves the host as if every file had been written |
| Files.CacheOfComponents | internal/pkg/component/components/wireguard.go:95-104 | so it does for uploads below the secrets directories and of the wireguard unit files, if no two ingresses run the same unit |
| Files.SharedPathBreaks | internal/pkg/infra/hypervisor.go:618-676 | two components that upload one path end up with matching records exactly if they upload the same contents |
| Hypervisors.Hypervisor.UploadFiles | internal/pkg/infra/hypervisor.go:618-676 | the method with its loops meets this, for every outcome of the pod |
| Hypervisors.Hypervisor.CleanupFileMap | internal/pkg/component/components/file_map.go:23-40 | the in-place deletes meet the specification |
| Replicas.Controller.Reconcile | controllers/cluster_controller.go:42-156 | a pass in which no call fails finishes, and leaves exactly the desired control planes and one ingress; at that point a pass makes no call; a pass cut short at any call never increases the distance, and the first call that fails ends it; no component disappears, changes its role or is unmarked; a negative number of replicas deletes every control plane and panics, unless a call fails |
| Replicas.Controller.DeleteExcess | controllers/cluster_controller.go:97-110 | deletes exactly the first of the listed components, cut short only some of them, and nothing else changes; it panics exactly when asked for more than there are and no call fails |
| Replicas.Controller.CreateMissing | controllers/cluster_controller.go:83-96 | creates up to the missing number, all of them exactly when no call fails, and leaves the components there are as they were |
| Replicas.Controller.Passes | controllers/cluster_controller.go:42-156 | over any number of passes the distance never grows, fewer failed calls than passes are enough to bring it to zero, and once zero it stays so without a call |
| Replicas.Controller.ReconcileDeletion | controllers/cluster_controller.go:158-165 | a pass over a deleted cluster finishes exactly when no call fails, and has then marked every component; none is created or unmarked |
| Conditions.ConditionList.SetCondition | internal/pkg/conditions/conditions.go:93-121 | the loop meets the specification of setting a condition |
| Conditions.ConditionList.DropCondition | internal/pkg/conditions/conditions.go:82-90 | removes exactly the entries of the type, keeping the order |
| Conditions.ConditionList.IsCondition | internal/pkg/conditions/conditions.go:72-79 | holds exactly if the first entry of the type has the status |
| Conditions.RunUnique | internal/pkg/conditions/conditions.go:72-121 | at most one entry per type is kept by every sequence of calls |
| Conditions.HistoryOfSet | internal/pkg/conditions/conditions.go:93-121 | over any sequence of calls the entry has the status set last, the time it was last set, and the transition time at which its last unbroken run of equal statuses began |
| Conditions.RunBegins | internal/pkg/conditions/conditions.go:93-121 | that time is the first call of the run, if another status, a drop, or nothing came before it |
| Conditions.RunGoesBack | internal/pkg/conditions/conditions.go:93-121 | or the transition time of the entry the list began with, if the run goes back to it |
| Conditions.HistoryOfDrop | internal/pkg/conditions/conditions.go:82-90 | a type last dropped has no entry |
| Conditions.SetKeepsOrder | internal/pkg/conditions/conditions.go:93-121 | setting a type to the status it has leaves every entry in its place; otherwise its entry becomes the last one |
| Conditions.DropKeepsOrder | internal/pkg/conditions/conditions.go:82-90 | dropping a type keeps the order of the others |
| Conditions.OthersUntouched | internal/pkg/conditions/conditions.go:72-121 | types no call is about keep their entries in their order |
| JoinTokens.SubtractTokens | internal/pkg/cluster/join_tokens.go:145-157 | the tokens of one list that are not in the other, in order |
| JoinTokens.MinusJoin | internal/pkg/cluster/join_tokens.go:145-157 | order and repetitions are those of the list |
| JoinTokens.TokenExactly | internal/pkg/cluster/join_tokens.go:81-90 | a token is exactly six lower case letters and digits, a dot, and sixteen more |
| JoinTokens.SuccessMeans | internal/pkg/cluster/join_tokens.go:38-143 | once both phases succeed the stored tokens are the desired ones exactly if no ID has two secrets among stored and desired tokens |
| JoinTokens.NoDesiredTokenGoes | internal/pkg/cluster/join_tokens.go:120-143 | whatever fails, no stored token that is desired is removed |
| JoinTokens.ChangedSecretIsLost | internal/pkg/cluster/join_tokens.go:81-143 | replacing the secret of an ID succeeds and leaves neither token |
| JoinTokens.Cluster.CreateNewTokens | internal/pkg/cluster/join_tokens.go:81-118 | overwrites no secret and adds only new tokens; one write is tried for each token that can be parsed, whatever became of those before, and what is written well is there; succeeds exactly when every token can be parsed and every write goes well |
| JoinTokens.Cluster.RemoveExcessTokens | internal/pkg/cluster/join_tokens.go:120-143 | removes only secrets an excess token names; one write is tried for each that can be parsed, whatever became of those before, and what is written well is gone; for stored tokens it succeeds exactly when every token can be parsed and every write goes well |
| JoinTokens.Cluster.ReconcileJoinTokens | internal/pkg/cluster/join_tokens.go:38-71 | succeeds exactly when there is a client, the secrets can be listed, what is to be created or removed can be parsed and every write goes well; the stored tokens are then the desired ones exactly if no ID has two secrets; with the desired tokens stored it writes nothing; both phases are tried, whatever fails in the first; without a client or a listing no secret changes |
| Documents.SplitDocuments | internal/pkg/yaml/documents.go:34-42 | the pieces between separator lines that are not blank, exactly those, in order |
| Documents.SeparatorIsLine | internal/pkg/yaml/documents.go:28-29 | in any line of a text a separator begins exactly at the start of a line that is `---` |
| Documents.BlankIsTrimmed | internal/pkg/yaml/documents.go:24-40 | blank texts are those trimming newlines, tabs and spaces leaves nothing of |
| Documents.NotBlankJoin | internal/pkg/yaml/documents.go:34-42 | dropping blank pieces keeps order and repetitions |
| Documents.PiecesJoin | internal/pkg/yaml/documents.go:28-36 | the pieces with the separators put back are the text |
| Documents.Print | internal/pkg/component/component_list.go:71-81 | each document after a separator line |
| Documents.SplitOfPrinted | internal/pkg/yaml/documents.go:34-42 | splitting what was printed gives the documents back in order, each after one newline, for nonblank documents that end in a newline and have no separator line |

## Left out

- ProtocolTheorems.NoPortIsShared: speaks of components that are not being deleted, because a deletion that fails half way frees a port on the hypervisor while the stored component still lists it. Hypervisor objects are never removed: a hypervisor deleted and created again under its name would have an empty port table.
- ProtocolTheorems.ReservationSurvives: needs component names that are never used again, which the store of the model enforces.
- Deletion.ControlPlaneDeletion.RemoveEtcdMember: no other process changes the members meanwhile, and no two members have the same ID or peer URLs.
- Replicas.Controller.Reconcile: nobody else creates or deletes components of the cluster during the pass.
- VpnPeers.RunInOrder: the peers of one cluster object and its exports; the node join reconciler does not store the cluster it changed.
- StorageEndpoints.ClusterStorage.ReconcileStorageEndpoints: that endpoints differ is stated for hypervisors of which no two share an address.
- Files.CacheAgreesWithHost: writes without a record are the matter of `Files.CacheAgreesExactly`; nobody else changes the files on the host.
- Controller and resource updater are one transition system, not loops over objects: the order of writes, retries and conflicts is modelled, the walk over the maps is any order.
- A global claim that no port leaks: the finalizer is written before the hypervisor on deletion, so a crash between the two writes leaks the ports.
- Liveness and fairness: retries are "may fail and be retried"; sleeps, timeouts and backoff are not modelled.
- Failed removals of a cleanup pod that deleted part of the files: only a cleanup that succeeds as a whole is modelled.
- Clusters as stored objects, their certificates and conditions, and the dirtiness test by serialized specs, which is equality of values here.
- Certificates, keys, encryption, WireGuard configuration, pod and container construction, templates and manifests.
- Input and output endpoints of components, the api server and VPN endpoints of a cluster, and etcd learners.
- Export and import of components and hypervisors other than VPN peers; webhooks other than the finalizer they add.
- The text of addresses: an address is its bytes, and the mask after it is not part of the model.
- Bootstrap token secrets whose name does not match the ID they hold.
- Command line tools, local hypervisor sets, version bundles and generated code.
