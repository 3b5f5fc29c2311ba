/** The etcd endpoints a cluster publishes: collected from its control planes, all or nothing. */
module StorageEndpoints {
  import opened Components
  import opened Protocol
  import opened ProtocolTheorems
  import opened Endpoints

  datatype Item = Item(id: ComponentId, component: ComponentObject)

  function WithCluster(list: seq<Item>, namespace: string, cluster: string): seq<Item> {
    if list == [] then []
    else (if list[0].id.namespace == namespace && list[0].component.cluster == cluster then [list[0]] else [])
         + WithCluster(list[1..], namespace, cluster)
  }

  function WithRole(list: seq<Item>, role: Role): seq<Item> {
    if list == [] then [] else (if list[0].component.role == role then [list[0]] else []) + WithRole(list[1..], role)
  }

  function ControlPlanes(list: seq<Item>, namespace: string, cluster: string): seq<Item> {
    WithRole(WithCluster(list, namespace, cluster), ControlPlane)
  }

  /** A list of the store: every component at most once. */
  ghost predicate UniqueIds(list: seq<Item>) {
    forall i, j :: 0 <= i < j < |list| ==> list[i].id != list[j].id
  }

  predicate CanPublish(hypervisors: map<string, HypervisorObject>, c: ComponentObject) {
    c.hypervisor in hypervisors && ETCD_PEER in c.ports && ETCD_CLIENT in c.ports
  }

  predicate AllCanPublish(hypervisors: map<string, HypervisorObject>, list: seq<Item>) {
    forall x :: x in list && !x.component.deleted ==> CanPublish(hypervisors, x.component)
  }

  /** The map has exactly the undeleted control planes, each with its own endpoint. */
  ghost predicate Publishes(endpoints: map<string, string>, hypervisors: map<string, HypervisorObject>, list: seq<Item>, name: string) {
    && (forall n :: n in endpoints ==> IsOneOf(list, n))
    && (forall x :: x in list && !x.component.deleted ==> PublishedAs(endpoints, hypervisors, x, name))
  }

  /** An undeleted component of the list has this name. */
  ghost predicate IsOneOf(list: seq<Item>, n: string) {
    exists x :: x in list && !x.component.deleted && x.id.name == n
  }

  predicate PublishedAs(endpoints: map<string, string>, hypervisors: map<string, HypervisorObject>, x: Item, name: string) {
    && x.component.hypervisor in hypervisors && name in x.component.ports
    && x.id.name in endpoints && endpoints[x.id.name] == UrlOf(hypervisors, x.component, name)
  }

  /** Each published endpoint reads as the address of the control plane's hypervisor and its port of that name. */
  ghost predicate PublishesPorts(endpoints: map<string, string>, hypervisors: map<string, HypervisorObject>, list: seq<Item>, name: string) {
    forall x :: x in list && !x.component.deleted ==>
      && x.component.hypervisor in hypervisors && name in x.component.ports && x.id.name in endpoints
      && ReadsAs(endpoints[x.id.name], hypervisors[x.component.hypervisor].ipAddress, x.component.ports[name])
  }

  class ClusterStorage {
    const namespace: string
    const name: string
    const controlPlaneReplicas: int
    var storagePeerEndpoints: map<string, string>
    var storageClientEndpoints: map<string, string>

    constructor (namespace: string, name: string, replicas: int)
      ensures this.namespace == namespace && this.name == name && controlPlaneReplicas == replicas
      ensures storagePeerEndpoints == map[] && storageClientEndpoints == map[]
    {
      this.namespace, this.name, controlPlaneReplicas := namespace, name, replicas;
      storagePeerEndpoints, storageClientEndpoints := map[], map[];
    }

    /** Succeeds exactly when the number of control planes, deleted ones counted, is the desired one and every undeleted
        one is on a known hypervisor with both ports. Then both maps are rewritten; otherwise neither is. */
    method ReconcileStorageEndpoints(list: seq<Item>, hypervisors: map<string, HypervisorObject>) returns (ok: bool)
      requires UniqueIds(list)
      modifies this
      ensures ok <==>
        var planes := ControlPlanes(list, namespace, name);
        && controlPlaneReplicas == |planes|
        && forall x :: x in planes && !x.component.deleted ==>
             x.component.hypervisor in hypervisors && ETCD_PEER in x.component.ports && ETCD_CLIENT in x.component.ports
      ensures !ok ==> storagePeerEndpoints == old(storagePeerEndpoints) && storageClientEndpoints == old(storageClientEndpoints)
      ensures ok ==> Publishes(storagePeerEndpoints, hypervisors, ControlPlanes(list, namespace, name), ETCD_PEER)
      ensures ok ==> Publishes(storageClientEndpoints, hypervisors, ControlPlanes(list, namespace, name), ETCD_CLIENT)
      ensures ok ==> PublishesPorts(storagePeerEndpoints, hypervisors, ControlPlanes(list, namespace, name), ETCD_PEER)
      ensures ok ==> PublishesPorts(storageClientEndpoints, hypervisors, ControlPlanes(list, namespace, name), ETCD_CLIENT)
      ensures ok && PortsApart(list) && AddressesApart(hypervisors) ==> AllDifferent(storagePeerEndpoints, storageClientEndpoints)
    {
      var planes := ControlPlanes(list, namespace, name);
      if controlPlaneReplicas != |planes| { return false; }
      PlanesAreListed(list, namespace, name);
      var peers, clients;
      ok, peers, clients := Collect(planes, hypervisors);
      if ok {
        storagePeerEndpoints, storageClientEndpoints := peers, clients;
        PublishedPorts(peers, hypervisors, planes, ETCD_PEER);
        PublishedPorts(clients, hypervisors, planes, ETCD_CLIENT);
        if PortsApart(list) && AddressesApart(hypervisors) { PublishedApart(list, hypervisors, namespace, name, peers, clients); }
      }
    }
  }

  method Collect(planes: seq<Item>, hypervisors: map<string, HypervisorObject>)
    returns (ok: bool, peers: map<string, string>, clients: map<string, string>)
    requires NamesApart(planes)
    ensures ok <==> AllCanPublish(hypervisors, planes)
    ensures ok ==> Publishes(peers, hypervisors, planes, ETCD_PEER) && Publishes(clients, hypervisors, planes, ETCD_CLIENT)
  {
    peers, clients := map[], map[];
    for i := 0 to |planes|
      invariant AllCanPublish(hypervisors, planes[..i])
      invariant Publishes(peers, hypervisors, planes[..i], ETCD_PEER)
      invariant Publishes(clients, hypervisors, planes[..i], ETCD_CLIENT)
    {
      var c := planes[i].component;
      assert planes[..i + 1] == planes[..i] + [planes[i]];
      if !c.deleted {
        if !CanPublish(hypervisors, c) {
          assert planes[i] in planes;
          return false, peers, clients;
        }
        PublishOne(peers, hypervisors, planes, i, ETCD_PEER);
        PublishOne(clients, hypervisors, planes, i, ETCD_CLIENT);
        peers := peers[planes[i].id.name := UrlOf(hypervisors, c, ETCD_PEER)];
        clients := clients[planes[i].id.name := UrlOf(hypervisors, c, ETCD_CLIENT)];
      }
    }
    assert planes[..|planes|] == planes;
    return true, peers, clients;
  }

  // ---------------------------------------------------------------------------------------------
  // Properties

  lemma {:induction false} ClusterIsListed(list: seq<Item>, namespace: string, cluster: string)
    ensures forall x :: x in WithCluster(list, namespace, cluster) <==>
      x in list && x.id.namespace == namespace && x.component.cluster == cluster
    ensures UniqueIds(list) ==> UniqueIds(WithCluster(list, namespace, cluster))
  {
    if list == [] {
    } else {
      ClusterIsListed(list[1..], namespace, cluster);
      if UniqueIds(list) { FirstIsOther(list); }
    }
  }

  lemma {:induction false} RoleIsListed(list: seq<Item>, role: Role)
    ensures forall x :: x in WithRole(list, role) <==> x in list && x.component.role == role
    ensures UniqueIds(list) ==> UniqueIds(WithRole(list, role))
  {
    if list == [] {
    } else {
      RoleIsListed(list[1..], role);
      if UniqueIds(list) { FirstIsOther(list); }
    }
  }

  lemma {:induction false} FirstIsOther(list: seq<Item>)
    requires list != [] && UniqueIds(list)
    ensures UniqueIds(list[1..]) && forall x :: x in list[1..] ==> x.id != list[0].id
  {
    forall x | x in list[1..] ensures x.id != list[0].id {
      var i :| 0 <= i < |list| - 1 && list[1..][i] == x;
      assert list[i + 1] == x;
    }
  }

  /** The control planes of the cluster, each once, with different names. */
  lemma {:induction false} PlanesAreListed(list: seq<Item>, namespace: string, cluster: string)
    requires UniqueIds(list)
    ensures var planes := ControlPlanes(list, namespace, cluster);
      && (forall x :: x in planes <==>
            x in list && x.id.namespace == namespace && x.component.cluster == cluster && x.component.role == ControlPlane)
      && NamesApart(planes)
  {
    ClusterIsListed(list, namespace, cluster);
    RoleIsListed(WithCluster(list, namespace, cluster), ControlPlane);
  }

  ghost predicate NamesApart(planes: seq<Item>) {
    forall i, j :: 0 <= i < j < |planes| ==> planes[i].id.name != planes[j].id.name
  }

  lemma {:induction false} PublishOne(endpoints: map<string, string>, hypervisors: map<string, HypervisorObject>,
                                      planes: seq<Item>, i: nat, name: string)
    requires NamesApart(planes) && i < |planes| && Publishes(endpoints, hypervisors, planes[..i], name)
    requires var c := planes[i].component; !c.deleted && c.hypervisor in hypervisors && name in c.ports
    ensures var url := UrlOf(hypervisors, planes[i].component, name);
      Publishes(endpoints[planes[i].id.name := url], hypervisors, planes[..i + 1], name)
  {
    var longer := endpoints[planes[i].id.name := UrlOf(hypervisors, planes[i].component, name)];
    assert planes[..i + 1] == planes[..i] + [planes[i]];
    forall n | n in longer ensures IsOneOf(planes[..i + 1], n) {
      if n == planes[i].id.name {
        assert planes[i] in planes[..i + 1];
      } else {
        assert IsOneOf(planes[..i], n);
        var x :| x in planes[..i] && !x.component.deleted && x.id.name == n;
        assert x in planes[..i + 1];
      }
    }
    forall x | x in planes[..i + 1] && !x.component.deleted ensures PublishedAs(longer, hypervisors, x, name) {
      if x != planes[i] {
        var j :| 0 <= j < i && planes[..i][j] == x;
        assert planes[j] == x && PublishedAs(endpoints, hypervisors, x, name);
      }
    }
  }

  lemma {:induction false} PublishedPorts(endpoints: map<string, string>, hypervisors: map<string, HypervisorObject>,
      list: seq<Item>, name: string)
    requires Publishes(endpoints, hypervisors, list, name)
    ensures PublishesPorts(endpoints, hypervisors, list, name)
  {
    forall x | x in list && !x.component.deleted
      ensures PublishedAs(endpoints, hypervisors, x, name)
      ensures ReadsAs(endpoints[x.id.name], hypervisors[x.component.hypervisor].ipAddress, x.component.ports[name])
    {
      UrlOfReadsBack(hypervisors, x.component, name);
    }
  }

  ghost predicate SamePort(x: Item, n: string, y: Item, m: string) {
    && !x.component.deleted && !y.component.deleted && x.component.hypervisor == y.component.hypervisor
    && n in x.component.ports && m in y.component.ports && x.component.ports[n] == y.component.ports[m]
  }

  /** No two undeleted components on one hypervisor list the same port, and none lists a port twice. */
  ghost predicate PortsApart(list: seq<Item>) {
    forall x, n, y, m :: x in list && y in list && SamePort(x, n, y, m) ==> x.id == y.id && n == m
  }

  /** No endpoint is published twice, not even once as a peer and once as a client endpoint. */
  ghost predicate AllDifferent(peers: map<string, string>, clients: map<string, string>) {
    && (forall n, m :: n in peers && m in peers && n != m ==> peers[n] != peers[m])
    && (forall n, m :: n in clients && m in clients && n != m ==> clients[n] != clients[m])
    && (forall n, m :: n in peers && m in clients ==> peers[n] != clients[m])
  }

  lemma {:induction false} SameUrlSamePort(hypervisors: map<string, HypervisorObject>, x: Item, n: string, y: Item, m: string)
    requires AddressesApart(hypervisors) && !x.component.deleted && !y.component.deleted
    requires x.component.hypervisor in hypervisors && n in x.component.ports
    requires y.component.hypervisor in hypervisors && m in y.component.ports
    requires UrlOf(hypervisors, x.component, n) == UrlOf(hypervisors, y.component, m)
    ensures SamePort(x, n, y, m)
  {
    UrlInjective(hypervisors[x.component.hypervisor].ipAddress, x.component.ports[n],
                 hypervisors[y.component.hypervisor].ipAddress, y.component.ports[m]);
  }

  /** Two published endpoints are equal only if they are the same endpoint of the same component. */
  lemma {:induction false} SameEndpoint(planes: seq<Item>, hypervisors: map<string, HypervisorObject>,
      e1: map<string, string>, n1: string, k1: string, e2: map<string, string>, n2: string, k2: string)
    requires PortsApart(planes) && AddressesApart(hypervisors)
    requires Publishes(e1, hypervisors, planes, k1) && Publishes(e2, hypervisors, planes, k2)
    requires n1 in e1 && n2 in e2 && e1[n1] == e2[n2]
    ensures n1 == n2 && k1 == k2
  {
    assert IsOneOf(planes, n1) && IsOneOf(planes, n2);
    var x :| x in planes && !x.component.deleted && x.id.name == n1;
    var y :| y in planes && !y.component.deleted && y.id.name == n2;
    assert PublishedAs(e1, hypervisors, x, k1) && PublishedAs(e2, hypervisors, y, k2);
    SameUrlSamePort(hypervisors, x, k1, y, k2);
  }

  lemma {:induction false} PublishedApart(list: seq<Item>, hypervisors: map<string, HypervisorObject>,
      namespace: string, cluster: string, peers: map<string, string>, clients: map<string, string>)
    requires UniqueIds(list) && PortsApart(list) && AddressesApart(hypervisors)
    requires Publishes(peers, hypervisors, ControlPlanes(list, namespace, cluster), ETCD_PEER)
    requires Publishes(clients, hypervisors, ControlPlanes(list, namespace, cluster), ETCD_CLIENT)
    ensures AllDifferent(peers, clients)
  {
    PlanesAreListed(list, namespace, cluster);
    var planes := ControlPlanes(list, namespace, cluster);
    forall n, m | n in peers && m in peers && n != m ensures peers[n] != peers[m] {
      if peers[n] == peers[m] { SameEndpoint(planes, hypervisors, peers, n, ETCD_PEER, peers, m, ETCD_PEER); }
    }
    forall n, m | n in clients && m in clients && n != m ensures clients[n] != clients[m] {
      if clients[n] == clients[m] { SameEndpoint(planes, hypervisors, clients, n, ETCD_CLIENT, clients, m, ETCD_CLIENT); }
    }
    forall n, m | n in peers && m in clients ensures peers[n] != clients[m] {
      if peers[n] == clients[m] { SameEndpoint(planes, hypervisors, peers, n, ETCD_PEER, clients, m, ETCD_CLIENT); }
    }
  }

  /** What a reader of the store gets has its ports apart, at any point of any run. So what a cluster publishes never
      names one endpoint twice, as long as no two hypervisors share an address. */
  lemma {:induction false} ReadFromStoreApart(events: seq<Event>, list: seq<Item>)
    requires var st := Execute(INITIAL, events).store;
      forall x :: x in list ==> x.id in st.components && st.components[x.id] == x.component
    ensures PortsApart(list)
  {
    var st := Execute(INITIAL, events).store;
    forall x, n, y, m | x in list && y in list && SamePort(x, n, y, m) ensures x.id == y.id && n == m {
      var h, port := x.component.hypervisor, x.component.ports[n];
      assert Lists(st, x.id, h, n, port) && Lists(st, y.id, h, m, port);
      NoPortIsShared(events, h, port, x.id, n, y.id, m);
    }
  }
}
