/** Control plane components: the names of their host ports, and the table of ports a component records for itself. */
module Components {
  import opened Options
  import opened Ports
  import opened Hypervisors

  datatype Role = ControlPlane | ControlPlaneIngress | UnknownRole

  /** Namespace and name of a component. */
  datatype ComponentId = ComponentId(namespace: string, name: string)

  const API_SERVER := "apiserver"
  const ETCD_PEER := "etcd-peer"
  const ETCD_CLIENT := "etcd-client"
  const WIREGUARD := "wireguard"

  predicate IsPortName(name: string) {
    name == API_SERVER || name == ETCD_PEER || name == ETCD_CLIENT || name == WIREGUARD
  }

  /** The host ports a component of this role uses, in the order they are requested. */
  function PortNames(role: Role, vpn: bool): (names: seq<string>)
    ensures forall n :: n in names ==> IsPortName(n)
  {
    match role
    case ControlPlane => [API_SERVER, ETCD_PEER, ETCD_CLIENT]
    case ControlPlaneIngress => if vpn then [API_SERVER, WIREGUARD] else [API_SERVER]
    case UnknownRole => []
  }

  /** `WithSubcomponentName` */
  function WithSubcomponentName(component: string, name: string): string {
    component + "-" + name
  }

  /** The key under which a component holds a named port. */
  function KeyOf(id: ComponentId, cluster: string, name: string): PortKey {
    PortKey(id.namespace, cluster, WithSubcomponentName(id.name, name))
  }

  predicate EndsWith(s: string, end: string) {
    |end| <= |s| && s[|s| - |end|..] == end
  }

  /** The port name a text ends with, after a dash. */
  function NameIn(s: string): Option<string> {
    if EndsWith(s, "-apiserver") then Some("apiserver")
    else if EndsWith(s, "-etcd-peer") then Some("etcd-peer")
    else if EndsWith(s, "-etcd-client") then Some("etcd-client")
    else if EndsWith(s, "-wireguard") then Some("wireguard")
    else None
  }

  /** Reads a key: the component and the cluster it belongs to, and the name of the port. */
  function HolderOf(key: PortKey): Option<(ComponentId, string, string)> {
    var s, n := key.component, NameIn(key.component);
    if n.None? || |n.value| >= |s| then None
    else Some((ComponentId(key.clusterNamespace, s[..|s| - |n.value| - 1]), key.cluster, n.value))
  }

  /** The four names are told apart by their last letters. */
  lemma {:induction false} LastsDiffer(s: string, m: string, n: string)
    requires IsPortName(m) && IsPortName(n) && EndsWith(s, m) && EndsWith(s, "-" + n)
    ensures m == n
  {
    assert s[|s| - 1] == m[|m| - 1] == ("-" + n)[|n|];
    assert s[|s| - 3] == m[|m| - 3] == ("-" + n)[|n| - 2];
  }

  lemma {:induction false} NameFound(s: string, name: string)
    requires IsPortName(name) && EndsWith(s, name) && EndsWith(s, "-" + name)
    ensures NameIn(s) == Some(name)
  {
    assert "-" + "apiserver" == "-apiserver" && "-" + "etcd-peer" == "-etcd-peer";
    assert "-" + "etcd-client" == "-etcd-client" && "-" + "wireguard" == "-wireguard";
    if EndsWith(s, "-apiserver") { LastsDiffer(s, name, "apiserver"); }
    else if EndsWith(s, "-etcd-peer") { LastsDiffer(s, name, "etcd-peer"); }
    else if EndsWith(s, "-etcd-client") { LastsDiffer(s, name, "etcd-client"); }
    else { assert name == "wireguard"; }
  }

  /** A key of one of the four port names reads back as the component, the cluster and the name it was made of. */
  lemma {:induction false} KeyReadsBack(id: ComponentId, cluster: string, name: string)
    requires IsPortName(name)
    ensures HolderOf(KeyOf(id, cluster, name)) == Some((id, cluster, name))
  {
    var s := WithSubcomponentName(id.name, name);
    assert s[|s| - |name|..] == name && s[|s| - |name| - 1..] == "-" + name;
    NameFound(s, name);
    assert s[..|s| - |name| - 1] == id.name;
  }

  /** Keys built from the four port names never clash: neither across components nor across names. */
  lemma {:induction false} KeysNeverClash(id1: ComponentId, c1: string, n1: string, id2: ComponentId, c2: string, n2: string)
    requires IsPortName(n1) && IsPortName(n2)
    requires KeyOf(id1, c1, n1) == KeyOf(id2, c2, n2)
    ensures id1 == id2 && c1 == c2 && n1 == n2
  {
    KeyReadsBack(id1, c1, n1);
    KeyReadsBack(id2, c2, n2);
  }

  /** With other port names the keys do clash: port "a" of component "c-b" and port "b-a" of component "c". */
  lemma {:induction false} ArbitraryNamesClash(namespace: string, cluster: string)
    ensures KeyOf(ComponentId(namespace, "c-b"), cluster, "a") == KeyOf(ComponentId(namespace, "c"), cluster, "b-a")
  {
    assert "c-b" + "-" + "a" == "c" + "-" + "b-a";
  }

  // ---------------------------------------------------------------------------------------------
  // Component and hypervisor together

  datatype PortsAnswer = Have(port: int, ports: map<string, int>, table: PortTable) | Refused

  /** `Component.RequestPort`: the port recorded by the component, else one requested from the hypervisor. */
  function RequestNamed(ports: map<string, int>, table: PortTable, key: PortKey, name: string): PortsAnswer {
    if name in ports then Have(ports[name], ports, table)
    else match Request(table, key)
      case Granted(port, table') => Have(port, ports[name := port], table')
      case NoPorts => Refused
  }

  /** `Component.FreePort`: frees the key of a recorded port and forgets the record. */
  function FreeNamed(ports: map<string, int>, table: PortTable, key: PortKey, name: string): (map<string, int>, PortTable) {
    if name in ports then (ports - {name}, Free(table, key)) else (ports, table)
  }

  datatype PreAnswer = Ready(ports: map<string, int>, table: PortTable) | NotReady

  /** The port requests of `PreReconcile`, in order, stopping at the first that is refused. */
  function RequestAll(ports: map<string, int>, table: PortTable, id: ComponentId, cluster: string, names: seq<string>): PreAnswer
    decreases |names|
  {
    if names == [] then Ready(ports, table)
    else match RequestNamed(ports, table, KeyOf(id, cluster, names[0]), names[0])
      case Have(_, ports', table') => RequestAll(ports', table', id, cluster, names[1..])
      case Refused => NotReady
  }

  /** What the requests come to, the ones granted before a refusal included. */
  function RequestedSoFar(ports: map<string, int>, table: PortTable, id: ComponentId, cluster: string, names: seq<string>)
    : (map<string, int>, PortTable)
    decreases |names|
  {
    if names == [] then (ports, table)
    else match RequestNamed(ports, table, KeyOf(id, cluster, names[0]), names[0])
      case Have(_, ports', table') => RequestedSoFar(ports', table', id, cluster, names[1..])
      case Refused => (ports, table)
  }

  /** The table holds this port under the key of the component. */
  predicate HoldsFor(table: PortTable, id: ComponentId, cluster: string, name: string, port: int) {
    KeyOf(id, cluster, name) in Held(table) && Held(table)[KeyOf(id, cluster, name)] == port
  }

  predicate KeepsAll(before: PortTable, after: PortTable) {
    forall key :: key in Held(before) ==> key in Held(after) && Held(after)[key] == Held(before)[key]
  }

  /** Granted ports stay reserved, refused or not: nothing recorded or held before is lost, and every port recorded since is
      one of the names and held for the component. */
  lemma {:induction false} GrantedStayReserved(ports: map<string, int>, table: PortTable, id: ComponentId, cluster: string, names: seq<string>)
    ensures var (ports', table') := RequestedSoFar(ports, table, id, cluster, names);
      && (forall n :: n in ports ==> n in ports' && ports'[n] == ports[n])
      && KeepsAll(table, table')
      && (forall n :: n in ports' && n !in ports ==> n in names && HoldsFor(table', id, cluster, n, ports'[n]))
    decreases |names|
  {
    if names == [] {
    } else {
      var key := KeyOf(id, cluster, names[0]);
      RequestEffect(table, key);
      var r := RequestNamed(ports, table, key, names[0]);
      if r.Have? {
        GrantedStayReserved(r.ports, r.table, id, cluster, names[1..]);
        assert KeepsAll(table, r.table);
        if names[0] !in ports { assert HoldsFor(r.table, id, cluster, names[0], r.ports[names[0]]); }
      }
    }
  }

  lemma {:induction false} ReadyIsSoFar(ports: map<string, int>, table: PortTable, id: ComponentId, cluster: string, names: seq<string>)
    ensures var r := RequestAll(ports, table, id, cluster, names);
      r.Ready? ==> (r.ports, r.table) == RequestedSoFar(ports, table, id, cluster, names)
    decreases |names|
  {
    if names == [] {
    } else {
      var r := RequestNamed(ports, table, KeyOf(id, cluster, names[0]), names[0]);
      if r.Have? { ReadyIsSoFar(r.ports, r.table, id, cluster, names[1..]); }
    }
  }

  /** When none is refused every name is recorded. */
  lemma {:induction false} ReadyHasAll(ports: map<string, int>, table: PortTable, id: ComponentId, cluster: string, names: seq<string>)
    ensures var r := RequestAll(ports, table, id, cluster, names);
      r.Ready? ==> (forall n :: n in ports || n in names ==> n in r.ports)
    decreases |names|
  {
    if names == [] {
    } else {
      var r := RequestNamed(ports, table, KeyOf(id, cluster, names[0]), names[0]);
      if r.Have? { ReadyHasAll(r.ports, r.table, id, cluster, names[1..]); }
    }
  }

  /** No other name is recorded than those asked for. */
  lemma {:induction false} SoFarRecords(ports: map<string, int>, table: PortTable, id: ComponentId, cluster: string, names: seq<string>, n: string)
    ensures n in RequestedSoFar(ports, table, id, cluster, names).0 ==> n in ports || n in names
    decreases |names|
  {
    if names == [] {
    } else {
      var r := RequestNamed(ports, table, KeyOf(id, cluster, names[0]), names[0]);
      if r.Have? { SoFarRecords(r.ports, r.table, id, cluster, names[1..], n); }
    }
  }

  predicate DistinctNames(names: seq<string>) {
    && (forall n :: n in names ==> IsPortName(n))
    && forall i, j :: 0 <= i < j < |names| ==> names[i] != names[j]
  }

  /** A name is recorded only after those before it. */
  lemma {:induction false} SoFarInOrder(ports: map<string, int>, table: PortTable, id: ComponentId, cluster: string,
      names: seq<string>, i: nat, j: nat)
    requires i < j < |names| && DistinctNames(names)
    ensures var ports' := RequestedSoFar(ports, table, id, cluster, names).0;
      names[j] in ports' && names[j] !in ports ==> names[i] in ports'
    decreases |names|
  {
    var r := RequestNamed(ports, table, KeyOf(id, cluster, names[0]), names[0]);
    if r.Have? {
      GrantedStayReserved(r.ports, r.table, id, cluster, names[1..]);
      if i > 0 { SoFarInOrder(r.ports, r.table, id, cluster, names[1..], i - 1, j - 1); }
    }
  }

  /** The ports of a role: the api server and the two of etcd for a control plane, the api server and, with a VPN, wireguard
      for an ingress. */
  predicate RecordsRole(before: set<string>, after: set<string>, role: Role, vpn: bool) {
    && (role == ControlPlane ==> after == before + {API_SERVER, ETCD_PEER, ETCD_CLIENT})
    && (role == ControlPlaneIngress ==> after == before + if vpn then {API_SERVER, WIREGUARD} else {API_SERVER})
  }

  /** The order in which they are requested. */
  predicate RecordedInOrder(before: set<string>, after: set<string>) {
    && (ETCD_PEER in after && ETCD_PEER !in before ==> API_SERVER in after)
    && (ETCD_CLIENT in after && ETCD_CLIENT !in before ==> ETCD_PEER in after)
    && (WIREGUARD in after && WIREGUARD !in before ==> API_SERVER in after)
  }

  lemma {:induction false} NamesAre(role: Role, vpn: bool)
    ensures var names := PortNames(role, vpn);
      && (role == ControlPlane ==> |names| == 3 && names[0] == API_SERVER && names[1] == ETCD_PEER && names[2] == ETCD_CLIENT)
      && (role == ControlPlaneIngress ==> names[0] == API_SERVER && if vpn then |names| == 2 && names[1] == WIREGUARD else |names| == 1)
  {
  }

  lemma {:induction false} RoleIsRecorded(ports: map<string, int>, table: PortTable, id: ComponentId, cluster: string, role: Role, vpn: bool)
    ensures var r := RequestAll(ports, table, id, cluster, PortNames(role, vpn));
      r.Ready? ==> RecordsRole(ports.Keys, r.ports.Keys, role, vpn)
  {
    var names := PortNames(role, vpn);
    ReadyIsSoFar(ports, table, id, cluster, names);
    ReadyHasAll(ports, table, id, cluster, names);
    forall n | n in RequestedSoFar(ports, table, id, cluster, names).0 ensures n in ports || n in names {
      SoFarRecords(ports, table, id, cluster, names, n);
    }
    NamesAre(role, vpn);
  }

  lemma {:induction false} RoleInOrder(ports: map<string, int>, table: PortTable, id: ComponentId, cluster: string, role: Role, vpn: bool)
    ensures RecordedInOrder(ports.Keys, RequestedSoFar(ports, table, id, cluster, PortNames(role, vpn)).0.Keys)
  {
    var names := PortNames(role, vpn);
    var ports' := RequestedSoFar(ports, table, id, cluster, names).0;
    forall n | n in ports' ensures n in ports || n in names { SoFarRecords(ports, table, id, cluster, names, n); }
    NamesAre(role, vpn);
    if |names| > 1 { SoFarInOrder(ports, table, id, cluster, names, 0, 1); }
    if |names| > 2 { SoFarInOrder(ports, table, id, cluster, names, 1, 2); }
  }

  /** How many of these names need a port they do not hold yet. */
  function Needed(ports: map<string, int>, table: PortTable, id: ComponentId, cluster: string, names: seq<string>): nat {
    if names == [] then 0
    else (if names[0] in ports || KeyOf(id, cluster, names[0]) in Held(table) then 0 else 1)
         + Needed(ports, table, id, cluster, names[1..])
  }

  /** A request of another name leaves what is needed as it is. */
  lemma {:induction false} NeededStays(ports: map<string, int>, table: PortTable, id: ComponentId, cluster: string, names: seq<string>, n: string)
    requires IsPortName(n) && (forall m :: m in names ==> IsPortName(m) && m != n)
    ensures var r := RequestNamed(ports, table, KeyOf(id, cluster, n), n);
      r.Have? ==> Needed(r.ports, r.table, id, cluster, names) == Needed(ports, table, id, cluster, names)
  {
    if names == [] {
    } else {
      NeededStays(ports, table, id, cluster, names[1..], n);
      RequestEffect(table, KeyOf(id, cluster, n));
      assert names[0] in names;
      if KeyOf(id, cluster, names[0]) == KeyOf(id, cluster, n) { KeysNeverClash(id, cluster, names[0], id, cluster, n); }
    }
  }

  lemma {:induction false} OneNeeded(ports: map<string, int>, table: PortTable, key: PortKey, n: string)
    requires Valid(table)
    ensures var r := RequestNamed(ports, table, key, n); var isNew := n !in ports && key !in Held(table);
      && (r.Refused? <==> isNew && |table.allocations| == Capacity(table))
      && (r.Have? ==> Valid(r.table) && Capacity(r.table) == Capacity(table)
                      && |r.table.allocations| == |table.allocations| + if isNew then 1 else 0)
  {
    RequestKeepsValid(table, key);
    RequestEffect(table, key);
  }

  /** All names are granted exactly when the hypervisor has a free port for each one that needs one. */
  lemma {:induction false} ReadyExactly(ports: map<string, int>, table: PortTable, id: ComponentId, cluster: string, names: seq<string>)
    requires Valid(table) && DistinctNames(names)
    ensures RequestAll(ports, table, id, cluster, names).Ready? <==>
      |table.allocations| + Needed(ports, table, id, cluster, names) <= Capacity(table)
    decreases |names|
  {
    if names == [] {
    } else {
      var n, rest := names[0], names[1..];
      var r := RequestNamed(ports, table, KeyOf(id, cluster, n), n);
      assert n in names;
      forall m | m in rest ensures IsPortName(m) && m != n { assert m in names; }
      OneNeeded(ports, table, KeyOf(id, cluster, n), n);
      if r.Have? {
        NeededStays(ports, table, id, cluster, rest, n);
        ReadyExactly(r.ports, r.table, id, cluster, rest);
      }
    }
  }

  class Component {
    const id: ComponentId
    const clusterName: string
    var allocatedHostPorts: map<string, int>

    constructor (id: ComponentId, clusterName: string)
      ensures this.id == id && this.clusterName == clusterName && allocatedHostPorts == map[]
    {
      this.id, this.clusterName, allocatedHostPorts := id, clusterName, map[];
    }

    /** Returns the recorded port, or requests one under the key of this component and records it. */
    method RequestPort(hypervisor: Hypervisor, name: string) returns (answer: Option<int>)
      requires Valid(hypervisor.Ports())
      modifies this`allocatedHostPorts, hypervisor`allocatedPorts, hypervisor`freedPorts
      ensures Valid(hypervisor.Ports())
      ensures match RequestNamed(old(allocatedHostPorts), old(hypervisor.Ports()), KeyOf(id, clusterName, name), name)
              case Have(port, ports, table) => answer == Some(port) && allocatedHostPorts == ports && hypervisor.Ports() == table
              case Refused => answer == None && allocatedHostPorts == old(allocatedHostPorts) && hypervisor.Ports() == old(hypervisor.Ports())
    {
      if name in allocatedHostPorts { return Some(allocatedHostPorts[name]); }
      answer := hypervisor.RequestPort(KeyOf(id, clusterName, name));
      if answer.Some? { allocatedHostPorts := allocatedHostPorts[name := answer.value]; }
    }

    /** Frees the port on the hypervisor and forgets it; nothing happens for a port that is not recorded. */
    method FreePort(hypervisor: Hypervisor, name: string)
      requires Valid(hypervisor.Ports())
      modifies this`allocatedHostPorts, hypervisor`allocatedPorts, hypervisor`freedPorts
      ensures Valid(hypervisor.Ports())
      ensures (allocatedHostPorts, hypervisor.Ports()) ==
        FreeNamed(old(allocatedHostPorts), old(hypervisor.Ports()), KeyOf(id, clusterName, name), name)
    {
      if name !in allocatedHostPorts { return; }
      hypervisor.FreePort(KeyOf(id, clusterName, name));
      allocatedHostPorts := allocatedHostPorts - {name};
    }

    /** Reserves every port the role needs, and succeeds exactly when the hypervisor has a port for each: then the ports of
        the role are recorded, and those that were not before are held. On refusal the ports granted so far stay reserved. Before a
        hypervisor is assigned, or for an unknown role, nothing is requested and it fails. */
    method PreReconcile(hypervisorName: string, hypervisor: Hypervisor, role: Role, vpn: bool) returns (ok: bool)
      requires Valid(hypervisor.Ports())
      modifies this`allocatedHostPorts, hypervisor`allocatedPorts, hypervisor`freedPorts
      ensures Valid(hypervisor.Ports())
      ensures hypervisorName == "" || role == UnknownRole ==>
        !ok && allocatedHostPorts == old(allocatedHostPorts) && hypervisor.Ports() == old(hypervisor.Ports())
      ensures hypervisorName != "" && role != UnknownRole ==>
        && ok == RequestAll(old(allocatedHostPorts), old(hypervisor.Ports()), id, clusterName, PortNames(role, vpn)).Ready?
        && (allocatedHostPorts, hypervisor.Ports()) ==
             RequestedSoFar(old(allocatedHostPorts), old(hypervisor.Ports()), id, clusterName, PortNames(role, vpn))
      ensures ok ==> forall n :: n in PortNames(role, vpn) ==>
        && n in allocatedHostPorts
        && (n !in old(allocatedHostPorts) ==> HoldsFor(hypervisor.Ports(), id, clusterName, n, allocatedHostPorts[n]))
      ensures ok ==> RecordsRole(old(allocatedHostPorts).Keys, allocatedHostPorts.Keys, role, vpn)
      ensures RecordedInOrder(old(allocatedHostPorts).Keys, allocatedHostPorts.Keys)
      ensures hypervisorName != "" && role != UnknownRole ==>
        (ok <==> var table := old(hypervisor.Ports());
          |table.allocations| + Needed(old(allocatedHostPorts), table, id, clusterName, PortNames(role, vpn)) <= Capacity(table))
    {
      if role == UnknownRole || hypervisorName == "" { return false; }
      var names := PortNames(role, vpn);
      ghost var ports, table := allocatedHostPorts, hypervisor.Ports();
      ReadyIsSoFar(ports, table, id, clusterName, names);
      ReadyHasAll(ports, table, id, clusterName, names);
      GrantedStayReserved(ports, table, id, clusterName, names);
      RoleIsRecorded(ports, table, id, clusterName, role, vpn);
      RoleInOrder(ports, table, id, clusterName, role, vpn);
      ReadyExactly(ports, table, id, clusterName, names);
      for i := 0 to |names|
        invariant Valid(hypervisor.Ports())
        invariant RequestAll(ports, table, id, clusterName, names) ==
          RequestAll(allocatedHostPorts, hypervisor.Ports(), id, clusterName, names[i..])
        invariant RequestedSoFar(ports, table, id, clusterName, names) ==
          RequestedSoFar(allocatedHostPorts, hypervisor.Ports(), id, clusterName, names[i..])
      {
        var answer := RequestPort(hypervisor, names[i]);
        if answer.None? { return false; }
        assert names[i..][1..] == names[i + 1..];
      }
      return true;
    }
  }
}
