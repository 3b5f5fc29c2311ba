/** The steps of a deletion on the copies a worker holds: each is one of the port requests and frees of the protocol, or
    drops the record of the component's files. */
module DeletionSteps {
  import opened Ports
  import opened Paths
  import Files
  import opened Components
  import opened Protocol
  import opened ProtocolInvariant
  import opened ProtocolSafety
  import opened Endpoints

  datatype EtcdMember = EtcdMember(id: nat, peerUrls: seq<string>)

  /** The outcomes of one attempt to remove a member: listing the members, connecting, and the removal, which may have
      been applied even if the call failed. */
  datatype Attempt = Attempt(listed: bool, connected: bool, removed: bool, applied: bool)

  const ATTEMPTS := 60

  predicate Scheduled(w: Worker) {
    w.target in w.components && w.components[w.target].hypervisor in w.hypervisors
  }

  function TargetTable(w: Worker): PortTable
    requires Scheduled(w)
  {
    w.hypervisors[w.components[w.target].hypervisor].ports
  }

  function TargetKey(w: Worker, name: string): PortKey
    requires w.target in w.components
  {
    KeyOf(w.target, w.components[w.target].cluster, name)
  }

  /** The hypervisor holds a port for the target under this name. */
  predicate IsHeld(w: Worker, name: string)
    requires Scheduled(w)
  {
    TargetKey(w, name) in Held(TargetTable(w))
  }

  /** Held for the target, but not recorded by it: a reservation whose second write was lost. */
  predicate Stray(w: Worker, name: string)
    requires Scheduled(w)
  {
    IsHeld(w, name) && name !in w.components[w.target].ports
  }

  ghost predicate SameStrays(w: Worker, w': Worker)
    requires Scheduled(w) && Scheduled(w')
  {
    forall n :: IsPortName(n) ==> (Stray(w', n) <==> Stray(w, n))
  }

  // ---------------------------------------------------------------------------------------------
  // What steps of a deletion may do

  predicate SameKey(x: PortTable, y: PortTable, key: PortKey) {
    KeepsKey(x, y, key) && KeepsKey(y, x, key)
  }

  predicate PortKept(x: PortTable, y: PortTable, port: int) {
    Owned(x)[port] <= Owned(y)[port]
  }

  /** No port is lost, and no component but the target loses a port. */
  ghost predicate TableMoves(target: ComponentId, x: PortTable, y: PortTable) {
    && (forall port :: PortKept(x, y, port))
    && forall id, cluster, n :: OthersKept(target, x, y, id, cluster, n)
  }

  predicate OthersKept(target: ComponentId, x: PortTable, y: PortTable, id: ComponentId, cluster: string, n: string) {
    IsPortName(n) && id != target ==> KeepsKey(x, y, KeyOf(id, cluster, n))
  }

  ghost predicate HypervisorMoves(target: ComponentId, x: HypervisorObject, y: HypervisorObject) {
    SameSpec(x, y) && Valid(y.ports) && TableMoves(target, x.ports, y.ports)
  }

  ghost predicate HypervisorsMove(target: ComponentId, x: map<string, HypervisorObject>, y: map<string, HypervisorObject>) {
    x.Keys == y.Keys && forall h :: MovedAt(target, x, y, h)
  }

  ghost predicate MovedAt(target: ComponentId, x: map<string, HypervisorObject>, y: map<string, HypervisorObject>, h: string)
    requires x.Keys == y.Keys
  {
    h in x ==> HypervisorMoves(target, x[h], y[h])
  }

  ghost predicate ComponentsMove(x: map<ComponentId, ComponentObject>, y: map<ComponentId, ComponentObject>) {
    x.Keys == y.Keys && forall id :: SameAt(x, y, id)
  }

  ghost predicate SameAt(x: map<ComponentId, ComponentObject>, y: map<ComponentId, ComponentObject>, id: ComponentId)
    requires x.Keys == y.Keys
  {
    id in x ==> SameButStatus(x[id], y[id])
  }

  ghost predicate Moves(w: Worker, w': Worker) {
    && w' == w.(hypervisors := w'.hypervisors, components := w'.components)
    && HypervisorsMove(w.target, w.hypervisors, w'.hypervisors)
    && ComponentsMove(w.components, w'.components)
  }

  /** Nothing changes for the target. */
  ghost predicate TargetSame(w: Worker, w': Worker) {
    && w.target in w.components && w.target in w'.components
    && w'.components[w.target] == w.components[w.target]
    && forall h :: h in w.hypervisors && h in w'.hypervisors ==>
         && w'.hypervisors[h].files == w.hypervisors[h].files
         && forall n :: IsPortName(n) ==> SameKey(w.hypervisors[h].ports, w'.hypervisors[h].ports, TargetKey(w, n))
  }

  lemma {:induction false} MovesReflexive(w: Worker)
    requires TablesValid(w.hypervisors)
    ensures Moves(w, w)
  {
  }

  lemma {:induction false} TableMovesOn(target: ComponentId, x: PortTable, y: PortTable, z: PortTable)
    requires TableMoves(target, x, y) && TableMoves(target, y, z)
    ensures TableMoves(target, x, z)
  {
    forall port ensures PortKept(x, z, port) { assert PortKept(x, y, port) && PortKept(y, z, port); }
    forall id, cluster, n ensures OthersKept(target, x, z, id, cluster, n) {
      assert OthersKept(target, x, y, id, cluster, n) && OthersKept(target, y, z, id, cluster, n);
    }
  }

  lemma {:induction false} MovesOn(w: Worker, w1: Worker, w2: Worker)
    requires Moves(w, w1) && Moves(w1, w2)
    ensures Moves(w, w2)
  {
    forall h ensures MovedAt(w.target, w.hypervisors, w2.hypervisors, h) {
      assert MovedAt(w.target, w.hypervisors, w1.hypervisors, h) && MovedAt(w.target, w1.hypervisors, w2.hypervisors, h);
      if h in w.hypervisors {
        TableMovesOn(w.target, w.hypervisors[h].ports, w1.hypervisors[h].ports, w2.hypervisors[h].ports);
      }
    }
    forall id ensures SameAt(w.components, w2.components, id) {
      assert SameAt(w.components, w1.components, id) && SameAt(w1.components, w2.components, id);
    }
  }

  lemma {:induction false} TargetSameOn(w: Worker, w1: Worker, w2: Worker)
    requires Moves(w, w1) && Moves(w1, w2) && TargetSame(w, w1) && TargetSame(w1, w2)
    ensures TargetSame(w, w2)
  {
    forall h, n | h in w.hypervisors && IsPortName(n)
      ensures SameKey(w.hypervisors[h].ports, w2.hypervisors[h].ports, TargetKey(w, n))
    {
      assert SameKey(w.hypervisors[h].ports, w1.hypervisors[h].ports, TargetKey(w, n));
      assert SameKey(w1.hypervisors[h].ports, w2.hypervisors[h].ports, TargetKey(w1, n));
      SameKeyOn(w.hypervisors[h].ports, w1.hypervisors[h].ports, w2.hypervisors[h].ports, TargetKey(w, n));
    }
  }

  lemma {:induction false} SameKeyOn(x: PortTable, y: PortTable, z: PortTable, key: PortKey)
    requires SameKey(x, y, key) && SameKey(y, z, key)
    ensures SameKey(x, z, key)
  {
  }

  /** A granted request moves a table and keeps the keys of every other component. */
  lemma {:induction false} GrantMoves(target: ComponentId, t: PortTable, id: ComponentId, cluster: string, name: string)
    requires Valid(t) && IsPortName(name)
    ensures var r := Request(t, KeyOf(id, cluster, name));
      r.Granted? ==>
        && Valid(r.table) && r.table.low == t.low && r.table.high == t.high
        && TableMoves(target, t, r.table)
        && (forall i, c, n :: IsPortName(n) && i != id ==> SameKey(t, r.table, KeyOf(i, c, n)))
  {
    var key := KeyOf(id, cluster, name);
    RequestKeepsValid(t, key);
    forall i, c, n | IsPortName(n) && i != id ensures Request(t, key).Granted? ==> SameKey(t, Request(t, key).table, KeyOf(i, c, n)) {
      if KeyOf(i, c, n) == key { KeysNeverClash(i, c, n, id, cluster, name); }
      GrantKeepsOther(t, key, KeyOf(i, c, n));
    }
    forall i, c, n | IsPortName(n) && i != target ensures Request(t, key).Granted? ==> KeepsKey(t, Request(t, key).table, KeyOf(i, c, n)) {
      GrantKeepsAll(t, key, KeyOf(i, c, n));
    }
  }

  lemma {:induction false} GrantKeepsOther(t: PortTable, key: PortKey, other: PortKey)
    requires other != key
    ensures Request(t, key).Granted? ==> SameKey(t, Request(t, key).table, other)
  {
    RequestEffect(t, key);
  }

  lemma {:induction false} GrantKeepsAll(t: PortTable, key: PortKey, other: PortKey)
    ensures Request(t, key).Granted? ==> KeepsKey(t, Request(t, key).table, other)
  {
    RequestEffect(t, key);
  }

  lemma {:induction false} HypervisorReplacedMoves(target: ComponentId, hypervisors: map<string, HypervisorObject>, g: string, y: HypervisorObject)
    requires TablesValid(hypervisors) && g in hypervisors && HypervisorMoves(target, hypervisors[g], y)
    ensures HypervisorsMove(target, hypervisors, hypervisors[g := y])
  {
  }

  lemma {:induction false} ComponentReplacedMoves(components: map<ComponentId, ComponentObject>, id: ComponentId, ports: map<string, int>)
    requires id in components
    ensures ComponentsMove(components, components[id := components[id].(ports := ports)])
  {
  }

  /** One table and one component of the copies replaced. */
  lemma {:induction false} ReplaceMoves(w: Worker, id: ComponentId, ports: map<string, int>, table: PortTable)
    requires TablesValid(w.hypervisors) && id in w.components && w.components[id].hypervisor in w.hypervisors
    requires var h := w.hypervisors[w.components[id].hypervisor]; HypervisorMoves(w.target, h, h.(ports := table))
    ensures Moves(w, WithRequested(w, id, ports, table))
  {
    var g := w.components[id].hypervisor;
    HypervisorReplacedMoves(w.target, w.hypervisors, g, w.hypervisors[g].(ports := table));
    ComponentReplacedMoves(w.components, id, ports);
  }

  lemma {:induction false} ReplaceSame(w: Worker, id: ComponentId, ports: map<string, int>, table: PortTable)
    requires id in w.components && w.components[id].hypervisor in w.hypervisors && id != w.target && w.target in w.components
    requires forall n :: IsPortName(n) ==> SameKey(w.hypervisors[w.components[id].hypervisor].ports, table, TargetKey(w, n))
    ensures TargetSame(w, WithRequested(w, id, ports, table))
  {
  }

  /** What a request in the copies comes to: nothing, or a grant of the allocator. */
  lemma {:induction false} RequestInCases(w: Worker, id: ComponentId, name: string)
    requires id in w.components && w.components[id].hypervisor in w.hypervisors
    ensures var c := w.components[id];
      var r := Request(w.hypervisors[c.hypervisor].ports, KeyOf(id, c.cluster, name));
      RequestIn(w, id, name) ==
        if name in c.ports || r.NoPorts? then w else WithRequested(w, id, c.ports[name := r.port], r.table)
  {
  }

  lemma {:induction false} GrantInMoves(w: Worker, id: ComponentId, name: string)
    requires TablesValid(w.hypervisors) && id in w.components && w.components[id].hypervisor in w.hypervisors && IsPortName(name)
    requires Request(w.hypervisors[w.components[id].hypervisor].ports, KeyOf(id, w.components[id].cluster, name)).Granted?
    ensures var c := w.components[id];
      var r := Request(w.hypervisors[c.hypervisor].ports, KeyOf(id, c.cluster, name));
      var w' := WithRequested(w, id, c.ports[name := r.port], r.table);
      Moves(w, w') && (id != w.target && w.target in w.components ==> TargetSame(w, w'))
  {
    var c := w.components[id];
    var h := w.hypervisors[c.hypervisor];
    var r := Request(h.ports, KeyOf(id, c.cluster, name));
    GrantMoves(w.target, h.ports, id, c.cluster, name);
    ReplaceMoves(w, id, c.ports[name := r.port], r.table);
    if id != w.target && w.target in w.components { ReplaceSame(w, id, c.ports[name := r.port], r.table); }
  }

  lemma {:induction false} RequestInMoves(w: Worker, id: ComponentId, name: string)
    requires TablesValid(w.hypervisors) && id in w.components && w.components[id].hypervisor in w.hypervisors && IsPortName(name)
    ensures Moves(w, RequestIn(w, id, name))
    ensures id != w.target && w.target in w.components ==> TargetSame(w, RequestIn(w, id, name))
  {
    RequestInCases(w, id, name);
    if RequestIn(w, id, name) == w { MovesReflexive(w); } else { GrantInMoves(w, id, name); }
  }

  lemma {:induction false} MovedTablesValid(w: Worker, w': Worker)
    requires Moves(w, w')
    ensures TablesValid(w'.hypervisors)
  {
    forall h | h in w'.hypervisors ensures Valid(w'.hypervisors[h].ports) {
      assert MovedAt(w.target, w.hypervisors, w'.hypervisors, h);
    }
  }

  // ---------------------------------------------------------------------------------------------
  // The client endpoints of the other members, requesting their ports on the way

  predicate IsLive(w: Worker, id: ComponentId) {
    && id in w.components && w.components[id].role == ControlPlane && !w.components[id].deleted
    && w.components[id].hypervisor in w.hypervisors
  }

  function AskOne(w: Worker, id: ComponentId): Worker {
    if IsLive(w, id) then RequestIn(w, id, ETCD_CLIENT) else w
  }

  function AskAll(w: Worker, order: seq<ComponentId>): Worker
    decreases |order|
  {
    if order == [] then w else AskAll(AskOne(w, order[0]), order[1..])
  }

  /** Some other control plane is up and has its client port. */
  predicate LiveEndpoint(w: Worker, order: seq<ComponentId>) {
    exists id :: id in order && IsLive(w, id) && ETCD_CLIENT in w.components[id].ports
  }

  lemma {:induction false} AskOneMoves(w: Worker, id: ComponentId)
    requires TablesValid(w.hypervisors) && w.target in w.components && w.components[w.target].deleted
    ensures Moves(w, AskOne(w, id)) && TargetSame(w, AskOne(w, id))
  {
    if IsLive(w, id) { RequestInMoves(w, id, ETCD_CLIENT); } else { MovesReflexive(w); }
  }

  lemma {:induction false} AskAllMoves(w: Worker, order: seq<ComponentId>)
    requires TablesValid(w.hypervisors) && w.target in w.components && w.components[w.target].deleted
    ensures Moves(w, AskAll(w, order)) && TargetSame(w, AskAll(w, order))
    decreases |order|
  {
    if order == [] {
      MovesReflexive(w);
    } else {
      var w1 := AskOne(w, order[0]);
      AskOneMoves(w, order[0]);
      MovedTablesValid(w, w1);
      AskAllMoves(w1, order[1..]);
      MovesOn(w, w1, AskAll(w1, order[1..]));
      TargetSameOn(w, w1, AskAll(w1, order[1..]));
    }
  }

  // ---------------------------------------------------------------------------------------------
  // The steps on the target itself

  /** Nothing changes for the other names when only one key and one name changed. */
  lemma {:induction false} OtherNamesSame(w: Worker, w': Worker, name: string, n: string)
    requires Scheduled(w) && Scheduled(w') && w'.target == w.target && SameButStatus(w.components[w.target], w'.components[w.target])
    requires IsPortName(name) && IsPortName(n) && n != name
    requires w'.components[w.target].ports - {name} == w.components[w.target].ports - {name}
    requires Held(TargetTable(w')) - {TargetKey(w, name)} == Held(TargetTable(w)) - {TargetKey(w, name)}
    ensures Stray(w', n) <==> Stray(w, n)
  {
    var c, c' := w.components[w.target], w'.components[w.target];
    if TargetKey(w, n) == TargetKey(w, name) { KeysNeverClash(w.target, c.cluster, n, w.target, c.cluster, name); }
    assert n in c'.ports <==> n in c'.ports - {name};
    assert n in c.ports <==> n in c.ports - {name};
    assert TargetKey(w, n) in Held(TargetTable(w')) <==> TargetKey(w, n) in Held(TargetTable(w')) - {TargetKey(w, name)};
    assert TargetKey(w, n) in Held(TargetTable(w)) <==> TargetKey(w, n) in Held(TargetTable(w)) - {TargetKey(w, name)};
  }

  lemma {:induction false} OwnGrant(w: Worker, name: string)
    requires Scheduled(w) && IsPortName(name)
    requires name !in w.components[w.target].ports && Request(TargetTable(w), TargetKey(w, name)).Granted?
    ensures var r := Request(TargetTable(w), TargetKey(w, name));
      var w' := WithRequested(w, w.target, w.components[w.target].ports[name := r.port], r.table);
      && Scheduled(w') && name in w'.components[w.target].ports
      && forall n :: IsPortName(n) && n != name ==> (Stray(w', n) <==> Stray(w, n))
  {
    var r := Request(TargetTable(w), TargetKey(w, name));
    var ports := w.components[w.target].ports;
    var w' := WithRequested(w, w.target, ports[name := r.port], r.table);
    RequestEffect(TargetTable(w), TargetKey(w, name));
    assert TargetTable(w') == r.table;
    assert Held(r.table) == Held(TargetTable(w))[TargetKey(w, name) := r.port];
    ButOne(Held(TargetTable(w)), TargetKey(w, name), r.port);
    ButOne(ports, name, r.port);
    forall n | IsPortName(n) && n != name ensures Stray(w', n) <==> Stray(w, n) { OtherNamesSame(w, w', name, n); }
  }

  /** Requests of etcd ports only add ports, and touch no file record. */
  ghost predicate Grows(w: Worker, w': Worker) {
    && w'.hypervisors.Keys == w.hypervisors.Keys && w'.components.Keys == w.components.Keys
    && (forall h :: h in w.hypervisors ==> w'.hypervisors[h].files == w.hypervisors[h].files)
    && (forall i :: i in w.components ==> PortsGrow(w.components[i].ports, w'.components[i].ports))
    && (forall i :: i in w.components && API_SERVER in w'.components[i].ports ==> API_SERVER in w.components[i].ports)
  }

  lemma {:induction false} RequestInGrows(w: Worker, id: ComponentId, name: string)
    requires id in w.components && w.components[id].hypervisor in w.hypervisors && name != API_SERVER
    ensures Grows(w, RequestIn(w, id, name))
  {
    RequestInCases(w, id, name);
    var c := w.components[id];
    var r := Request(w.hypervisors[c.hypervisor].ports, KeyOf(id, c.cluster, name));
    if name !in c.ports && r.Granted? { ReplaceGrows(w, id, c.ports[name := r.port], r.table); }
  }

  lemma {:induction false} ReplaceGrows(w: Worker, id: ComponentId, ports: map<string, int>, table: PortTable)
    requires id in w.components && w.components[id].hypervisor in w.hypervisors && PortsGrow(w.components[id].ports, ports)
    requires API_SERVER in ports ==> API_SERVER in w.components[id].ports
    ensures Grows(w, WithRequested(w, id, ports, table))
  {
  }

  /** A request by a stray name takes the port that is held, so the name is a stray no more; other names are as before. */
  ghost predicate StraysAfter(w: Worker, w': Worker, name: string)
    requires Scheduled(w) && Scheduled(w')
  {
    !Stray(w', name) && forall n :: IsPortName(n) && n != name ==> (Stray(w', n) <==> Stray(w, n))
  }

  lemma {:induction false} OwnRequestStrays(w: Worker, name: string)
    requires Scheduled(w) && IsPortName(name)
    ensures Scheduled(RequestIn(w, w.target, name)) && StraysAfter(w, RequestIn(w, w.target, name), name)
  {
    RequestInCases(w, w.target, name);
    RequestEffect(TargetTable(w), TargetKey(w, name));
    if name in w.components[w.target].ports || Request(TargetTable(w), TargetKey(w, name)).NoPorts? {
      assert RequestIn(w, w.target, name) == w;
    } else {
      OwnGrant(w, name);
    }
  }

  /** A request of the target keeps what it had. */
  lemma {:induction false} OwnRequest(w: Worker, name: string)
    requires Scheduled(w) && TablesValid(w.hypervisors) && IsPortName(name) && name != API_SERVER
    ensures var w' := RequestIn(w, w.target, name);
      Moves(w, w') && Scheduled(w') && Grows(w, w') && StraysAfter(w, w', name)
  {
    RequestInGrows(w, w.target, name);
    OwnRequestStrays(w, name);
    RequestInMoves(w, w.target, name);
  }

  lemma {:induction false} FreeMoves(target: ComponentId, t: PortTable, cluster: string, name: string)
    requires Valid(t) && IsPortName(name)
    ensures var t' := Free(t, KeyOf(target, cluster, name));
      Valid(t') && t'.low == t.low && t'.high == t.high && TableMoves(target, t, t')
  {
    FreeKeepsValid(t, KeyOf(target, cluster, name));
    forall id, c, n | IsPortName(n) && id != target ensures KeyOf(id, c, n) != KeyOf(target, cluster, name) {
      if KeyOf(id, c, n) == KeyOf(target, cluster, name) { KeysNeverClash(id, c, n, target, cluster, name); }
    }
  }

  lemma {:induction false} OwnFreed(w: Worker, name: string)
    requires Scheduled(w) && Valid(TargetTable(w)) && IsPortName(name) && name in w.components[w.target].ports
    ensures var w' := WithRequested(w, w.target, w.components[w.target].ports - {name}, Free(TargetTable(w), TargetKey(w, name)));
      Scheduled(w') && SameStrays(w, w')
  {
    var t := Free(TargetTable(w), TargetKey(w, name));
    var ports := w.components[w.target].ports;
    var w' := WithRequested(w, w.target, ports - {name}, t);
    FreeKeepsValid(TargetTable(w), TargetKey(w, name));
    assert TargetTable(w') == t;
    assert Held(t) - {TargetKey(w, name)} == Held(TargetTable(w)) - {TargetKey(w, name)};
    assert (ports - {name}) - {name} == ports - {name};
    forall n | IsPortName(n) ensures Stray(w', n) <==> Stray(w, n) { if n != name { OtherNamesSame(w, w', name, n); } }
  }

  /** Freeing a port of the target, recorded or not, held or not: afterwards it is not recorded, and exactly the strays are
      held that were strays before. */
  lemma {:induction false} OwnFree(w: Worker, name: string)
    requires Scheduled(w) && TablesValid(w.hypervisors) && IsPortName(name)
    ensures var w' := FreeIn(w, name);
      && Moves(w, w') && Scheduled(w') && SameStrays(w, w')
      && w'.components[w.target].ports == w.components[w.target].ports - {name}
      && w'.hypervisors[w.components[w.target].hypervisor].files == w.hypervisors[w.components[w.target].hypervisor].files
  {
    var c := w.components[w.target];
    FreeInUnfolds(w, name);
    if name in c.ports {
      FreeMoves(w.target, TargetTable(w), c.cluster, name);
      ReplaceMoves(w, w.target, c.ports - {name}, Free(TargetTable(w), TargetKey(w, name)));
      OwnFreed(w, name);
    } else {
      MovesReflexive(w);
      assert c.ports - {name} == c.ports;
    }
  }

  lemma {:induction false} StraysStay(w: Worker, w': Worker)
    requires Scheduled(w) && Moves(w, w') && TargetSame(w, w')
    ensures Scheduled(w') && SameStrays(w, w')
  {
    forall n | IsPortName(n) ensures Stray(w', n) <==> Stray(w, n) {
      assert SameKey(TargetTable(w), TargetTable(w'), TargetKey(w, n));
    }
  }

  // ---------------------------------------------------------------------------------------------
  // Etcd members

  predicate UniqueMembers(members: seq<EtcdMember>) {
    forall i, j :: 0 <= i < j < |members| ==> members[i].id != members[j].id && members[i].peerUrls != members[j].peerUrls
  }

  predicate NoMember(members: seq<EtcdMember>, url: string) {
    forall i :: 0 <= i < |members| ==> members[i].peerUrls != [url]
  }

  function WithoutMember(members: seq<EtcdMember>, id: nat): seq<EtcdMember> {
    if members == [] then []
    else if members[0].id == id then WithoutMember(members[1..], id)
    else [members[0]] + WithoutMember(members[1..], id)
  }

  lemma {:induction false} WithoutMemberIn(members: seq<EtcdMember>, id: nat)
    ensures forall m :: m in WithoutMember(members, id) <==> m in members && m.id != id
    ensures UniqueMembers(members) ==> UniqueMembers(WithoutMember(members, id))
  {
    if members == [] {
    } else {
      WithoutMemberIn(members[1..], id);
      if UniqueMembers(members) {
        assert UniqueMembers(members[1..]);
        forall m | m in members[1..] ensures m.id != members[0].id && m.peerUrls != members[0].peerUrls {
          var i :| 0 <= i < |members| - 1 && members[1..][i] == m;
          assert members[i + 1] == m;
        }
      }
    }
  }

  /** Removing the member with a peer URL leaves no member with it. */
  lemma {:induction false} RemovedMember(members: seq<EtcdMember>, i: nat, url: string)
    requires UniqueMembers(members) && i < |members| && members[i].peerUrls == [url]
    ensures NoMember(WithoutMember(members, members[i].id), url) && UniqueMembers(WithoutMember(members, members[i].id))
  {
    var rest := WithoutMember(members, members[i].id);
    WithoutMemberIn(members, members[i].id);
    forall k | 0 <= k < |rest| ensures rest[k].peerUrls != [url] {
      assert rest[k] in members && rest[k].id != members[i].id;
      var j :| 0 <= j < |members| && members[j] == rest[k];
    }
  }

  /** The peer URL of the target, made of the port it has recorded. */
  function PeerUrl(w: Worker): string
    requires Scheduled(w) && ETCD_PEER in w.components[w.target].ports
  {
    UrlOf(w.hypervisors, w.components[w.target], ETCD_PEER)
  }

  // ---------------------------------------------------------------------------------------------
  // The deletion itself

  /** The copies of a worker whose target is deleted and scheduled. What the target records and what its hypervisor holds
      for it may differ in any way: both sides are written separately. */
  ghost predicate Deletable(w: Worker) {
    Scheduled(w) && w.components[w.target].deleted && TablesValid(w.hypervisors)
  }

  /** Requests of the peer port may take up a stray of that name, and change no other stray. */
  ghost predicate StraysAlong(w: Worker, w': Worker)
    requires Scheduled(w) && Scheduled(w')
  {
    forall n :: StrayAlong(w, w', n)
  }

  predicate StrayAlong(w: Worker, w': Worker, n: string)
    requires Scheduled(w) && Scheduled(w')
  {
    IsPortName(n) ==> (Stray(w', n) ==> Stray(w, n)) && (n != ETCD_PEER && Stray(w, n) ==> Stray(w', n))
  }

  /** From `w` on the deletion only made requests: nothing is lost, and the recorded ports are still there. */
  ghost predicate Along(w: Worker, w': Worker) {
    Moves(w, w') && Grows(w, w') && Scheduled(w) && Scheduled(w') && StraysAlong(w, w')
  }

  lemma {:induction false} GrowsOn(w: Worker, w1: Worker, w2: Worker)
    requires Grows(w, w1) && Grows(w1, w2)
    ensures Grows(w, w2)
  {
    forall i | i in w.components ensures PortsGrow(w.components[i].ports, w2.components[i].ports) {
      assert PortsGrow(w.components[i].ports, w1.components[i].ports) && PortsGrow(w1.components[i].ports, w2.components[i].ports);
    }
  }

  lemma {:induction false} AlongOn(w: Worker, w1: Worker, w2: Worker)
    requires Along(w, w1) && Along(w1, w2)
    ensures Along(w, w2)
  {
    MovesOn(w, w1, w2);
    GrowsOn(w, w1, w2);
    forall n ensures StrayAlong(w, w2, n) { assert StrayAlong(w, w1, n) && StrayAlong(w1, w2, n); }
  }

  lemma {:induction false} StillDeletable(w: Worker, w': Worker)
    requires Deletable(w) && Moves(w, w') && Scheduled(w')
    ensures Deletable(w')
  {
    MovedTablesValid(w, w');
    assert SameAt(w.components, w'.components, w.target);
  }

  lemma {:induction false} AlongReflexive(w: Worker)
    requires Scheduled(w) && TablesValid(w.hypervisors)
    ensures Along(w, w)
  {
    MovesReflexive(w);
  }

  lemma {:induction false} SameIsAlong(w: Worker, w': Worker)
    requires Scheduled(w) && Scheduled(w') && SameStrays(w, w')
    ensures StraysAlong(w, w')
  {
    forall n ensures StrayAlong(w, w', n) { assert IsPortName(n) ==> (Stray(w', n) <==> Stray(w, n)); }
  }

  lemma {:induction false} AfterIsAlong(w: Worker, w': Worker)
    requires Scheduled(w) && Scheduled(w') && StraysAfter(w, w', ETCD_PEER)
    ensures StraysAlong(w, w')
  {
    forall n ensures StrayAlong(w, w', n) { assert IsPortName(n) && n != ETCD_PEER ==> (Stray(w', n) <==> Stray(w, n)); }
  }

  /** The target requests its peer port. */
  lemma {:induction false} PeerRequestAlong(w: Worker)
    requires Deletable(w)
    ensures var w' := RequestIn(w, w.target, ETCD_PEER); Deletable(w') && Along(w, w') && !Stray(w', ETCD_PEER)
  {
    OwnRequest(w, ETCD_PEER);
    StillDeletable(w, RequestIn(w, w.target, ETCD_PEER));
    AfterIsAlong(w, RequestIn(w, w.target, ETCD_PEER));
  }

  lemma {:induction false} AskOneGrows(w: Worker, id: ComponentId)
    ensures Grows(w, AskOne(w, id))
  {
    if IsLive(w, id) { RequestInGrows(w, id, ETCD_CLIENT); }
  }

  lemma {:induction false} AskOneAlong(w: Worker, id: ComponentId)
    requires Deletable(w)
    ensures Along(w, AskOne(w, id))
  {
    AskOneMoves(w, id);
    StraysStay(w, AskOne(w, id));
    SameIsAlong(w, AskOne(w, id));
    AskOneGrows(w, id);
  }

  lemma {:induction false} AskAllAlong(w: Worker, order: seq<ComponentId>)
    requires Deletable(w)
    ensures Along(w, AskAll(w, order))
    decreases |order|
  {
    if order == [] {
      AlongReflexive(w);
    } else {
      var w1 := AskOne(w, order[0]);
      AskOneAlong(w, order[0]);
      StillDeletable(w, w1);
      AskAllAlong(w1, order[1..]);
      AlongOn(w, w1, AskAll(w, order));
    }
  }

  /** The endpoint of a member, if it is up and got its port. */
  function EndpointOf(w: Worker, id: ComponentId): seq<string> {
    if IsLive(w, id) && ETCD_CLIENT in RequestIn(w, id, ETCD_CLIENT).components[id].ports
    then [HttpsUrl(w.hypervisors[w.components[id].hypervisor].ipAddress, RequestIn(w, id, ETCD_CLIENT).components[id].ports[ETCD_CLIENT])]
    else []
  }

  function EndpointsOf(w: Worker, order: seq<ComponentId>): seq<string>
    decreases |order|
  {
    if order == [] then [] else EndpointOf(w, order[0]) + EndpointsOf(AskOne(w, order[0]), order[1..])
  }

  /** The first `i` members were asked: what is left to ask completes what asking all comes to. */
  ghost predicate Asked(start: Worker, order: seq<ComponentId>, i: nat, w: Worker, endpoints: seq<string>)
    requires i <= |order|
  {
    && AskAll(w, order[i..]) == AskAll(start, order)
    && endpoints + EndpointsOf(w, order[i..]) == EndpointsOf(start, order)
  }

  lemma {:induction false} AskedNone(w: Worker, order: seq<ComponentId>)
    ensures Asked(w, order, 0, w, [])
  {
    assert order[0..] == order;
  }

  lemma {:induction false} AskedOne(start: Worker, order: seq<ComponentId>, i: nat, w: Worker, endpoints: seq<string>)
    requires i < |order| && Asked(start, order, i, w, endpoints)
    ensures Asked(start, order, i + 1, AskOne(w, order[i]), endpoints + EndpointOf(w, order[i]))
  {
    assert order[i..][1..] == order[i + 1..];
  }

  lemma {:induction false} AskedEveryone(start: Worker, order: seq<ComponentId>, w: Worker, endpoints: seq<string>)
    requires Asked(start, order, |order|, w, endpoints)
    ensures w == AskAll(start, order) && endpoints == EndpointsOf(start, order)
  {
    assert order[|order|..] == [];
  }

  /** A member that is up with its port stays so while others are asked, so its endpoint is among those found. */
  lemma {:induction false} LiveIsFound(w: Worker, order: seq<ComponentId>, id: ComponentId)
    requires Deletable(w)
    requires id in order && IsLive(w, id) && ETCD_CLIENT in w.components[id].ports
    ensures EndpointsOf(w, order) != []
    decreases |order|
  {
    if order[0] == id {
      RequestInCases(w, id, ETCD_CLIENT);
    } else {
      var w1 := AskOne(w, order[0]);
      AskOneAlong(w, order[0]);
      StillDeletable(w, w1);
      assert SameAt(w.components, w1.components, id) && PortsGrow(w.components[id].ports, w1.components[id].ports);
      LiveIsFound(w1, order[1..], id);
    }
  }

  /** The recorded peer URL does not change along the way. */
  lemma {:induction false} PeerUrlStays(w: Worker, w': Worker)
    requires Scheduled(w) && ETCD_PEER in w.components[w.target].ports && Along(w, w')
    ensures ETCD_PEER in w'.components[w.target].ports && PeerUrl(w') == PeerUrl(w)
  {
    assert PortsGrow(w.components[w.target].ports, w'.components[w.target].ports);
    assert MovedAt(w.target, w.hypervisors, w'.hypervisors, w.components[w.target].hypervisor);
    assert SameAt(w.components, w'.components, w.target);
  }

  /** Of the members only those with the target's peer URL have left. */
  ghost predicate OnlyTargetLeft(w: Worker, before: seq<EtcdMember>, after: seq<EtcdMember>)
    requires Scheduled(w)
  {
    && UniqueMembers(after)
    && (forall m :: m in after ==> m in before)
    && (forall m :: m in before && m !in after ==> ETCD_PEER in w.components[w.target].ports && m.peerUrls == [PeerUrl(w)])
  }

  lemma {:induction false} OnlyTargetLeftOn(w: Worker, w': Worker, before: seq<EtcdMember>, after: seq<EtcdMember>)
    requires Scheduled(w) && Along(w, w') && OnlyTargetLeft(w, before, after)
    ensures OnlyTargetLeft(w', before, after)
  {
    if ETCD_PEER in w.components[w.target].ports { PeerUrlStays(w, w'); }
  }

  lemma {:induction false} GoOn(start: Worker, w: Worker, w': Worker, before: seq<EtcdMember>, after: seq<EtcdMember>)
    requires Scheduled(w) && Along(start, w) && Along(w, w') && OnlyTargetLeft(w, before, after)
    ensures Along(start, w') && OnlyTargetLeft(w', before, after)
    ensures ETCD_PEER in w.components[w.target].ports ==>
      ETCD_PEER in w'.components[w'.target].ports && PeerUrl(w') == PeerUrl(w)
  {
    AlongOn(start, w, w');
    OnlyTargetLeftOn(w, w', before, after);
    if ETCD_PEER in w.components[w.target].ports { PeerUrlStays(w, w'); }
  }

  /** The target's member leaves. */
  lemma {:induction false} TargetLeaves(w: Worker, before: seq<EtcdMember>, after: seq<EtcdMember>, i: nat)
    requires Scheduled(w) && OnlyTargetLeft(w, before, after) && i < |after|
    requires ETCD_PEER in w.components[w.target].ports && after[i].peerUrls == [PeerUrl(w)]
    ensures OnlyTargetLeft(w, before, WithoutMember(after, after[i].id))
    ensures NoMember(WithoutMember(after, after[i].id), PeerUrl(w))
  {
    RemovedMember(after, i, PeerUrl(w));
    WithoutMemberIn(after, after[i].id);
    forall m | m in after && m.id == after[i].id ensures m == after[i] {
      var j :| 0 <= j < |after| && after[j] == m;
    }
  }

  /** The record of the target's files goes. */
  function OwnerOf(w: Worker): Owner
    requires w.target in w.components
  {
    Owner(w.target.namespace, w.components[w.target].cluster, w.target.name)
  }

  function TargetFiles(w: Worker): Files.NamespacedClusterFileMap
    requires Scheduled(w)
  {
    w.hypervisors[w.components[w.target].hypervisor].files
  }

  function ForgetIn(w: Worker): Worker
    requires Scheduled(w)
  {
    var g := w.components[w.target].hypervisor;
    w.(hypervisors := w.hypervisors[g := w.hypervisors[g].(files := Files.Forget(w.hypervisors[g].files, OwnerOf(w)))])
  }

  lemma {:induction false} ForgetMoves(w: Worker)
    requires Deletable(w)
    ensures Deletable(ForgetIn(w)) && Moves(w, ForgetIn(w))
    ensures !Files.Recorded(TargetFiles(ForgetIn(w)), OwnerOf(w))
    ensures ForgetIn(w).components == w.components && SameStrays(w, ForgetIn(w))
  {
    var g := w.components[w.target].hypervisor;
    var h := w.hypervisors[g];
    MovesReflexive(w);
    HypervisorReplacedMoves(w.target, w.hypervisors, g, h.(files := Files.Forget(h.files, OwnerOf(w))));
    Files.ForgetAt(h.files, OwnerOf(w), OwnerOf(w));
    MovedTablesValid(w, ForgetIn(w));
  }

  /** A name the target lost is not held on its hypervisor either. */
  predicate Released(w: Worker, name: string) {
    Scheduled(w) && name !in w.components[w.target].ports && TargetKey(w, name) !in Held(TargetTable(w))
  }

  /** A name that is not recorded is released unless it is a stray. */
  lemma {:induction false} FreedIsReleased(w: Worker, name: string)
    requires Deletable(w) && IsPortName(name)
    ensures Deletable(FreeIn(w, name)) && Moves(w, FreeIn(w, name)) && SameStrays(w, FreeIn(w, name))
    ensures Released(FreeIn(w, name), name) <==> !Stray(w, name)
    ensures FreeIn(w, name).components[w.target].ports == w.components[w.target].ports - {name}
    ensures TargetFiles(FreeIn(w, name)) == TargetFiles(w)
  {
    OwnFree(w, name);
    StillDeletable(w, FreeIn(w, name));
    assert Stray(FreeIn(w, name), name) <==> Stray(w, name);
  }

  /** The copies at which the peer URL of the target is known, if it ever is: the api server stopped, the members asked, and
      the peer port requested. With a peer port recorded its URL is the recorded one. */
  function PeerWorker(w: Worker, order: seq<ComponentId>): Worker
    requires Scheduled(w)
  {
    WithPeerPort(AskAll(FreeIn(w, API_SERVER), order))
  }

  /** No member left but those with the target's peer URL. */
  ghost predicate MembersAfter(w: Worker, order: seq<ComponentId>, before: seq<EtcdMember>, after: seq<EtcdMember>)
    requires Scheduled(w)
  {
    && UniqueMembers(after)
    && (forall m :: m in after ==> m in before)
    && (forall m :: m in before && m !in after ==>
          UrlKnown(PeerWorker(w, order)) && m.peerUrls == [PeerUrl(PeerWorker(w, order))])
  }

  /** None of the three ports of a control plane is held, and the record of its files is gone. */
  ghost predicate NothingHeld(w: Worker) {
    && Released(w, API_SERVER) && Released(w, ETCD_PEER) && Released(w, ETCD_CLIENT)
    && !Files.Recorded(TargetFiles(w), OwnerOf(w))
  }

  /** If some member was asked, the target has a peer URL and none has it any more. */
  ghost predicate TargetGone(w: Worker, order: seq<ComponentId>, members: seq<EtcdMember>)
    requires Scheduled(w)
  {
    EndpointsOf(FreeIn(w, API_SERVER), order) != [] ==>
      UrlKnown(PeerWorker(w, order)) && NoMember(members, PeerUrl(PeerWorker(w, order)))
  }

  /** Some member is asked whenever another control plane is up with its client port. */
  lemma {:induction false} LiveMemberIsAsked(w: Worker, order: seq<ComponentId>)
    requires Deletable(w)
    ensures LiveEndpoint(w, order) ==> EndpointsOf(FreeIn(w, API_SERVER), order) != []
  {
    FreedIsReleased(w, API_SERVER);
    var w' := FreeIn(w, API_SERVER);
    if LiveEndpoint(w, order) {
      var id :| id in order && IsLive(w, id) && ETCD_CLIENT in w.components[id].ports;
      FreeKeepsOther(w, id);
      LiveIsFound(w', order, id);
    }
  }

  lemma {:induction false} FreeKeepsOther(w: Worker, id: ComponentId)
    requires Scheduled(w) && id in w.components && id != w.target
    ensures id in FreeIn(w, API_SERVER).components && FreeIn(w, API_SERVER).components[id] == w.components[id]
    ensures FreeIn(w, API_SERVER).hypervisors.Keys == w.hypervisors.Keys
  {
  }

  lemma {:induction false} FreeKeepsPeerUrl(w: Worker)
    requires Deletable(w) && ETCD_PEER in w.components[w.target].ports
    ensures Scheduled(FreeIn(w, API_SERVER)) && ETCD_PEER in FreeIn(w, API_SERVER).components[w.target].ports
    ensures PeerUrl(FreeIn(w, API_SERVER)) == PeerUrl(w)
  {
  }

  lemma {:induction false} StillStopped(w1: Worker, w2: Worker)
    requires Scheduled(w1) && Along(w1, w2) && API_SERVER !in w1.components[w1.target].ports
    ensures API_SERVER !in w2.components[w2.target].ports
  {
  }

  /** Whichever point the attempts came to, the members left by the URL the target has, or would get, there. */
  lemma {:induction false} LeftByUrl(w1: Worker, order: seq<ComponentId>, w2: Worker, before: seq<EtcdMember>, after: seq<EtcdMember>)
    requires Deletable(w1) && Scheduled(w2) && IsAt(AskAll(w1, order), w2) && OnlyTargetLeft(w2, before, after)
    ensures var p := WithPeerPort(AskAll(w1, order));
      && Scheduled(p) && OnlyTargetLeft(p, before, after)
      && (UrlKnown(w2) && !IsPresent(w2, after) ==> UrlKnown(p) && !IsPresent(p, after))
  {
    var base := AskAll(w1, order);
    AskAllAlong(w1, order);
    StillDeletable(w1, base);
    PeerRequestAlong(base);
    if w2 == base {
      OnlyTargetLeftOn(base, WithPeerPort(base), before, after);
      if UrlKnown(base) { SamePresence(base, WithPeerPort(base), after); }
    }
  }

  /** From the beginning of the deletion to the peer URL: ports of others only grow, and none is lost. */
  lemma {:induction false} PeerWorkerMoves(w: Worker, order: seq<ComponentId>)
    requires Deletable(w)
    ensures var p := PeerWorker(w, order);
      && Deletable(p) && Moves(w, p) && Along(FreeIn(w, API_SERVER), p)
  {
    var w1 := FreeIn(w, API_SERVER);
    FreedIsReleased(w, API_SERVER);
    var base := AskAll(w1, order);
    AskAllAlong(w1, order);
    StillDeletable(w1, base);
    PeerRequestAlong(base);
    AlongOn(w1, base, PeerWorker(w, order));
    MovesOn(w, w1, PeerWorker(w, order));
  }

  /** A recorded peer port decides the URL. */
  lemma {:induction false} RecordedUrl(w: Worker, order: seq<ComponentId>)
    requires Deletable(w) && UrlKnown(w)
    ensures UrlKnown(PeerWorker(w, order)) && PeerUrl(PeerWorker(w, order)) == PeerUrl(w)
  {
    FreeKeepsPeerUrl(w);
    PeerWorkerMoves(w, order);
    PeerUrlStays(FreeIn(w, API_SERVER), PeerWorker(w, order));
  }

  /** Without one, the URL is that of a port held for the target. */
  lemma {:induction false} RequestedUrl(w: Worker, order: seq<ComponentId>)
    requires Deletable(w) && !UrlKnown(w)
    ensures UrlKnown(PeerWorker(w, order)) ==> HasPeerPort(PeerWorker(w, order), w.target)
  {
    var w1 := FreeIn(w, API_SERVER);
    FreedIsReleased(w, API_SERVER);
    var base := AskAll(w1, order);
    AskAllMoves(w1, order);
    StraysStay(w1, base);
    assert ETCD_PEER !in base.components[base.target].ports;
    RequestInCases(base, base.target, ETCD_PEER);
    RequestEffect(TargetTable(base), TargetKey(base, ETCD_PEER));
  }

  /** Which names of the target are still held once its deletion succeeded: the strays it had, except that a stray peer port
      was taken up and freed if some member was asked. */
  predicate AsksMembers(w: Worker, order: seq<ComponentId>, clusterDeleted: bool)
    requires Scheduled(w)
  {
    !clusterDeleted && EndpointsOf(FreeIn(w, API_SERVER), order) != []
  }

  predicate LeavesStray(w: Worker, order: seq<ComponentId>, clusterDeleted: bool)
    requires Scheduled(w)
  {
    || Stray(w, API_SERVER) || Stray(w, ETCD_CLIENT)
    || (Stray(w, ETCD_PEER) && !AsksMembers(w, order, clusterDeleted))
  }

  /** The three names once the api server is stopped and the cluster left. */
  ghost predicate StraysLeft(w: Worker, w': Worker, order: seq<ComponentId>, clusterDeleted: bool)
    requires Scheduled(w) && Scheduled(w')
  {
    && (Stray(w', API_SERVER) <==> Stray(w, API_SERVER))
    && (Stray(w', ETCD_CLIENT) <==> Stray(w, ETCD_CLIENT))
    && (Stray(w', ETCD_PEER) <==> Stray(w, ETCD_PEER) && !AsksMembers(w, order, clusterDeleted))
  }

  lemma {:induction false} StraysOfAsked(w: Worker, w1: Worker, w2: Worker, order: seq<ComponentId>)
    requires Scheduled(w) && Scheduled(w1) && Scheduled(w2) && SameStrays(w, w1) && StraysAlong(w1, w2)
    requires AsksMembers(w, order, false) && !Stray(w2, ETCD_PEER)
    ensures StraysLeft(w, w2, order, false)
  {
    assert StrayAlong(w1, w2, API_SERVER) && StrayAlong(w1, w2, ETCD_CLIENT);
    assert Stray(w1, API_SERVER) <==> Stray(w, API_SERVER);
    assert Stray(w1, ETCD_CLIENT) <==> Stray(w, ETCD_CLIENT);
  }

  lemma {:induction false} StraysOfSilent(w: Worker, w1: Worker, w2: Worker, order: seq<ComponentId>, clusterDeleted: bool)
    requires Scheduled(w) && Scheduled(w1) && Scheduled(w2) && SameStrays(w, w1) && SameStrays(w1, w2)
    requires !AsksMembers(w, order, clusterDeleted)
    ensures StraysLeft(w, w2, order, clusterDeleted)
  {
    assert Stray(w1, API_SERVER) <==> Stray(w, API_SERVER);
    assert Stray(w1, ETCD_CLIENT) <==> Stray(w, ETCD_CLIENT);
    assert Stray(w1, ETCD_PEER) <==> Stray(w, ETCD_PEER);
  }

  // ---------------------------------------------------------------------------------------------
  // The attempts to remove the member

  /** An attempt is the last if the members were listed and the target's is not among them, or was removed. */
  predicate IsDone(a: Attempt, present: bool) {
    a.listed && (!present || (a.connected && a.removed))
  }

  predicate StillPresent(a: Attempt, present: bool) {
    present && !(a.listed && a.connected && (a.removed || a.applied))
  }

  /** Whether the attempts get there, by their outcomes alone. */
  predicate GetsThere(attempts: seq<Attempt>, present: bool) {
    attempts != [] && (IsDone(attempts[0], present) || GetsThere(attempts[1..], StillPresent(attempts[0], present)))
  }

  /** One attempt, by its outcome: whether it was the last, and whether the member is still there. */
  predicate Attempted(a: Attempt, done: bool, before: bool, after: bool) {
    done == IsDone(a, before) && (!done ==> after == StillPresent(a, before))
  }

  /** After `i` attempts the others decide. */
  predicate TriedUpTo(attempts: seq<Attempt>, i: nat, before: bool, now: bool)
    requires i <= |attempts|
  {
    GetsThere(attempts, before) == GetsThere(attempts[i..], now)
  }

  lemma {:induction false} TriedOne(attempts: seq<Attempt>, i: nat, before: bool, now: bool, done: bool, next: bool)
    requires i < |attempts| && TriedUpTo(attempts, i, before, now) && Attempted(attempts[i], done, now, next)
    ensures if done then GetsThere(attempts, before) else TriedUpTo(attempts, i + 1, before, next)
  {
    assert attempts[i..][1..] == attempts[i + 1..];
  }

  predicate UrlKnown(w: Worker) {
    Scheduled(w) && ETCD_PEER in w.components[w.target].ports
  }

  /** There is a member with the peer URL the target records. */
  predicate IsPresent(w: Worker, members: seq<EtcdMember>) {
    UrlKnown(w) && !NoMember(members, PeerUrl(w))
  }

  /** Removing the member of the target, begun with copies `start` and members `all`. */
  ghost predicate OnTheWay(start: Worker, all: seq<EtcdMember>, w: Worker, members: seq<EtcdMember>) {
    Deletable(w) && Along(start, w) && OnlyTargetLeft(w, all, members)
  }

  lemma {:induction false} GoOnTheWay(start: Worker, all: seq<EtcdMember>, w: Worker, w': Worker, members: seq<EtcdMember>)
    requires OnTheWay(start, all, w, members) && Deletable(w') && Along(w, w')
    ensures OnTheWay(start, all, w', members)
    ensures UrlKnown(w) ==> UrlKnown(w') && PeerUrl(w') == PeerUrl(w) && (IsPresent(w', members) <==> IsPresent(w, members))
  {
    GoOn(start, w, w', all, members);
  }

  lemma {:induction false} SamePresence(w: Worker, w': Worker, members: seq<EtcdMember>)
    requires UrlKnown(w) && Along(w, w')
    ensures UrlKnown(w') && PeerUrl(w') == PeerUrl(w) && (IsPresent(w', members) <==> IsPresent(w, members))
  {
    PeerUrlStays(w, w');
  }

  // ---------------------------------------------------------------------------------------------
  // Asking again changes nothing

  /** Asking this member again changes nothing: it has its port, or there is none for it. */
  predicate Settled(w: Worker, id: ComponentId) {
    AskOne(w, id) == w
  }

  lemma {:induction false} AskOneSettles(w: Worker, id: ComponentId)
    ensures Settled(AskOne(w, id), id)
  {
    if IsLive(w, id) {
      RequestInCases(w, id, ETCD_CLIENT);
      var w' := AskOne(w, id);
      if w' != w { RequestInCases(w', id, ETCD_CLIENT); }
    }
  }

  /** Where a key is refused, no other key gets a new port. */
  lemma {:induction false} FullStays(t: PortTable, k1: PortKey, k2: PortKey)
    requires Request(t, k1).NoPorts? && Request(t, k2).Granted?
    ensures Request(t, k2).table == t
  {
  }

  lemma {:induction false} SettledMeans(w: Worker, id: ComponentId)
    requires IsLive(w, id)
    ensures Settled(w, id) <==>
      var c := w.components[id];
      ETCD_CLIENT in c.ports || Request(w.hypervisors[c.hypervisor].ports, KeyOf(id, c.cluster, ETCD_CLIENT)).NoPorts?
  {
    RequestInCases(w, id, ETCD_CLIENT);
    var c := w.components[id];
    var r := Request(w.hypervisors[c.hypervisor].ports, KeyOf(id, c.cluster, ETCD_CLIENT));
    if ETCD_CLIENT !in c.ports && r.Granted? {
      assert ETCD_CLIENT in WithRequested(w, id, c.ports[ETCD_CLIENT := r.port], r.table).components[id].ports;
    }
  }

  lemma {:induction false} SettledStays(w: Worker, id: ComponentId, x: ComponentId, name: string)
    requires Settled(w, id) && x in w.components && w.components[x].hypervisor in w.hypervisors
    requires x == id ==> !IsLive(w, id) || name == ETCD_CLIENT
    ensures Settled(RequestIn(w, x, name), id)
  {
    var w' := RequestIn(w, x, name);
    RequestInCases(w, x, name);
    var c := w.components[x];
    var r := Request(w.hypervisors[c.hypervisor].ports, KeyOf(x, c.cluster, name));
    if name !in c.ports && r.Granted? && IsLive(w, id) {
      SettledMeans(w, id);
      var d := w.components[id];
      var key := KeyOf(id, d.cluster, ETCD_CLIENT);
      if ETCD_CLIENT !in d.ports && d.hypervisor == c.hypervisor {
        FullStays(w.hypervisors[d.hypervisor].ports, key, KeyOf(x, c.cluster, name));
      }
      assert IsLive(w', id);
      SettledMeans(w', id);
    }
  }

  lemma {:induction false} AskOneKeepsSettled(w: Worker, x: ComponentId, id: ComponentId)
    requires Settled(w, id)
    ensures Settled(AskOne(w, x), id)
  {
    if IsLive(w, x) { SettledStays(w, id, x, ETCD_CLIENT); }
  }

  lemma {:induction false} AskAllKeepsSettled(w: Worker, order: seq<ComponentId>, id: ComponentId)
    requires Settled(w, id)
    ensures Settled(AskAll(w, order), id)
    decreases |order|
  {
    if order == [] {
    } else {
      AskOneKeepsSettled(w, order[0], id);
      AskAllKeepsSettled(AskOne(w, order[0]), order[1..], id);
    }
  }

  lemma {:induction false} AskAllSettles(w: Worker, order: seq<ComponentId>, id: ComponentId)
    requires id in order
    ensures Settled(AskAll(w, order), id)
    decreases |order|
  {
    if order[0] == id {
      AskOneSettles(w, id);
      AskAllKeepsSettled(AskOne(w, id), order[1..], id);
    } else {
      AskAllSettles(AskOne(w, order[0]), order[1..], id);
    }
  }

  lemma {:induction false} SettledFixed(w: Worker, order: seq<ComponentId>)
    requires forall id :: id in order ==> Settled(w, id)
    ensures AskAll(w, order) == w
    decreases |order|
  {
    if order == [] {
    } else {
      assert Settled(w, order[0]);
      SettledFixed(w, order[1..]);
    }
  }

  /** The copies once the members were asked and the peer port of the target requested. */
  function WithPeerPort(w: Worker): Worker {
    if Scheduled(w) then RequestIn(w, w.target, ETCD_PEER) else w
  }

  /** Asking all again changes nothing, before the request of the peer port and after it; nor does requesting it again. */
  ghost predicate IsBase(w: Worker, order: seq<ComponentId>) {
    AskAll(w, order) == w && AskAll(WithPeerPort(w), order) == WithPeerPort(w) && WithPeerPort(WithPeerPort(w)) == WithPeerPort(w)
  }

  predicate IsAt(base: Worker, w: Worker) {
    w == base || w == WithPeerPort(base)
  }

  /** The attempts remove the target's member exactly if, the members once asked, there is a peer port for the target, and
      the outcomes get there. */
  predicate Removes(w: Worker, members: seq<EtcdMember>, order: seq<ComponentId>, attempts: seq<Attempt>) {
    var peer := WithPeerPort(AskAll(w, order));
    UrlKnown(peer) && GetsThere(attempts, IsPresent(peer, members))
  }

  /** With the port recorded that is a matter of the outcomes alone. */
  lemma {:induction false} RecordedDecides(w: Worker, members: seq<EtcdMember>, order: seq<ComponentId>, attempts: seq<Attempt>)
    requires Deletable(w) && UrlKnown(w)
    ensures Removes(w, members, order, attempts) <==> GetsThere(attempts, IsPresent(w, members))
  {
    AskAllAlong(w, order);
    StillDeletable(w, AskAll(w, order));
    PeerRequestAlong(AskAll(w, order));
    AlongOn(w, AskAll(w, order), WithPeerPort(AskAll(w, order)));
    SamePresence(w, WithPeerPort(AskAll(w, order)), members);
  }

  lemma {:induction false} AskedIsBase(w: Worker, order: seq<ComponentId>)
    requires Deletable(w)
    ensures IsBase(AskAll(w, order), order)
  {
    var a := AskAll(w, order);
    AskAllAlong(w, order);
    StillDeletable(w, a);
    forall id | id in order ensures Settled(a, id) && Settled(WithPeerPort(a), id) {
      AskAllSettles(w, order, id);
      SettledStays(a, id, a.target, ETCD_PEER);
    }
    SettledFixed(a, order);
    SettledFixed(WithPeerPort(a), order);
    RequestedTwice(a);
  }

  lemma {:induction false} RequestedTwice(w: Worker)
    requires Scheduled(w)
    ensures WithPeerPort(WithPeerPort(w)) == WithPeerPort(w)
  {
    RequestInCases(w, w.target, ETCD_PEER);
    var w' := WithPeerPort(w);
    if w' != w { RequestInCases(w', w'.target, ETCD_PEER); }
  }

  // ---------------------------------------------------------------------------------------------
  // The members of other control planes

  predicate HasPeerPort(w: Worker, id: ComponentId) {
    && id in w.components && w.components[id].hypervisor in w.hypervisors && ETCD_PEER in w.components[id].ports
    && Holds(w.hypervisors, w.components[id].hypervisor, KeyOf(id, w.components[id].cluster, ETCD_PEER), w.components[id].ports[ETCD_PEER])
  }

  /** Another control plane holds, on the target's hypervisor, the peer port the target records. */
  predicate TookPeerPort(w: Worker, id: ComponentId)
    requires Scheduled(w) && ETCD_PEER in w.components[w.target].ports && id in w.components
  {
    && w.components[id].hypervisor == w.components[w.target].hypervisor
    && Holds(w.hypervisors, w.components[w.target].hypervisor, KeyOf(id, w.components[id].cluster, ETCD_PEER),
             w.components[w.target].ports[ETCD_PEER])
  }

  /** The peer URL of the target is another control plane's exactly when that one took its port. */
  lemma {:induction false} OtherUrlExactly(w: Worker, id: ComponentId)
    requires Scheduled(w) && ETCD_PEER in w.components[w.target].ports && HasPeerPort(w, id) && AddressesApart(w.hypervisors)
    ensures UrlOf(w.hypervisors, w.components[id], ETCD_PEER) == PeerUrl(w) <==> TookPeerPort(w, id)
  {
    var c, t := w.components[id], w.components[w.target];
    if UrlOf(w.hypervisors, c, ETCD_PEER) == PeerUrl(w) {
      UrlInjective(w.hypervisors[c.hypervisor].ipAddress, c.ports[ETCD_PEER], w.hypervisors[t.hypervisor].ipAddress, t.ports[ETCD_PEER]);
    }
  }

  /** Nobody took it while the target holds it itself. */
  lemma {:induction false} OwnPortIsNotTaken(w: Worker, id: ComponentId)
    requires Scheduled(w) && TablesValid(w.hypervisors) && HasPeerPort(w, w.target) && id in w.components && id != w.target
    ensures !TookPeerPort(w, id)
  {
    if TookPeerPort(w, id) {
      var k1, k2 := KeyOf(id, w.components[id].cluster, ETCD_PEER), TargetKey(w, ETCD_PEER);
      HeldInjective(TargetTable(w), k1, k2);
      KeysNeverClash(id, w.components[id].cluster, ETCD_PEER, w.target, w.components[w.target].cluster, ETCD_PEER);
    }
  }

  lemma {:induction false} OtherKeepsPeerPort(w: Worker, order: seq<ComponentId>, id: ComponentId)
    requires Deletable(w) && HasPeerPort(w, id) && id != w.target && AddressesApart(w.hypervisors)
    ensures var p := PeerWorker(w, order);
      && HasPeerPort(p, id) && AddressesApart(p.hypervisors)
      && UrlOf(p.hypervisors, p.components[id], ETCD_PEER) == UrlOf(w.hypervisors, w.components[id], ETCD_PEER)
  {
    var p := PeerWorker(w, order);
    var w1 := FreeIn(w, API_SERVER);
    PeerWorkerMoves(w, order);
    FreeKeepsOther(w, id);
    var c := w.components[id];
    assert SameAt(w.components, p.components, id);
    assert PortsGrow(w1.components[id].ports, p.components[id].ports);
    assert MovedAt(w.target, w.hypervisors, p.hypervisors, c.hypervisor);
    assert OthersKept(w.target, w.hypervisors[c.hypervisor].ports, p.hypervisors[c.hypervisor].ports, id, c.cluster, ETCD_PEER);
    forall g, h | g in p.hypervisors && h in p.hypervisors && g != h ensures p.hypervisors[g].ipAddress != p.hypervisors[h].ipAddress {
      assert MovedAt(w.target, w.hypervisors, p.hypervisors, g) && MovedAt(w.target, w.hypervisors, p.hypervisors, h);
    }
  }

  /** The member of another control plane leaves only if that control plane took the port the target records: never while
      the target holds that port itself, and never if it records none. */
  lemma {:induction false} OtherMemberStays(w: Worker, order: seq<ComponentId>, before: seq<EtcdMember>, after: seq<EtcdMember>,
      id: ComponentId, m: EtcdMember)
    requires Deletable(w) && MembersAfter(w, order, before, after)
    requires HasPeerPort(w, id) && id != w.target && AddressesApart(w.hypervisors)
    requires m in before && m.peerUrls == [UrlOf(w.hypervisors, w.components[id], ETCD_PEER)]
    ensures m !in after ==> UrlKnown(w) && TookPeerPort(w, id)
    ensures HasPeerPort(w, w.target) ==> m in after
    ensures !UrlKnown(w) ==> m in after
  {
    var p := PeerWorker(w, order);
    if UrlKnown(w) {
      RecordedUrl(w, order);
      OtherUrlExactly(w, id);
      if HasPeerPort(w, w.target) { OwnPortIsNotTaken(w, id); }
    } else if UrlKnown(p) {
      RequestedUrl(w, order);
      PeerWorkerMoves(w, order);
      OtherKeepsPeerPort(w, order, id);
      OwnPortIsNotTaken(p, id);
      OtherUrlExactly(p, id);
    }
  }

  /** If it did, and the target's member is said to be gone, then so is its own. */
  lemma {:induction false} TakenMemberGoes(w: Worker, after: seq<EtcdMember>, id: ComponentId, m: EtcdMember)
    requires Scheduled(w) && ETCD_PEER in w.components[w.target].ports && NoMember(after, PeerUrl(w))
    requires HasPeerPort(w, id) && AddressesApart(w.hypervisors) && TookPeerPort(w, id)
    requires m.peerUrls == [UrlOf(w.hypervisors, w.components[id], ETCD_PEER)]
    ensures m !in after
  {
    OtherUrlExactly(w, id);
  }

  // ---------------------------------------------------------------------------------------------
  // The points a deletion can come to

  function Freed(w: Worker, name: string): Worker {
    if Scheduled(w) then FreeIn(w, name) else w
  }

  function EtcdStopped(w: Worker): Worker {
    Freed(Freed(w, ETCD_PEER), ETCD_CLIENT)
  }

  function CleanedUp(w: Worker): Worker {
    if Scheduled(w) then ForgetIn(w) else w
  }

  /** Up to the end of the attempts to leave the etcd cluster. */
  predicate LeftAt(w: Worker, order: seq<ComponentId>, w': Worker)
    requires Scheduled(w)
  {
    w' == w || w' == FreeIn(w, API_SERVER) || IsAt(AskAll(FreeIn(w, API_SERVER), order), w')
  }

  ghost predicate CameTo(w: Worker, order: seq<ComponentId>, w': Worker)
    requires Scheduled(w)
  {
    exists x :: LeftAt(w, order, x) && (w' == x || w' == EtcdStopped(x) || w' == CleanedUp(EtcdStopped(x)))
  }
}
