/** Whole passes, step by step: the states in which a deletion goes wrong are reached from the initial state, and a deletion
    that nobody disturbs gets done. */
module DeletionTraces {
  import opened Options
  import opened Ports
  import Paths
  import Files
  import opened Components
  import opened Protocol
  import opened ProtocolInvariant
  import opened ProtocolTheorems
  import opened ProtocolEffects
  import opened DeletionSteps
  import opened DeletionRuns
  import opened Deletion

  ghost predicate IsReachable(s: State) {
    exists events :: s == Execute(INITIAL, events)
  }

  /** Reachable, and no worker is at it. */
  ghost predicate IsQuiet(s: State) {
    IsReachable(s) && s.workers == map[]
  }

  lemma {:induction false} StartIsQuiet()
    ensures IsQuiet(INITIAL)
  {
    assert INITIAL == Execute(INITIAL, []);
  }

  lemma {:induction false} Step(s: State, e: Event)
    requires IsReachable(s)
    ensures IsReachable(Apply(s, e))
  {
    var events :| s == Execute(INITIAL, events);
    assert (events + [e])[..|events|] == events;
    assert Apply(s, e) == Execute(INITIAL, events + [e]);
  }

  // ---------------------------------------------------------------------------------------------
  // Whole passes

  lemma {:induction false} OutsidePass(s: State, e: Event) returns (s': State)
    requires IsQuiet(s) && IsOutside(e)
    ensures IsQuiet(s') && s'.store == Outside(s.store, e)
  {
    s' := Apply(s, e);
    Step(s, e);
  }

  function Placed(st: Store, id: ComponentId, h: string): Store
    requires id in st.components
  {
    PutComponent(st, id, st.components[id].(hypervisor := h, finalizers := Admit(st.components[id].finalizers)))
  }

  lemma {:induction false} SchedulePass(s: State, id: ComponentId, h: string) returns (s': State)
    requires IsQuiet(s) && id in s.store.components && h in s.store.hypervisors
    requires var c := s.store.components[id];
      c.hypervisor == "" && !c.deleted && Eligible(c.role, s.store.hypervisors[h].public)
    ensures IsQuiet(s') && s'.store == Placed(s.store, id, h)
  {
    var s1 := Apply(s, ListUnscheduled(0));
    Step(s, ListUnscheduled(0));
    var s2 := Apply(s1, ListCandidates(0));
    Step(s1, ListCandidates(0));
    s' := Apply(s2, Assign(0, id, h));
    Step(s2, Assign(0, id, h));
  }

  /** What a pass over a component reads, if nobody writes meanwhile. */
  function ReadWorker(st: Store, id: ComponentId): Worker
    requires id in st.components
  {
    var deleted, components := st.components[id].deleted, ClusterComponents(st, id);
    Worker(id, false, !deleted, if deleted then Work else Reserve, Local, st.hypervisors, st.hypervisors, components, components)
  }

  lemma {:induction false} BeginStep(s: State, id: ComponentId) returns (s': State)
    requires IsQuiet(s) && id in s.store.components
    ensures IsReachable(s') && s'.store == s.store
    ensures var deleted := s.store.components[id].deleted;
      s'.workers == map[1 := Worker(id, false, !deleted, if deleted then Work else Reserve, ReadHypervisors, map[], map[], map[], map[])]
  {
    s' := Apply(s, Begin(1, id, false));
    Step(s, Begin(1, id, false));
  }

  lemma {:induction false} ListStep(s: State, w: Worker) returns (s': State)
    requires IsReachable(s) && s.workers == map[1 := w] && w.stage == ReadHypervisors
    ensures IsReachable(s') && s'.store == s.store
    ensures s'.workers == map[1 := w.(stage := ReadComponents, loadedHypervisors := s.store.hypervisors,
      hypervisors := s.store.hypervisors, loadedComponents := map[], components := map[])]
  {
    s' := Apply(s, ListHypervisors(1));
    Step(s, ListHypervisors(1));
  }

  lemma {:induction false} ReadPass(s: State, id: ComponentId) returns (s': State)
    requires IsQuiet(s) && id in s.store.components
    ensures IsReachable(s') && s'.store == s.store && s'.workers == map[1 := ReadWorker(s.store, id)]
  {
    var s1 := BeginStep(s, id);
    var s2 := ListStep(s1, s1.workers[1]);
    s' := Apply(s2, ListComponents(1));
    Step(s2, ListComponents(1));
  }

  /** Stopping the worker leaves the store as it is. */
  lemma {:induction false} StopPass(s: State) returns (s': State)
    requires IsReachable(s) && s.workers.Keys == {1}
    ensures IsQuiet(s') && s'.store == s.store
  {
    s' := Apply(s, Stop(1));
    Step(s, Stop(1));
    assert s.workers - {1} == map[];
  }

  /** Worker 1, alone, with a hypervisor to write that nobody wrote since it was read. */
  predicate WritesHypervisor(s: State, w: Worker, h: string) {
    && s.workers == map[1 := w] && w.stage == WriteHypervisors && DirtyHypervisor(w, h)
    && h in s.store.hypervisors && s.store.hypervisors[h].version == w.hypervisors[h].version
  }

  function WithTable(st: Store, h: string, t: PortTable): Store
    requires h in st.hypervisors
  {
    PutHypervisor(st, h, st.hypervisors[h].(ports := t))
  }

  lemma {:induction false} WritePass(s: State, w: Worker, h: string, t: PortTable) returns (s': State, w': Worker)
    requires IsReachable(s) && WritesHypervisor(s, w, h) && w.hypervisors[h] == s.store.hypervisors[h].(ports := t)
    requires t.low == s.store.hypervisors[h].ports.low && t.high == s.store.hypervisors[h].ports.high
    ensures IsReachable(s') && s'.store == WithTable(s.store, h, t) && s'.workers == map[1 := w']
    ensures w' == w.(
      loadedHypervisors := w.loadedHypervisors[h := s'.store.hypervisors[h]],
      hypervisors := w.hypervisors[h := s'.store.hypervisors[h]])
  {
    s' := Apply(s, WriteHypervisor(1, h));
    Step(s, WriteHypervisor(1, h));
    assert WithHypervisorStatus(s.store.hypervisors[h], w.hypervisors[h]) == s.store.hypervisors[h].(ports := t);
    w' := s'.workers[1];
  }

  /** The ports a control plane gets from a table, and what is left of the table. */
  ghost predicate Gets(st: Store, id: ComponentId, ports: map<string, int>, table: PortTable) {
    && id in st.components
    && var c := st.components[id];
    && c.role == ControlPlane && c.hypervisor in st.hypervisors && ports != c.ports && table != st.hypervisors[c.hypervisor].ports
    && table.low == st.hypervisors[c.hypervisor].ports.low && table.high == st.hypervisors[c.hypervisor].ports.high
    && RequestAll(c.ports, st.hypervisors[c.hypervisor].ports, id, c.cluster, PortNames(ControlPlane, false)) == Ready(ports, table)
  }

  /** The copies once the ports are reserved. */
  function ReservedWorker(st: Store, id: ComponentId, ports: map<string, int>, table: PortTable): Worker
    requires id in st.components && st.components[id].hypervisor in st.hypervisors
  {
    var c := st.components[id];
    ReadWorker(st, id).(
      stage := WriteHypervisors,
      hypervisors := st.hypervisors[c.hypervisor := st.hypervisors[c.hypervisor].(ports := table)],
      components := ClusterComponents(st, id)[id := c.(ports := ports)])
  }

  lemma {:induction false} ReservedIs(st: Store, id: ComponentId, ports: map<string, int>, table: PortTable)
    requires Gets(st, id, ports, table) && !st.components[id].deleted
    ensures Reserved(ReadWorker(st, id)) == Some(ReservedWorker(st, id, ports, table))
  {
  }

  lemma {:induction false} LocalStep(s: State, w: Worker, w': Worker) returns (s': State)
    requires IsReachable(s) && s.workers == map[1 := w] && w.round == Reserve && w.stage == Local
    requires w.target in w.components && Reserved(w) == Some(w')
    ensures IsReachable(s') && s'.store == s.store && s'.workers == map[1 := w']
  {
    s' := Apply(s, PreReconcile(1));
    Step(s, PreReconcile(1));
  }

  /** A pass up to the write of the hypervisor. */
  lemma {:induction false} ReservedPass(s: State, id: ComponentId, ports: map<string, int>, table: PortTable)
    returns (s': State, w: Worker)
    requires IsQuiet(s) && Gets(s.store, id, ports, table) && !s.store.components[id].deleted
    ensures var g := s.store.components[id].hypervisor;
      && IsReachable(s') && s'.store == WithTable(s.store, g, table) && s'.workers == map[1 := w]
      && w == ReservedWorker(s.store, id, ports, table).(
           loadedHypervisors := s.store.hypervisors[g := s'.store.hypervisors[g]],
           hypervisors := s.store.hypervisors[g := s'.store.hypervisors[g]])
  {
    var g := s.store.components[id].hypervisor;
    var s1 := ReadPass(s, id);
    var r := ReservedWorker(s.store, id, ports, table);
    ReservedIs(s.store, id, ports, table);
    var s2 := LocalStep(s1, ReadWorker(s.store, id), r);
    s', w := WritePass(s2, r, g, table);
    assert r.hypervisors[g := s'.store.hypervisors[g]] == s.store.hypervisors[g := s'.store.hypervisors[g]];
  }

  /** A pass that stops once the hypervisor is written. */
  lemma {:induction false} InterruptedPass(s: State, id: ComponentId, ports: map<string, int>, table: PortTable) returns (s': State)
    requires IsQuiet(s) && Gets(s.store, id, ports, table) && !s.store.components[id].deleted
    ensures IsQuiet(s') && s'.store == WithTable(s.store, s.store.components[id].hypervisor, table)
  {
    var s1, w := ReservedPass(s, id, ports, table);
    s' := StopPass(s1);
  }

  function WithPorts(st: Store, id: ComponentId, ports: map<string, int>): Store
    requires id in st.components
  {
    PutComponent(st, id, st.components[id].(ports := ports))
  }

  lemma {:induction false} ContinueStep(s: State, w: Worker) returns (s': State)
    requires IsReachable(s) && s.workers == map[1 := w] && w.stage == WriteHypervisors && w.hypervisors == w.loadedHypervisors
    ensures IsReachable(s') && s'.store == s.store && s'.workers == map[1 := w.(stage := WriteComponents)]
  {
    s' := Apply(s, Continue(1));
    Step(s, Continue(1));
  }

  lemma {:induction false} WriteComponentStep(s: State, w: Worker, id: ComponentId, ports: map<string, int>) returns (s': State)
    requires IsReachable(s) && s.workers == map[1 := w] && w.stage == WriteComponents && DirtyComponent(w, id)
    requires id in s.store.components && w.components[id] == s.store.components[id].(ports := ports)
    ensures IsReachable(s') && s'.store == WithPorts(s.store, id, ports) && s'.workers.Keys == {1}
  {
    s' := Apply(s, WriteComponent(1, id));
    Step(s, WriteComponent(1, id));
    assert WithComponentStatus(s.store.components[id], w.components[id]) == s.store.components[id].(ports := ports);
  }

  /** A pass that reserves the ports and writes both objects. */
  lemma {:induction false} ReservePass(s: State, id: ComponentId, ports: map<string, int>, table: PortTable) returns (s': State)
    requires IsQuiet(s) && Gets(s.store, id, ports, table) && !s.store.components[id].deleted
    ensures IsQuiet(s') && s'.store == WithPorts(WithTable(s.store, s.store.components[id].hypervisor, table), id, ports)
  {
    var s1, w := ReservedPass(s, id, ports, table);
    var s2 := ContinueStep(s1, w);
    var s3 := WriteComponentStep(s2, w.(stage := WriteComponents), id, ports);
    s' := StopPass(s3);
  }

  // ---------------------------------------------------------------------------------------------
  // A deletion that fails after the ports are freed

  function FreedAll(w: Worker): Worker {
    Freed(Freed(Freed(w, API_SERVER), ETCD_PEER), ETCD_CLIENT)
  }

  lemma {:induction false} FreeStep(s: State, w: Worker, name: string) returns (s': State)
    requires IsReachable(s) && s.workers == map[1 := w] && Deleting(w) && name in PortNames(ControlPlane, w.vpn)
    ensures IsReachable(s') && s'.store == s.store && s'.workers == map[1 := Freed(w, name)]
  {
    s' := Apply(s, FreePort(1, name));
    Step(s, FreePort(1, name));
  }

  lemma {:induction false} FreedStays(w: Worker, name: string)
    requires Deleting(w)
    ensures Deleting(Freed(w, name)) && Freed(w, name).vpn == w.vpn
  {
  }

  lemma {:induction false} FreeAllSteps(s: State, w: Worker) returns (s': State)
    requires IsReachable(s) && s.workers == map[1 := w] && Deleting(w)
    ensures IsReachable(s') && s'.store == s.store && s'.workers == map[1 := FreedAll(w)] && Deleting(FreedAll(w))
  {
    var w1, w2 := Freed(w, API_SERVER), Freed(Freed(w, API_SERVER), ETCD_PEER);
    FreedStays(w, API_SERVER);
    FreedStays(w1, ETCD_PEER);
    FreedStays(w2, ETCD_CLIENT);
    var s1 := FreeStep(s, w, API_SERVER);
    var s2 := FreeStep(s1, w1, ETCD_PEER);
    s' := FreeStep(s2, w2, ETCD_CLIENT);
  }

  lemma {:induction false} SkipStep(s: State, w: Worker) returns (s': State)
    requires IsReachable(s) && s.workers == map[1 := w] && CanSave(w)
    ensures IsReachable(s') && s'.store == s.store && s'.workers == map[1 := Settle(w)]
  {
    s' := Apply(s, SkipTarget(1));
    Step(s, SkipTarget(1));
  }

  lemma {:induction false} OneFrame(w: Worker, name: string)
    ensures Freed(w, name).loadedHypervisors == w.loadedHypervisors && Freed(w, name).loadedComponents == w.loadedComponents
    ensures Freed(w, name).components.Keys == w.components.Keys
  {
  }

  lemma {:induction false} SameFrame(w: Worker)
    ensures FreedAll(w).loadedHypervisors == w.loadedHypervisors && FreedAll(w).loadedComponents == w.loadedComponents
    ensures FreedAll(w).components.Keys == w.components.Keys
  {
    OneFrame(w, API_SERVER);
    OneFrame(Freed(w, API_SERVER), ETCD_PEER);
    OneFrame(Freed(Freed(w, API_SERVER), ETCD_PEER), ETCD_CLIENT);
  }

  /** The ports are freed and the hypervisor is written, but the deletion failed, so the component is not. */
  lemma {:induction false} FailedDeletionPass(s: State, id: ComponentId, table: PortTable) returns (s': State)
    requires IsQuiet(s) && id in s.store.components && s.store.components[id].hypervisor in s.store.hypervisors
    requires s.store.components[id].deleted && s.store.components[id].role == ControlPlane
    requires var h := s.store.hypervisors[s.store.components[id].hypervisor];
      table != h.ports && table.low == h.ports.low && table.high == h.ports.high
    requires FreedAll(ReadWorker(s.store, id)).hypervisors ==
      s.store.hypervisors[s.store.components[id].hypervisor := s.store.hypervisors[s.store.components[id].hypervisor].(ports := table)]
    ensures IsQuiet(s') && s'.store == WithTable(s.store, s.store.components[id].hypervisor, table)
  {
    var w := ReadWorker(s.store, id);
    var s1 := ReadPass(s, id);
    var s2 := FreeAllSteps(s1, w);
    SameFrame(w);
    var s3 := SkipStep(s2, FreedAll(w));
    var s4, w4 := WritePass(s3, Settle(FreedAll(w)), s.store.components[id].hypervisor, table);
    s' := StopPass(s4);
  }

  // ---------------------------------------------------------------------------------------------
  // The tables on the way

  /** Three ports, held under the three names of a control plane. */
  function HeldBy(id: ComponentId, cluster: string, low: int): seq<Allocation> {
    [Allocation(KeyOf(id, cluster, API_SERVER), low), Allocation(KeyOf(id, cluster, ETCD_PEER), low + 1),
     Allocation(KeyOf(id, cluster, ETCD_CLIENT), low + 2)]
  }

  function ThreePorts(low: int): map<string, int> {
    map[API_SERVER := low, ETCD_PEER := low + 1, ETCD_CLIENT := low + 2]
  }

  /** A key that is not listed gets the oldest freed port, else the next one. */
  lemma {:induction false} NewKey(t: PortTable, key: PortKey)
    requires (forall i :: 0 <= i < |t.allocations| ==> t.allocations[i].key != key) && t.low + |t.allocations| <= t.high
    ensures var port := if |t.freed| > 0 then t.freed[0] else t.low + |t.allocations|;
      Request(t, key) == Granted(port, t.(allocations := t.allocations + [Allocation(key, port)],
                                          freed := if |t.freed| > 0 then t.freed[1..] else t.freed))
  {
    AssignedIsListed(t.allocations, key);
  }

  lemma {:induction false} OneGrant(ports: map<string, int>, t: PortTable, t': PortTable, port: int, id: ComponentId, cluster: string,
      name: string, names: seq<string>, rest: seq<string>)
    requires name !in ports && names == [name] + rest && Request(t, KeyOf(id, cluster, name)) == Granted(port, t')
    ensures RequestAll(ports, t, id, cluster, names) == RequestAll(ports[name := port], t', id, cluster, rest)
  {
    assert names[1..] == rest;
  }

  /** Requests of the three names, each of them granted. */
  lemma {:induction false} ThreeGrants(id: ComponentId, cluster: string, t: PortTable, t1: PortTable, t2: PortTable, t3: PortTable)
    requires Request(t, KeyOf(id, cluster, API_SERVER)) == Granted(t.low, t1)
    requires Request(t1, KeyOf(id, cluster, ETCD_PEER)) == Granted(t.low + 1, t2)
    requires Request(t2, KeyOf(id, cluster, ETCD_CLIENT)) == Granted(t.low + 2, t3)
    ensures RequestAll(map[], t, id, cluster, PortNames(ControlPlane, false)) == Ready(ThreePorts(t.low), t3)
  {
    var p1, p2 := map[API_SERVER := t.low], map[API_SERVER := t.low, ETCD_PEER := t.low + 1];
    OneGrant(map[], t, t1, t.low, id, cluster, API_SERVER, PortNames(ControlPlane, false), [ETCD_PEER, ETCD_CLIENT]);
    OneGrant(p1, t1, t2, t.low + 1, id, cluster, ETCD_PEER, [ETCD_PEER, ETCD_CLIENT], [ETCD_CLIENT]);
    OneGrant(p2, t2, t3, t.low + 2, id, cluster, ETCD_CLIENT, [ETCD_CLIENT], []);
    assert p1[ETCD_PEER := t.low + 1] == p2 && p2[ETCD_CLIENT := t.low + 2] == ThreePorts(t.low);
  }

  lemma {:induction false} NamesApart(id: ComponentId, cluster: string)
    ensures KeyOf(id, cluster, API_SERVER) != KeyOf(id, cluster, ETCD_PEER)
    ensures KeyOf(id, cluster, API_SERVER) != KeyOf(id, cluster, ETCD_CLIENT)
    ensures KeyOf(id, cluster, ETCD_PEER) != KeyOf(id, cluster, ETCD_CLIENT)
  {
    if KeyOf(id, cluster, API_SERVER) == KeyOf(id, cluster, ETCD_PEER) {
      KeysNeverClash(id, cluster, API_SERVER, id, cluster, ETCD_PEER);
    }
    if KeyOf(id, cluster, API_SERVER) == KeyOf(id, cluster, ETCD_CLIENT) {
      KeysNeverClash(id, cluster, API_SERVER, id, cluster, ETCD_CLIENT);
    }
    if KeyOf(id, cluster, ETCD_PEER) == KeyOf(id, cluster, ETCD_CLIENT) {
      KeysNeverClash(id, cluster, ETCD_PEER, id, cluster, ETCD_CLIENT);
    }
  }

  /** From a table that holds nothing, whether its first three ports are fresh or were freed in order. */
  predicate Untaken(t: PortTable) {
    t.allocations == [] && t.low + 2 <= t.high && (t.freed == [] || t.freed == [t.low, t.low + 1, t.low + 2])
  }

  /** The table after the first `n` of the three requests. */
  function Taken(id: ComponentId, cluster: string, t: PortTable, n: nat): PortTable
    requires Untaken(t) && n <= 3
  {
    PortTable(t.low, t.high, HeldBy(id, cluster, t.low)[..n], if t.freed == [] then [] else t.freed[n..])
  }

  lemma {:induction false} NextTaken(id: ComponentId, cluster: string, t: PortTable, n: nat)
    requires Untaken(t) && n < 3
    ensures Request(Taken(id, cluster, t, n), HeldBy(id, cluster, t.low)[n].key) == Granted(t.low + n, Taken(id, cluster, t, n + 1))
  {
    var held := HeldBy(id, cluster, t.low);
    NamesApart(id, cluster);
    NewKey(Taken(id, cluster, t, n), held[n].key);
    assert held[..n] + [held[n]] == held[..n + 1];
    assert t.freed != [] ==> t.freed[n..][1..] == t.freed[n + 1..];
  }

  lemma {:induction false} FirstThree(id: ComponentId, cluster: string, t: PortTable)
    requires Untaken(t)
    ensures RequestAll(map[], t, id, cluster, PortNames(ControlPlane, false)) ==
      Ready(ThreePorts(t.low), PortTable(t.low, t.high, HeldBy(id, cluster, t.low), []))
  {
    NextTaken(id, cluster, t, 0);
    NextTaken(id, cluster, t, 1);
    NextTaken(id, cluster, t, 2);
    assert Taken(id, cluster, t, 0) == t;
    assert Taken(id, cluster, t, 3) == PortTable(t.low, t.high, HeldBy(id, cluster, t.low), []);
    ThreeGrants(id, cluster, t, Taken(id, cluster, t, 1), Taken(id, cluster, t, 2), Taken(id, cluster, t, 3));
  }

  /** The first entry of a list is the one to go. */
  lemma {:induction false} FirstGoes(a: Allocation, rest: seq<Allocation>)
    requires forall i :: 0 <= i < |rest| ==> rest[i].key != a.key
    ensures Without([a] + rest, a.key) == rest
    ensures a.key in Assigned([a] + rest) && Assigned([a] + rest)[a.key] == a.port
    decreases |rest|
  {
    var all := [a] + rest;
    if rest == [] {
      assert all[..0] == [];
    } else {
      FirstGoes(a, rest[..|rest| - 1]);
      assert all[..|all| - 1] == [a] + rest[..|rest| - 1];
    }
  }

  lemma {:induction false} FirstFreed(t: PortTable, a: Allocation, rest: seq<Allocation>)
    requires t.allocations == [a] + rest && forall i :: 0 <= i < |rest| ==> rest[i].key != a.key
    ensures Free(t, a.key) == t.(allocations := rest, freed := t.freed + [a.port])
  {
    FirstGoes(a, rest);
  }

  /** The ports the target records and the table of its hypervisor became these, and nothing else changed. */
  predicate FreedTo(w: Worker, w': Worker, ports: map<string, int>, t: PortTable) {
    && Scheduled(w) && Scheduled(w') && w'.target == w.target
    && var c := w.components[w.target];
    && w'.components[w.target] == c.(ports := ports)
    && w'.hypervisors == w.hypervisors[c.hypervisor := w.hypervisors[c.hypervisor].(ports := t)]
  }

  /** The first entry moves to the end of the freed queue. */
  predicate FirstMoves(t: PortTable, t': PortTable, key: PortKey) {
    && t.allocations != [] && t.allocations[0].key == key && t.allocations[1..] == t'.allocations
    && (forall i :: 0 <= i < |t'.allocations| ==> t'.allocations[i].key != key)
    && t' == t.(allocations := t'.allocations, freed := t'.freed) && t'.freed == t.freed + [t.allocations[0].port]
  }

  lemma {:induction false} FreesFirst(w: Worker, w1: Worker, name: string, ports: map<string, int>, t: PortTable, t': PortTable)
    requires FreedTo(w, w1, ports, t) && name in ports && FirstMoves(t, t', TargetKey(w, name))
    ensures FreedTo(w, Freed(w1, name), ports - {name}, t')
  {
    FirstFreed(t, t.allocations[0], t'.allocations);
  }

  lemma {:induction false} ThreeMoves(id: ComponentId, cluster: string, low: int, high: int)
    ensures var held := HeldBy(id, cluster, low);
      && FirstMoves(PortTable(low, high, held, []), PortTable(low, high, held[1..], [low]), KeyOf(id, cluster, API_SERVER))
      && FirstMoves(PortTable(low, high, held[1..], [low]), PortTable(low, high, held[2..], [low, low + 1]), KeyOf(id, cluster, ETCD_PEER))
      && FirstMoves(PortTable(low, high, held[2..], [low, low + 1]), PortTable(low, high, [], [low, low + 1, low + 2]),
                    KeyOf(id, cluster, ETCD_CLIENT))
  {
    NamesApart(id, cluster);
  }

  lemma {:induction false} AllFreed(w: Worker, t1: PortTable, t2: PortTable, t3: PortTable)
    requires Scheduled(w) && API_SERVER in w.components[w.target].ports
    requires ETCD_PEER in w.components[w.target].ports && ETCD_CLIENT in w.components[w.target].ports
    requires FirstMoves(TargetTable(w), t1, TargetKey(w, API_SERVER)) && FirstMoves(t1, t2, TargetKey(w, ETCD_PEER))
    requires FirstMoves(t2, t3, TargetKey(w, ETCD_CLIENT))
    ensures var g := w.components[w.target].hypervisor;
      FreedAll(w).hypervisors == w.hypervisors[g := w.hypervisors[g].(ports := t3)]
  {
    var ports := w.components[w.target].ports;
    var w1, w2 := Freed(w, API_SERVER), Freed(Freed(w, API_SERVER), ETCD_PEER);
    assert FreedTo(w, w, ports, TargetTable(w));
    FreesFirst(w, w, API_SERVER, ports, TargetTable(w), t1);
    FreesFirst(w, w1, ETCD_PEER, ports - {API_SERVER}, t1, t2);
    FreesFirst(w, w2, ETCD_CLIENT, ports - {API_SERVER} - {ETCD_PEER}, t2, t3);
  }

  // ---------------------------------------------------------------------------------------------
  // The two runs

  /** One private hypervisor, with this table. */
  predicate OneHypervisor(st: Store, h: string, t: PortTable) {
    h != "" && st.hypervisors.Keys == {h} && !st.hypervisors[h].public && st.hypervisors[h].ports == t
  }

  /** A control plane of the cluster, placed there. */
  predicate PlacedThere(c: ComponentObject, cluster: string, h: string, ports: map<string, int>) {
    c.role == ControlPlane && c.cluster == cluster && c.hypervisor == h && c.finalizers != [] && c.ports == ports
  }

  lemma {:induction false} FirstHypervisor(h: string, ipAddress: string, low: int, high: int) returns (s: State)
    requires h != ""
    ensures IsQuiet(s) && OneHypervisor(s.store, h, Empty(low, high)) && s.store.components == map[] && s.store.used == {}
  {
    StartIsQuiet();
    s := OutsidePass(INITIAL, AddHypervisor(h, false, ipAddress, low, high));
  }

  lemma {:induction false} NewComponent(s: State, id: ComponentId, cluster: string, h: string, t: PortTable) returns (s': State)
    requires IsQuiet(s) && OneHypervisor(s.store, h, t) && id !in s.store.used
    ensures IsQuiet(s') && s'.store.hypervisors == s.store.hypervisors && s'.store.used == s.store.used + {id}
    ensures s'.store.components.Keys == s.store.components.Keys + {id}
    ensures s'.store.components == s.store.components[id := s'.store.components[id]]
    ensures PlacedThere(s'.store.components[id], cluster, h, map[]) && !s'.store.components[id].deleted
  {
    var s1 := OutsidePass(s, CreateComponent(id, cluster, ControlPlane, []));
    s' := SchedulePass(s1, id, h);
  }

  lemma {:induction false} DeletePass(s: State, id: ComponentId) returns (s': State)
    requires IsQuiet(s) && id in s.store.components && s.store.components[id].finalizers != []
    ensures IsQuiet(s') && s'.store.hypervisors == s.store.hypervisors && s'.store.used == s.store.used + {id}
    ensures s'.store.components.Keys == s.store.components.Keys
    ensures s'.store.components[id].deleted
    ensures s'.store.components == s.store.components[id := s'.store.components[id]]
    ensures forall cluster, h, ports ::
      PlacedThere(s.store.components[id], cluster, h, ports) ==> PlacedThere(s'.store.components[id], cluster, h, ports)
  {
    s' := OutsidePass(s, DeleteComponent(id));
  }

  lemma {:induction false} ReachedTables(s: State)
    requires IsReachable(s)
    ensures AllValid(s)
  {
    var events :| s == Execute(INITIAL, events);
    ReachableOk(events);
  }

  lemma {:induction false} HeldByAll(w: Worker, cluster: string, low: int, high: int)
    requires Scheduled(w) && w.components[w.target].ports == map[] && w.components[w.target].cluster == cluster
    requires TargetTable(w) == PortTable(low, high, HeldBy(w.target, cluster, low), [])
    ensures Stray(w, API_SERVER) && Stray(w, ETCD_PEER) && Stray(w, ETCD_CLIENT)
  {
    var held := HeldBy(w.target, cluster, low);
    AssignedIsListed(held, held[0].key);
    AssignedIsListed(held, held[1].key);
    AssignedIsListed(held, held[2].key);
  }

  /** The state before an interrupted reservation is deleted is reached, for every control plane and every hypervisor with
      at least three ports: the pass that reserved the ports stopped between its two writes. */
  lemma {:induction false} InterruptedIsReached(h: string, ipAddress: string, low: int, high: int, id: ComponentId, cluster: string)
    returns (s: State)
    requires h != "" && low + 2 <= high
    ensures IsReachable(s) && 1 in s.workers && s.workers[1].target == id
    ensures Deleting(s.workers[1]) && IsInterrupted(s.workers[1])
  {
    var t, t' := Empty(low, high), PortTable(low, high, HeldBy(id, cluster, low), []);
    var s1 := FirstHypervisor(h, ipAddress, low, high);
    var s2 := NewComponent(s1, id, cluster, h, t);
    FirstThree(id, cluster, t);
    assert ThreePorts(low) != map[] by { assert API_SERVER in ThreePorts(low); }
    var s3 := InterruptedPass(s2, id, ThreePorts(low), t');
    var s4 := DeletePass(s3, id);
    s := ReadPass(s4, id);
    ReachedTables(s);
    HeldByAll(s.workers[1], cluster, low, high);
  }

  lemma {:induction false} ReservedIsReached(h: string, ipAddress: string, low: int, high: int, id: ComponentId, cluster: string)
    returns (s: State)
    requires h != "" && low + 2 <= high
    ensures IsQuiet(s) && OneHypervisor(s.store, h, PortTable(low, high, HeldBy(id, cluster, low), []))
    ensures s.store.components.Keys == {id} && s.store.used == {id}
    ensures PlacedThere(s.store.components[id], cluster, h, ThreePorts(low))
  {
    var t, t' := Empty(low, high), PortTable(low, high, HeldBy(id, cluster, low), []);
    var s1 := FirstHypervisor(h, ipAddress, low, high);
    var s2 := NewComponent(s1, id, cluster, h, t);
    FirstThree(id, cluster, t);
    assert ThreePorts(low) != map[] by { assert API_SERVER in ThreePorts(low); }
    s := ReservePass(s2, id, ThreePorts(low), t');
  }

  /** A deletion that failed once the ports were freed: the component still records them, the hypervisor holds none. */
  lemma {:induction false} FailedIsReached(h: string, ipAddress: string, low: int, high: int, id: ComponentId, cluster: string)
    returns (s: State)
    requires h != "" && low + 2 <= high
    ensures IsQuiet(s) && OneHypervisor(s.store, h, PortTable(low, high, [], [low, low + 1, low + 2]))
    ensures s.store.components.Keys == {id} && s.store.used == {id}
    ensures s.store.components[id].deleted && PlacedThere(s.store.components[id], cluster, h, ThreePorts(low))
  {
    var s3 := ReservedIsReached(h, ipAddress, low, high, id, cluster);
    var s4 := DeletePass(s3, id);
    var w, held := ReadWorker(s4.store, id), HeldBy(id, cluster, low);
    var t1, t2 := PortTable(low, high, held[1..], [low]), PortTable(low, high, held[2..], [low, low + 1]);
    var t3 := PortTable(low, high, [], [low, low + 1, low + 2]);
    ThreeMoves(id, cluster, low, high);
    AllFreed(w, t1, t2, t3);
    s := FailedDeletionPass(s4, id, t3);
  }

  lemma {:induction false} TakesPeerPort(w: Worker, other: ComponentId, cluster: string, h: string, low: int, high: int)
    requires Deletable(w) && w.hypervisors.Keys == {h} && TargetTable(w) == PortTable(low, high, HeldBy(other, cluster, low), [])
    requires PlacedThere(w.components[w.target], cluster, h, ThreePorts(low))
    requires other != w.target && other in w.components && !w.components[other].deleted
    requires PlacedThere(w.components[other], cluster, h, ThreePorts(low))
    ensures IsTaken(w, other)
  {
    var held := HeldBy(other, cluster, low);
    NamesApart(other, cluster);
    ListedIsAssigned(held, 1);
  }

  /** The state before a retried deletion removes the member of another control plane is reached, for every two control
      planes of a cluster: the first deletion failed after it had freed the ports, and the other one got them. */
  lemma {:induction false} TakenIsReached(h: string, ipAddress: string, low: int, high: int,
      id: ComponentId, other: ComponentId, cluster: string) returns (s: State)
    requires h != "" && low + 2 <= high && id != other && id.namespace == other.namespace
    ensures IsReachable(s) && 1 in s.workers && s.workers[1].target == id
    ensures Deleting(s.workers[1]) && IsTaken(s.workers[1], other)
  {
    var t, t' := PortTable(low, high, [], [low, low + 1, low + 2]), PortTable(low, high, HeldBy(other, cluster, low), []);
    var s1 := FailedIsReached(h, ipAddress, low, high, id, cluster);
    var s2 := NewComponent(s1, other, cluster, h, t);
    FirstThree(other, cluster, t);
    assert ThreePorts(low) != map[] by { assert API_SERVER in ThreePorts(low); }
    var s3 := ReservePass(s2, other, ThreePorts(low), t');
    s := ReadPass(s3, id);
    ReachedTables(s);
    TakesPeerPort(s.workers[1], other, cluster, h, low, high);
  }

  // ---------------------------------------------------------------------------------------------
  // A deletion that nobody disturbs

  lemma {:induction false} ReachedRun(s: State, events: seq<Event>)
    requires IsReachable(s)
    ensures IsReachable(Execute(s, events))
  {
    var before :| s == Execute(INITIAL, before);
    ExecuteJoin(INITIAL, before, events);
    assert Execute(s, events) == Execute(INITIAL, before + events);
  }

  /** The copies a deletion came to, when it changed nothing but the target and its hypervisor. */
  ghost predicate DeletedAlone(w: Worker, order: seq<ComponentId>, w': Worker) {
    && Deleting(w) && Deletable(w) && CameTo(w, order, w') && Moves(w, w') && Scheduled(w')
    && w'.hypervisors - {w.components[w.target].hypervisor} == w.hypervisors - {w.components[w.target].hypervisor}
    && w'.components - {w.target} == w.components - {w.target}
  }

  lemma {:induction false} DeletionPass(s: State, w: Worker, order: seq<ComponentId>, w': Worker) returns (s': State)
    requires IsReachable(s) && s.workers == map[1 := w] && DeletedAlone(w, order, w')
    ensures IsReachable(s') && s'.store == s.store && s'.workers == map[1 := w']
  {
    DeletionIsRun(s, 1, order, w');
    var events :| IsDeletionRun(s, 1, w', events);
    ReachedRun(s, events);
    s' := SetWorker(s, 1, w');
  }

  lemma {:induction false} SaveStep(s: State, w: Worker) returns (s': State)
    requires IsReachable(s) && s.workers == map[1 := w] && CanSave(w)
    ensures IsReachable(s') && s' == Apply(s, SaveTarget(1)) && s'.workers == map[1 := Settle(w)]
  {
    s' := Apply(s, SaveTarget(1));
    Step(s, SaveTarget(1));
  }

  /** The status of the stored hypervisor is that of the copy. */
  predicate StatusWritten(stored: HypervisorObject, copy: HypervisorObject) {
    stored.ports == copy.ports && stored.files == copy.files && stored.public == copy.public && stored.ipAddress == copy.ipAddress
  }

  /** Worker 1 has nothing left to write. */
  lemma {:induction false} EndPass(s: State, w: Worker) returns (s': State)
    requires IsReachable(s) && s.workers == map[1 := w] && w.round == Work && w.stage == WriteHypervisors
    requires w.hypervisors == w.loadedHypervisors && w.components == w.loadedComponents
    ensures IsQuiet(s') && s'.store == s.store
  {
    var s1 := ContinueStep(s, w);
    s' := Apply(s1, Continue(1));
    Step(s1, Continue(1));
    assert s1.workers - {1} == map[];
  }

  lemma {:induction false} WriteStatusStep(s: State, w: Worker, g: string) returns (s': State, w': Worker)
    requires IsReachable(s) && WritesHypervisor(s, w, g) && SameSpec(s.store.hypervisors[g], w.hypervisors[g])
    requires w.hypervisors - {g} == w.loadedHypervisors - {g}
    ensures IsReachable(s') && s'.workers == map[1 := w'] && w' == w.(hypervisors := w'.hypervisors, loadedHypervisors := w'.hypervisors)
    ensures s'.store.components == s.store.components && g in s'.store.hypervisors
    ensures s'.store.hypervisors - {g} == s.store.hypervisors - {g} && StatusWritten(s'.store.hypervisors[g], w.hypervisors[g])
  {
    s' := Apply(s, WriteHypervisor(1, g));
    Step(s, WriteHypervisor(1, g));
    WriteStoresHypervisor(s, 1, g);
    w' := s'.workers[1];
    SameButOne(w.hypervisors, w.loadedHypervisors, g, s'.store.hypervisors[g]);
  }

  lemma {:induction false} SameButOne(x: map<string, HypervisorObject>, y: map<string, HypervisorObject>, g: string, z: HypervisorObject)
    requires x - {g} == y - {g}
    ensures x[g := z] == y[g := z]
  {
    assert x[g := z] == (x - {g})[g := z] && y[g := z] == (y - {g})[g := z];
  }

  /** What the deletion left is written: the target is gone from the store, its hypervisor has the status of the copy, and
      nothing else changed. */
  ghost predicate DeletionStored(st: Store, st': Store, w: Worker)
    requires Scheduled(w)
  {
    var g := w.components[w.target].hypervisor;
    && st'.components == st.components - {w.target}
    && g in st'.hypervisors && StatusWritten(st'.hypervisors[g], w.hypervisors[g])
    && st'.hypervisors - {g} == st.hypervisors - {g}
  }

  lemma {:induction false} SavedIsGone(s: State, w: Worker)
    requires s.workers == map[1 := w] && CanSave(w) && w.components[w.target].deleted
    requires IsCurrent(s.store, w.target, w.components[w.target])
    requires forall f :: f in w.components[w.target].finalizers ==> f == CLEANUP_FINALIZER
    ensures var st' := Apply(s, SaveTarget(1)).store;
      st'.components == s.store.components - {w.target} && st'.hypervisors == s.store.hypervisors
  {
    SaveEndsDeletion(s, 1);
    assert Apply(s, SaveTarget(1)).store.components - {w.target} == Apply(s, SaveTarget(1)).store.components;
  }

  lemma {:induction false} WriteAndEnd(s: State, w: Worker, g: string, copy: HypervisorObject) returns (s': State)
    requires IsReachable(s) && s.workers == map[1 := w] && w.round == Work && w.stage == WriteHypervisors
    requires w.components == w.loadedComponents && w.loadedHypervisors == s.store.hypervisors
    requires g in w.hypervisors && w.hypervisors[g] == copy && g in s.store.hypervisors
    requires SameSpec(s.store.hypervisors[g], copy) && copy.version == s.store.hypervisors[g].version
    requires w.hypervisors - {g} == w.loadedHypervisors - {g}
    ensures IsQuiet(s') && s'.store.components == s.store.components && g in s'.store.hypervisors
    ensures s'.store.hypervisors - {g} == s.store.hypervisors - {g} && StatusWritten(s'.store.hypervisors[g], copy)
  {
    if DirtyHypervisor(w, g) {
      var s1, w1 := WriteStatusStep(s, w, g);
      s' := EndPass(s1, w1);
    } else {
      SameButOne(w.hypervisors, w.loadedHypervisors, g, copy);
      assert w.hypervisors[g := copy] == w.hypervisors && w.loadedHypervisors[g := copy] == w.loadedHypervisors;
      s' := EndPass(s, w);
    }
  }

  /** The copies agree with the store in all but what the deletion changed. */
  lemma {:induction false} CopiesAgree(s: State, w: Worker, order: seq<ComponentId>, w': Worker, g: string)
    requires IsReachable(s) && s.workers == map[1 := w'] && DeletedAlone(w, order, w')
    requires g == w.components[w.target].hypervisor && w.loadedHypervisors == w.hypervisors == s.store.hypervisors
    requires w.target in s.store.components && w.components[w.target] == s.store.components[w.target]
    requires w.loadedComponents == w.components
    ensures g in w'.hypervisors && g in s.store.hypervisors && w'.components[w.target].hypervisor == g
    ensures SameSpec(s.store.hypervisors[g], w'.hypervisors[g]) && w'.hypervisors[g].version == s.store.hypervisors[g].version
    ensures SameButStatus(s.store.components[w.target], w'.components[w.target])
    ensures Settle(w').components == Settle(w').loadedComponents && CanSave(w')
  {
    var events :| s == Execute(INITIAL, events);
    ReachableOk(events);
    assert WorkerOk(s.store, s.workers[1]);
    assert HypervisorLink(s.store, w'.loadedHypervisors[g], w'.hypervisors[g], g);
    assert SameAt(w.components, w'.components, w.target);
  }

  /** The deletion of a control plane that nobody disturbs, in a cluster that goes as a whole or whose other members need no new
      port: when it is done the component is gone, and the stored hypervisor has what the deletion left. */
  lemma {:induction false} DeletionIsStored(s: State, id: ComponentId, order: seq<ComponentId>, w': Worker) returns (s': State)
    requires IsQuiet(s) && id in s.store.components && DeletedAlone(ReadWorker(s.store, id), order, w')
    requires forall f :: f in s.store.components[id].finalizers ==> f == CLEANUP_FINALIZER
    ensures IsQuiet(s') && DeletionStored(s.store, s'.store, w')
  {
    var w := ReadWorker(s.store, id);
    var s1 := ReadPass(s, id);
    var s2 := DeletionPass(s1, w, order, w');
    var g := w.components[id].hypervisor;
    CopiesAgree(s2, w, order, w', g);
    SavedIsGone(s2, w');
    var s3 := SaveStep(s2, w');
    s' := WriteAndEnd(s3, Settle(w'), g, w'.hypervisors[g]);
  }

  /** Freeing a port changes the target and its hypervisor only. */
  predicate OnlyTargetChanged(w: Worker, w': Worker) {
    && Scheduled(w) && Scheduled(w') && w'.target == w.target
    && w'.components[w.target].hypervisor == w.components[w.target].hypervisor
    && w'.hypervisors - {w.components[w.target].hypervisor} == w.hypervisors - {w.components[w.target].hypervisor}
    && w'.components - {w.target} == w.components - {w.target}
  }

  lemma {:induction false} FreedAlone(w: Worker, name: string)
    requires Deletable(w) && IsPortName(name)
    ensures var w' := Freed(w, name);
      && OnlyTargetChanged(w, w') && Deletable(w') && Moves(w, w') && SameStrays(w, w')
      && w'.components[w.target].ports == w.components[w.target].ports - {name}
  {
    FreedIsReleased(w, name);
  }

  lemma {:induction false} CleanedAlone(w: Worker)
    requires Deletable(w)
    ensures var w' := CleanedUp(w);
      && OnlyTargetChanged(w, w') && Deletable(w') && Moves(w, w') && SameStrays(w, w') && NoFiles(w') && w'.components == w.components
  {
    ForgetMoves(w);
  }

  /** What a deletion with the whole cluster comes to. */
  function AllGone(w: Worker): Worker {
    CleanedUp(EtcdStopped(Freed(w, API_SERVER)))
  }

  lemma {:induction false} AllGoneAlone(w: Worker)
    requires Deletable(w)
    ensures OnlyTargetChanged(w, AllGone(w)) && Moves(w, AllGone(w)) && NoFiles(AllGone(w)) && SameStrays(w, AllGone(w))
    ensures NoneOfThree(AllGone(w))
  {
    var w1 := Freed(w, API_SERVER);
    var w2 := Freed(w1, ETCD_PEER);
    var w3 := Freed(w2, ETCD_CLIENT);
    FreedAlone(w, API_SERVER);
    FreedAlone(w1, ETCD_PEER);
    FreedAlone(w2, ETCD_CLIENT);
    CleanedAlone(w3);
    MovesOn(w, w1, w2);
    MovesOn(w, w2, w3);
    MovesOn(w, w3, AllGone(w));
    StraysOn(w, w1, w2);
    StraysOn(w, w2, w3);
    StraysOn(w, w3, AllGone(w));
  }

  lemma {:induction false} StraysOn(w: Worker, w1: Worker, w2: Worker)
    requires Scheduled(w) && Scheduled(w1) && Scheduled(w2) && SameStrays(w, w1) && SameStrays(w1, w2)
    ensures SameStrays(w, w2)
  {
    forall n | IsPortName(n) ensures Stray(w2, n) <==> Stray(w, n) {
      assert Stray(w1, n) <==> Stray(w, n);
      assert Stray(w2, n) <==> Stray(w1, n);
    }
  }

  lemma {:induction false} AllGoneIsAlone(w: Worker)
    requires Deleting(w) && Deletable(w)
    ensures DeletedAlone(w, [], AllGone(w))
  {
    AllGoneAlone(w);
    assert LeftAt(w, [], Freed(w, API_SERVER));
    assert CameTo(w, [], AllGone(w));
  }

  lemma {:induction false} StraysAreHeld(w: Worker, w': Worker)
    requires Scheduled(w) && Scheduled(w') && SameStrays(w, w') && NoneOfThree(w') && w'.target == w.target
    ensures IsHeld(w', API_SERVER) <==> Stray(w, API_SERVER)
    ensures IsHeld(w', ETCD_PEER) <==> Stray(w, ETCD_PEER)
    ensures IsHeld(w', ETCD_CLIENT) <==> Stray(w, ETCD_CLIENT)
  {
    assert Stray(w', API_SERVER) <==> Stray(w, API_SERVER);
    assert Stray(w', ETCD_PEER) <==> Stray(w, ETCD_PEER);
    assert Stray(w', ETCD_CLIENT) <==> Stray(w, ETCD_CLIENT);
  }

  /** The deletion of a control plane with its whole cluster, undisturbed, from any reachable state without other passes: the
      component is gone, no record of its files is left, and of its three ports exactly those stay allocated that were held
      without being recorded. */
  lemma {:induction false} DeletionIsDone(s: State, id: ComponentId) returns (s': State)
    requires IsQuiet(s) && id in s.store.components
    requires var c := s.store.components[id]; c.deleted && c.role == ControlPlane && c.hypervisor in s.store.hypervisors
    requires forall f :: f in s.store.components[id].finalizers ==> f == CLEANUP_FINALIZER
    ensures IsQuiet(s') && s'.store.components == s.store.components - {id}
    ensures var c, w := s.store.components[id], ReadWorker(s.store, id);
      && c.hypervisor in s'.store.hypervisors
      && var h := s'.store.hypervisors[c.hypervisor];
      && !Files.Recorded(h.files, Paths.Owner(id.namespace, c.cluster, id.name))
      && forall n :: n in {API_SERVER, ETCD_PEER, ETCD_CLIENT} ==> (KeyOf(id, c.cluster, n) in Held(h.ports) <==> Stray(w, n))
  {
    var w := ReadWorker(s.store, id);
    ReachedTables(s);
    AllGoneAlone(w);
    AllGoneIsAlone(w);
    s' := DeletionIsStored(s, id, [], AllGone(w));
    StraysAreHeld(w, AllGone(w));
  }
}
