/** What every reachable state of the protocol satisfies, and how a store may change from one state to a later one. */
module ProtocolInvariant {
  import opened Ports
  import opened Components
  import opened Protocol

  /** Changing one key changes nothing else. */
  lemma {:induction false} ButOne<K, V>(m: map<K, V>, k: K, v: V)
    ensures m[k := v] - {k} == m - {k}
  {
  }

  /** Hypervisor `h` has this port allocated under this key. */
  predicate Holds(hypervisors: map<string, HypervisorObject>, h: string, key: PortKey, port: int) {
    h in hypervisors && key in Held(hypervisors[h].ports) && Held(hypervisors[h].ports)[key] == port
  }

  predicate KeepsKey(before: PortTable, after: PortTable, key: PortKey) {
    key in Held(before) ==> key in Held(after) && Held(after)[key] == Held(before)[key]
  }

  predicate SameSpec(x: HypervisorObject, y: HypervisorObject) {
    x.public == y.public && x.ipAddress == y.ipAddress && x.ports.low == y.ports.low && x.ports.high == y.ports.high
  }

  /** Ports are allocated under names of components that exist or existed. */
  ghost predicate KeysUsed(table: PortTable, used: set<ComponentId>) {
    forall id, cluster, n :: IsPortName(n) && KeyOf(id, cluster, n) in Held(table) ==> id in used
  }

  /** The component was created and is no longer there, or is being deleted. */
  predicate Gone(st: Store, id: ComponentId) {
    id in st.used && (id in st.components ==> st.components[id].deleted)
  }

  // ---------------------------------------------------------------------------------------------
  // A copy read earlier and the store now

  /** The stored hypervisor is this copy or a later version of it. What the copy holds for components that are
      not being deleted is still held. */
  ghost predicate HypervisorFollows(x: HypervisorObject, st: Store, h: string) {
    && h in st.hypervisors
    && var y := st.hypervisors[h];
    && x.version <= y.version <= st.revision && (x.version == y.version ==> x == y)
    && SameSpec(x, y)
    && KeysUsed(x.ports, st.used)
    && forall id, n :: id in st.components && !st.components[id].deleted && IsPortName(n) ==>
         KeepsKey(x.ports, y.ports, KeyOf(id, st.components[id].cluster, n))
  }

  predicate PortsGrow(before: map<string, int>, after: map<string, int>) {
    forall n :: n in before ==> n in after && after[n] == before[n]
  }

  /** The stored component, if it is still there, is this copy or a later version of it. Role, cluster and an
      assigned hypervisor never change, deletion is never undone, and no recorded port is lost before deletion. */
  ghost predicate ComponentFollows(x: ComponentObject, st: Store, id: ComponentId) {
    && id in st.used && x.version <= st.revision
    && (id in st.components ==>
         var y := st.components[id];
         && x.version <= y.version <= st.revision && (x.version == y.version ==> x == y)
         && x.role == y.role && x.cluster == y.cluster
         && (x.deleted ==> y.deleted)
         && (x.hypervisor != "" ==> y.hypervisor == x.hypervisor)
         && (!y.deleted ==> PortsGrow(x.ports, y.ports)))
  }

  /** How the store changes over time. */
  ghost predicate Evolves(a: Store, b: Store) {
    && a.revision <= b.revision && a.used <= b.used
    && (forall h :: h in a.hypervisors ==> HypervisorFollows(a.hypervisors[h], b, h))
    && (forall id :: id in a.components ==> ComponentFollows(a.components[id], b, id))
    && (forall id :: id in b.components && id in a.used ==> id in a.components)
  }

  lemma {:induction false} KeptAlong(x: HypervisorObject, a: Store, b: Store, h: string, id: ComponentId, n: string)
    requires HypervisorFollows(x, a, h) && Evolves(a, b)
    requires id in b.components && !b.components[id].deleted && IsPortName(n)
    ensures KeepsKey(x.ports, b.hypervisors[h].ports, KeyOf(id, b.components[id].cluster, n))
  {
    var key := KeyOf(id, b.components[id].cluster, n);
    if key in Held(x.ports) {
      assert id in a.used && id in a.components;
      assert ComponentFollows(a.components[id], b, id);
      assert KeepsKey(x.ports, a.hypervisors[h].ports, KeyOf(id, a.components[id].cluster, n));
      assert HypervisorFollows(a.hypervisors[h], b, h);
      assert KeepsKey(a.hypervisors[h].ports, b.hypervisors[h].ports, key);
    }
  }

  lemma {:induction false} HypervisorFollowsOn(x: HypervisorObject, a: Store, b: Store, h: string)
    requires HypervisorFollows(x, a, h) && Evolves(a, b)
    ensures HypervisorFollows(x, b, h)
  {
    assert HypervisorFollows(a.hypervisors[h], b, h);
    forall id, n | id in b.components && !b.components[id].deleted && IsPortName(n)
      ensures KeepsKey(x.ports, b.hypervisors[h].ports, KeyOf(id, b.components[id].cluster, n))
    {
      KeptAlong(x, a, b, h, id, n);
    }
  }

  lemma {:induction false} ComponentFollowsOn(x: ComponentObject, a: Store, b: Store, id: ComponentId)
    requires ComponentFollows(x, a, id) && Evolves(a, b)
    ensures ComponentFollows(x, b, id)
  {
    if id in b.components { assert ComponentFollows(a.components[id], b, id); }
  }

  lemma {:induction false} EvolvesOn(a: Store, b: Store, c: Store)
    requires Evolves(a, b) && Evolves(b, c)
    ensures Evolves(a, c)
  {
    forall h | h in a.hypervisors ensures HypervisorFollows(a.hypervisors[h], c, h) {
      HypervisorFollowsOn(a.hypervisors[h], b, c, h);
    }
    forall id | id in a.components ensures ComponentFollows(a.components[id], c, id) {
      ComponentFollowsOn(a.components[id], b, c, id);
    }
  }

  lemma {:induction false} GoneStaysGone(a: Store, b: Store, id: ComponentId)
    requires Gone(a, id) && Evolves(a, b)
    ensures Gone(b, id)
  {
    if id in b.components { assert ComponentFollows(a.components[id], b, id); }
  }

  // ---------------------------------------------------------------------------------------------
  // The store

  ghost predicate HypervisorOk(st: Store, h: string)
    requires h in st.hypervisors
  {
    && st.hypervisors[h].version <= st.revision
    && KeysUsed(st.hypervisors[h].ports, st.used)
  }

  /** Every port a component lists has one of the four names and, until deletion, is allocated to the component on
      the hypervisor it is assigned to. That hypervisor suits its role. */
  ghost predicate ComponentOk(st: Store, id: ComponentId, c: ComponentObject) {
    && id in st.used && c.version <= st.revision
    && (c.hypervisor == "" ==> c.ports == map[])
    && (c.hypervisor != "" ==> c.hypervisor in st.hypervisors && Eligible(c.role, st.hypervisors[c.hypervisor].public))
    && forall n :: n in c.ports ==>
         IsPortName(n) && (!c.deleted ==> Holds(st.hypervisors, c.hypervisor, KeyOf(id, c.cluster, n), c.ports[n]))
  }

  ghost predicate StoreOk(st: Store) {
    && "" !in st.hypervisors
    && (forall h :: h in st.hypervisors ==> HypervisorOk(st, h))
    && (forall id :: id in st.components ==> ComponentOk(st, id, st.components[id]))
  }

  lemma {:induction false} EvolvesReflexive(st: Store)
    requires StoreOk(st)
    ensures Evolves(st, st)
  {
    forall h | h in st.hypervisors ensures HypervisorFollows(st.hypervisors[h], st, h) {
      assert HypervisorOk(st, h);
    }
    forall id | id in st.components ensures ComponentFollows(st.components[id], st, id) {
      assert ComponentOk(st, id, st.components[id]);
    }
  }

  // ---------------------------------------------------------------------------------------------
  // Workers and schedulers

  /** A worker's copy of a hypervisor: changed by the worker, it still holds all the read copy held, except for a
      component that is gone. */
  ghost predicate HypervisorLink(st: Store, loaded: HypervisorObject, copy: HypervisorObject, h: string) {
    && HypervisorFollows(loaded, st, h)
    && copy.version == loaded.version && SameSpec(copy, loaded)
    && KeysUsed(copy.ports, st.used)
    && forall id, cluster, n :: IsPortName(n) && !Gone(st, id) ==> KeepsKey(loaded.ports, copy.ports, KeyOf(id, cluster, n))
  }

  ghost predicate SameButStatus(x: ComponentObject, y: ComponentObject) {
    && x.version == y.version && x.role == y.role && x.cluster == y.cluster && x.hypervisor == y.hypervisor
    && x.deleted == y.deleted && x.finalizers == y.finalizers
  }

  /** A worker's copy of a component: ports are only added, and each added port is held on the worker's copy of the
      hypervisor. */
  ghost predicate ComponentLink(st: Store, hypervisors: map<string, HypervisorObject>,
    loaded: ComponentObject, copy: ComponentObject, id: ComponentId)
  {
    && ComponentFollows(loaded, st, id)
    && SameButStatus(copy, loaded)
    && (copy.hypervisor == "" ==> copy.ports == map[])
    && (forall n :: n in copy.ports ==> IsPortName(n))
    && (!copy.deleted ==> PortsGrow(loaded.ports, copy.ports))
    && (!copy.deleted ==> forall n :: n in copy.ports && n !in loaded.ports ==>
         Holds(hypervisors, copy.hypervisor, KeyOf(id, copy.cluster, n), copy.ports[n]))
  }

  ghost predicate HasAll(ports: map<string, int>, role: Role, vpn: bool) {
    forall n :: n in PortNames(role, vpn) ==> n in ports
  }

  /** What a worker knows about its target, by the point it has reached. */
  ghost predicate Progress(st: Store, w: Worker)
    requires w.components.Keys == w.loadedComponents.Keys
  {
    && w.target in st.used
    && (w.stage == WriteComponents ==> w.hypervisors == w.loadedHypervisors)
    && (w.round == Reserve ==> w.reserved)
    && (w.round == Reserve && w.stage == Local ==> w.components == w.loadedComponents)
    && (w.round == Work && w.reserved && !Gone(st, w.target) ==>
         w.target in st.components && HasAll(st.components[w.target].ports, st.components[w.target].role, w.vpn))
    && (w.round == Work && !w.reserved ==> Gone(st, w.target))
    && (w.round == Reserve && (w.stage == WriteHypervisors || w.stage == WriteComponents) ==>
         w.target in w.components && HasAll(w.components[w.target].ports, w.components[w.target].role, w.vpn))
    && (w.stage == Local ==> w.target in w.components)
    && (w.round == Work && w.stage == Local && !w.components[w.target].deleted ==>
         && w.components[w.target].ports == w.loadedComponents[w.target].ports
         && HasAll(w.components[w.target].ports, w.components[w.target].role, w.vpn))
  }

  ghost predicate HypervisorLinks(st: Store, loaded: map<string, HypervisorObject>, copies: map<string, HypervisorObject>) {
    copies.Keys == loaded.Keys && forall h :: h in copies ==> HypervisorLink(st, loaded[h], copies[h], h)
  }

  ghost predicate ComponentLinks(st: Store, hypervisors: map<string, HypervisorObject>,
    loaded: map<ComponentId, ComponentObject>, copies: map<ComponentId, ComponentObject>)
  {
    copies.Keys == loaded.Keys && forall id :: id in copies ==> ComponentLink(st, hypervisors, loaded[id], copies[id], id)
  }

  ghost predicate WorkerOk(st: Store, w: Worker) {
    && HypervisorLinks(st, w.loadedHypervisors, w.hypervisors)
    && ComponentLinks(st, w.hypervisors, w.loadedComponents, w.components)
    && Progress(st, w)
  }

  ghost predicate SchedulerOk(st: Store, k: Scheduler) {
    && (forall id :: id in k.unscheduled ==>
         ComponentFollows(k.unscheduled[id], st, id) && k.unscheduled[id].hypervisor == "")
    && (k.hypervisors.Some? ==> forall h :: h in k.hypervisors.value ==>
         h in st.hypervisors && st.hypervisors[h].public == k.hypervisors.value[h].public)
  }

  ghost predicate TablesValid(hypervisors: map<string, HypervisorObject>) {
    forall h :: h in hypervisors ==> Valid(hypervisors[h].ports)
  }

  /** All port tables are valid, in the store and in the copies. */
  ghost predicate AllValid(s: State) {
    TablesValid(s.store.hypervisors) && forall w :: w in s.workers ==> TablesValid(s.workers[w].hypervisors)
  }

  ghost predicate Inv(s: State) {
    && StoreOk(s.store)
    && (forall w :: w in s.workers ==> WorkerOk(s.store, s.workers[w]))
    && (forall k :: k in s.schedulers ==> SchedulerOk(s.store, s.schedulers[k]))
  }

  /** Whatever happens to the store, a worker that did nothing keeps its invariant. */
  lemma {:induction false} WorkerWaits(a: Store, b: Store, w: Worker)
    requires WorkerOk(a, w) && Evolves(a, b)
    ensures WorkerOk(b, w)
  {
    forall h | h in w.hypervisors ensures HypervisorLink(b, w.loadedHypervisors[h], w.hypervisors[h], h) {
      HypervisorFollowsOn(w.loadedHypervisors[h], a, b, h);
      forall id | Gone(a, id) ensures Gone(b, id) { GoneStaysGone(a, b, id); }
    }
    forall id | id in w.components
      ensures ComponentLink(b, w.hypervisors, w.loadedComponents[id], w.components[id], id)
    {
      ComponentFollowsOn(w.loadedComponents[id], a, b, id);
    }
    ProgressWaits(a, b, w);
  }

  lemma {:induction false} ProgressWaits(a: Store, b: Store, w: Worker)
    requires w.components.Keys == w.loadedComponents.Keys
    requires Progress(a, w) && Evolves(a, b)
    ensures Progress(b, w)
  {
    if Gone(a, w.target) {
      GoneStaysGone(a, b, w.target);
    } else if w.target in b.components {
      assert ComponentFollows(a.components[w.target], b, w.target);
    }
  }

  lemma {:induction false} SchedulerWaits(a: Store, b: Store, k: Scheduler)
    requires SchedulerOk(a, k) && Evolves(a, b)
    ensures SchedulerOk(b, k)
  {
    forall id | id in k.unscheduled ensures ComponentFollows(k.unscheduled[id], b, id) {
      ComponentFollowsOn(k.unscheduled[id], a, b, id);
    }
    if k.hypervisors.Some? {
      forall h | h in k.hypervisors.value
        ensures h in b.hypervisors && b.hypervisors[h].public == k.hypervisors.value[h].public
      {
        assert HypervisorFollows(a.hypervisors[h], b, h);
      }
    }
  }

  // ---------------------------------------------------------------------------------------------
  // Writes to the store

  lemma {:induction false} KeysUsedGrows(table: PortTable, used: set<ComponentId>, used': set<ComponentId>)
    requires KeysUsed(table, used) && used <= used'
    ensures KeysUsed(table, used')
  {
  }

  /** Writing a hypervisor is safe if no component that stays loses a port by it. */
  lemma {:induction false} PutHypervisorOk(st: Store, h: string, y: HypervisorObject)
    requires StoreOk(st) && h in st.hypervisors
    requires SameSpec(y, st.hypervisors[h]) && KeysUsed(y.ports, st.used)
    requires forall id, n :: id in st.components && !st.components[id].deleted && IsPortName(n) ==>
      KeepsKey(st.hypervisors[h].ports, y.ports, KeyOf(id, st.components[id].cluster, n))
    ensures StoreOk(PutHypervisor(st, h, y)) && Evolves(st, PutHypervisor(st, h, y))
  {
    var st' := PutHypervisor(st, h, y);
    assert HypervisorOk(st, h);
    forall g | g in st.hypervisors ensures HypervisorFollows(st.hypervisors[g], st', g) && HypervisorOk(st', g) {
      assert HypervisorOk(st, g);
    }
    forall id | id in st.components
      ensures ComponentFollows(st.components[id], st', id) && ComponentOk(st', id, st.components[id])
    {
      var c := st.components[id];
      assert ComponentOk(st, id, c);
      forall n | n in c.ports && !c.deleted ensures Holds(st'.hypervisors, c.hypervisor, KeyOf(id, c.cluster, n), c.ports[n]) {
        assert Holds(st.hypervisors, c.hypervisor, KeyOf(id, c.cluster, n), c.ports[n]);
        assert KeepsKey(st.hypervisors[h].ports, y.ports, KeyOf(id, c.cluster, n));
      }
    }
  }

  lemma {:induction false} NewHypervisorOk(st: Store, h: string, y: HypervisorObject)
    requires StoreOk(st) && h !in st.hypervisors && h != "" && Held(y.ports) == map[]
    ensures StoreOk(PutHypervisor(st, h, y)) && Evolves(st, PutHypervisor(st, h, y))
  {
    var st' := PutHypervisor(st, h, y);
    forall g | g in st.hypervisors ensures HypervisorFollows(st.hypervisors[g], st', g) && HypervisorOk(st', g) {
      assert HypervisorOk(st, g);
    }
    assert HypervisorOk(st', h);
    forall id | id in st.components
      ensures ComponentFollows(st.components[id], st', id) && ComponentOk(st', id, st.components[id])
    {
      var c := st.components[id];
      assert ComponentOk(st, id, c);
      forall n | n in c.ports && !c.deleted ensures Holds(st'.hypervisors, c.hypervisor, KeyOf(id, c.cluster, n), c.ports[n]) {
        assert Holds(st.hypervisors, c.hypervisor, KeyOf(id, c.cluster, n), c.ports[n]);
      }
    }
  }

  /** A later version of a component. */
  ghost predicate Succeeds(x: ComponentObject, y: ComponentObject) {
    && x.role == y.role && x.cluster == y.cluster
    && (x.deleted ==> y.deleted)
    && (x.hypervisor != "" ==> y.hypervisor == x.hypervisor)
    && (!y.deleted ==> PortsGrow(x.ports, y.ports))
  }

  /** Writing a component is safe if all the ports it then lists are held for it. */
  lemma {:induction false} PutComponentOk(st: Store, id: ComponentId, y: ComponentObject)
    requires StoreOk(st)
    requires id in st.used ==> id in st.components && Succeeds(st.components[id], y)
    requires ComponentOk(st.(used := st.used + {id}), id, y.(version := 0))
    ensures StoreOk(PutComponent(st, id, y)) && Evolves(st, PutComponent(st, id, y))
  {
    var st' := PutComponent(st, id, y);
    forall h | h in st.hypervisors ensures HypervisorFollows(st.hypervisors[h], st', h) && HypervisorOk(st', h) {
      assert HypervisorOk(st, h);
      KeysUsedGrows(st.hypervisors[h].ports, st.used, st'.used);
    }
    forall i | i in st'.components ensures ComponentOk(st', i, st'.components[i]) {
      if i != id { assert ComponentOk(st, i, st.components[i]); }
    }
    forall i | i in st.components ensures ComponentFollows(st.components[i], st', i) {
      assert ComponentOk(st, i, st.components[i]);
    }
  }

  lemma {:induction false} RemoveComponentOk(st: Store, id: ComponentId)
    requires StoreOk(st)
    ensures StoreOk(RemoveComponent(st, id)) && Evolves(st, RemoveComponent(st, id))
  {
    var st' := RemoveComponent(st, id);
    forall h | h in st.hypervisors ensures HypervisorFollows(st.hypervisors[h], st', h) && HypervisorOk(st', h) {
      assert HypervisorOk(st, h);
    }
    forall i | i in st.components
      ensures ComponentFollows(st.components[i], st', i) && ComponentOk(st', i, st.components[i])
    {
      assert ComponentOk(st, i, st.components[i]);
    }
  }
}
