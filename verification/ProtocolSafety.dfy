/** Every event keeps the invariant; and what that means for whole runs. */
module ProtocolSafety {
  import opened Options
  import opened Ports
  import Files
  import opened Components
  import opened Protocol
  import opened ProtocolInvariant

  // ---------------------------------------------------------------------------------------------
  // From one step of the store or of one worker to the whole state

  lemma {:induction false} StoreStep(s: State, st: Store)
    requires Inv(s) && StoreOk(st) && Evolves(s.store, st)
    ensures Inv(s.(store := st))
  {
    forall w | w in s.workers ensures WorkerOk(st, s.workers[w]) { WorkerWaits(s.store, st, s.workers[w]); }
    forall k | k in s.schedulers ensures SchedulerOk(st, s.schedulers[k]) { SchedulerWaits(s.store, st, s.schedulers[k]); }
  }

  lemma {:induction false} WorkerStep(s: State, w: nat, worker: Worker)
    requires Inv(s) && WorkerOk(s.store, worker)
    ensures Inv(SetWorker(s, w, worker))
  {
  }

  lemma {:induction false} WorkerEnds(s: State, w: nat)
    requires Inv(s)
    ensures Inv(EndWorker(s, w))
  {
  }

  // ---------------------------------------------------------------------------------------------
  // Outside changes

  lemma {:induction false} TouchHypervisorOk(st: Store, h: string)
    requires StoreOk(st) && h in st.hypervisors
    ensures StoreOk(PutHypervisor(st, h, st.hypervisors[h])) && Evolves(st, PutHypervisor(st, h, st.hypervisors[h]))
  {
    assert HypervisorOk(st, h);
    PutHypervisorOk(st, h, st.hypervisors[h]);
  }

  /** A write that changes neither ports nor placement, on a component that is there. */
  lemma {:induction false} ModifyComponentOk(st: Store, id: ComponentId, y: ComponentObject)
    requires StoreOk(st) && id in st.components
    requires var x := st.components[id];
      && y.role == x.role && y.cluster == x.cluster && y.hypervisor == x.hypervisor && y.ports == x.ports
      && (x.deleted ==> y.deleted)
    ensures StoreOk(PutComponent(st, id, y)) && Evolves(st, PutComponent(st, id, y))
  {
    var x := st.components[id];
    assert ComponentOk(st, id, x);
    assert ComponentOk(st.(used := st.used + {id}), id, y.(version := 0));
    PutComponentOk(st, id, y);
  }

  lemma {:induction false} OutsideOk(st: Store, e: Event)
    requires StoreOk(st)
    ensures StoreOk(Outside(st, e)) && Evolves(st, Outside(st, e))
  {
    EvolvesReflexive(st);
    match e
    case AddHypervisor(h, public, ipAddress, low, high) =>
      if h != "" && h !in st.hypervisors {
        NewHypervisorOk(st, h, HypervisorObject(0, public, ipAddress, Empty(low, high), map[]));
      }
    case TouchHypervisor(h) =>
      if h in st.hypervisors { TouchHypervisorOk(st, h); }
    case CreateComponent(id, cluster, role, finalizers) =>
      if id !in st.used {
        PutComponentOk(st, id, ComponentObject(0, role, cluster, "", false, Admit(finalizers), map[], ""));
      }
    case TouchComponent(id, finalizers, extra) =>
      if id in st.components {
        var c := st.components[id];
        RemoveComponentOk(st, id);
        ModifyComponentOk(st, id, c.(finalizers := if c.deleted then finalizers else Admit(finalizers), extra := extra));
      }
    case DeleteComponent(id) =>
      if id in st.components {
        RemoveComponentOk(st, id);
        ModifyComponentOk(st, id, st.components[id].(deleted := true));
      }
    case _ =>
  }

  // ---------------------------------------------------------------------------------------------
  // Scheduling

  lemma {:induction false} AssignOk(s: State, k: nat, id: ComponentId, h: string)
    requires Inv(s) && k in s.schedulers && id in s.schedulers[k].unscheduled
    requires s.schedulers[k].hypervisors.Some? && h in s.schedulers[k].hypervisors.value
    requires Eligible(s.schedulers[k].unscheduled[id].role, s.schedulers[k].hypervisors.value[h].public)
    ensures Inv(AssignTo(s, k, id, h)) && Evolves(s.store, AssignTo(s, k, id, h).store)
  {
    var st := s.store;
    EvolvesReflexive(st);
    var k' := s.schedulers[k].(unscheduled := s.schedulers[k].unscheduled - {id});
    var s' := s.(schedulers := s.schedulers[k := k']);
    assert SchedulerOk(st, s.schedulers[k]);
    assert SchedulerOk(st, k');
    var c := s.schedulers[k].unscheduled[id];
    if id in st.components && st.components[id].version == c.version {
      var stored := st.components[id];
      assert ComponentFollows(c, st, id);
      assert ComponentOk(st, id, stored);
      var y := stored.(hypervisor := h, finalizers := if stored.deleted then c.finalizers else Admit(c.finalizers));
      assert ComponentOk(st.(used := st.used + {id}), id, y.(version := 0));
      PutComponentOk(st, id, y);
      StoreStep(s', PutComponent(st, id, y));
    }
  }

  lemma {:induction false} SchedulingOk(s: State, e: Event)
    requires Inv(s)
    ensures Inv(Scheduling(s, e)) && Evolves(s.store, Scheduling(s, e).store)
  {
    var st := s.store;
    EvolvesReflexive(st);
    match e
    case ListUnscheduled(k) =>
      forall id | id in st.components ensures ComponentFollows(st.components[id], st, id) {
        assert ComponentOk(st, id, st.components[id]);
      }
    case ListCandidates(k) =>
      if k in s.schedulers { assert SchedulerOk(st, s.schedulers[k].(hypervisors := Some(st.hypervisors))); }
    case Assign(k, id, h) =>
      if && k in s.schedulers && id in s.schedulers[k].unscheduled && s.schedulers[k].hypervisors.Some?
         && h in s.schedulers[k].hypervisors.value
         && Eligible(s.schedulers[k].unscheduled[id].role, s.schedulers[k].hypervisors.value[h].public)
      { AssignOk(s, k, id, h); }
    case _ =>
  }

  // ---------------------------------------------------------------------------------------------
  // Reads

  lemma {:induction false} FreshHypervisors(st: Store)
    requires StoreOk(st)
    ensures forall h :: h in st.hypervisors ==> HypervisorLink(st, st.hypervisors[h], st.hypervisors[h], h)
  {
    forall h | h in st.hypervisors ensures HypervisorLink(st, st.hypervisors[h], st.hypervisors[h], h) {
      assert HypervisorOk(st, h);
    }
  }

  lemma {:induction false} FreshComponents(st: Store, hypervisors: map<string, HypervisorObject>)
    requires StoreOk(st)
    ensures forall id :: id in st.components ==> ComponentLink(st, hypervisors, st.components[id], st.components[id], id)
  {
    forall id | id in st.components
      ensures ComponentLink(st, hypervisors, st.components[id], st.components[id], id)
    {
      assert ComponentOk(st, id, st.components[id]);
    }
  }

  lemma {:induction false} BeginOk(s: State, w: nat, id: ComponentId, vpn: bool)
    requires Inv(s)
    ensures Inv(Reading(s, Begin(w, id, vpn)))
  {
    if w !in s.workers && id in s.store.components {
      assert ComponentOk(s.store, id, s.store.components[id]);
      WorkerStep(s, w, Reading(s, Begin(w, id, vpn)).workers[w]);
    }
  }

  lemma {:induction false} ListHypervisorsOk(s: State, w: nat)
    requires Inv(s)
    ensures Inv(Reading(s, ListHypervisors(w)))
  {
    if w in s.workers && s.workers[w].stage == ReadHypervisors {
      FreshHypervisors(s.store);
      assert Progress(s.store, s.workers[w]);
      WorkerStep(s, w, Reading(s, ListHypervisors(w)).workers[w]);
    }
  }

  lemma {:induction false} ListComponentsOk(s: State, w: nat)
    requires Inv(s)
    ensures Inv(Reading(s, ListComponents(w)))
  {
    if w in s.workers && s.workers[w].stage == ReadComponents {
      assert WorkerOk(s.store, s.workers[w]);
      if s.workers[w].target in s.store.components {
        FreshComponents(s.store, s.workers[w].hypervisors);
        WorkerStep(s, w, Reading(s, ListComponents(w)).workers[w]);
      }
    }
  }

  lemma {:induction false} ReadingOk(s: State, e: Event)
    requires Inv(s) && IsReading(e)
    ensures Inv(Reading(s, e)) && Evolves(s.store, Reading(s, e).store)
  {
    EvolvesReflexive(s.store);
    match e
    case Begin(w, id, vpn) => BeginOk(s, w, id, vpn);
    case ListHypervisors(w) => ListHypervisorsOk(s, w);
    case ListComponents(w) => ListComponentsOk(s, w);
  }

  // ---------------------------------------------------------------------------------------------
  // Changes to the copies of a worker

  /** What any number of port requests for one component do to a table and to the ports it records. */
  ghost predicate Requested(ports: map<string, int>, table: PortTable, ports': map<string, int>, table': PortTable,
    id: ComponentId, cluster: string)
  {
    && table'.low == table.low && table'.high == table.high
    && PortsGrow(ports, ports')
    && (forall key :: KeepsKey(table, table', key))
    && (forall n :: n in ports' && n !in ports ==>
         IsPortName(n) && KeyOf(id, cluster, n) in Held(table') && Held(table')[KeyOf(id, cluster, n)] == ports'[n])
    && (forall key :: key in Held(table') && key !in Held(table) ==> exists n :: IsPortName(n) && key == KeyOf(id, cluster, n))
  }

  lemma {:induction false} RequestNamedEffect(ports: map<string, int>, table: PortTable, id: ComponentId, cluster: string, name: string)
    requires IsPortName(name)
    ensures var r := RequestNamed(ports, table, KeyOf(id, cluster, name), name);
      r.Have? ==> Requested(ports, table, r.ports, r.table, id, cluster) && name in r.ports
  {
    RequestEffect(table, KeyOf(id, cluster, name));
  }

  lemma {:induction false} RequestedOn(p0: map<string, int>, t0: PortTable, p1: map<string, int>, t1: PortTable,
      p2: map<string, int>, t2: PortTable, id: ComponentId, cluster: string)
    requires Requested(p0, t0, p1, t1, id, cluster) && Requested(p1, t1, p2, t2, id, cluster)
    ensures Requested(p0, t0, p2, t2, id, cluster)
  {
    forall key ensures KeepsKey(t0, t2, key) { assert KeepsKey(t0, t1, key) && KeepsKey(t1, t2, key); }
    forall n | n in p2 && n !in p0
      ensures IsPortName(n) && KeyOf(id, cluster, n) in Held(t2) && Held(t2)[KeyOf(id, cluster, n)] == p2[n]
    {
      assert KeepsKey(t1, t2, KeyOf(id, cluster, n));
    }
  }

  lemma {:induction false} RequestAllEffect(ports: map<string, int>, table: PortTable, id: ComponentId, cluster: string, names: seq<string>)
    requires forall n :: n in names ==> IsPortName(n)
    ensures var r := RequestAll(ports, table, id, cluster, names);
      r.Ready? ==> Requested(ports, table, r.ports, r.table, id, cluster) && forall n :: n in names ==> n in r.ports
    decreases |names|
  {
    if names == [] {
    } else {
      assert names[0] in names;
      RequestNamedEffect(ports, table, id, cluster, names[0]);
      match RequestNamed(ports, table, KeyOf(id, cluster, names[0]), names[0])
      case Refused =>
      case Have(_, ports', table') =>
        RequestAllEffect(ports', table', id, cluster, names[1..]);
        match RequestAll(ports', table', id, cluster, names[1..])
        case NotReady =>
        case Ready(ports2, table2) => RequestedOn(ports, table, ports', table', ports2, table2, id, cluster);
    }
  }

  lemma {:induction false} RequestedKeysUsed(ports: map<string, int>, table: PortTable, ports': map<string, int>, table': PortTable,
      id: ComponentId, cluster: string, used: set<ComponentId>)
    requires Requested(ports, table, ports', table', id, cluster) && KeysUsed(table, used) && id in used
    ensures KeysUsed(table', used)
  {
    forall i, c, n | IsPortName(n) && KeyOf(i, c, n) in Held(table') ensures i in used {
      if KeyOf(i, c, n) !in Held(table) {
        var m :| IsPortName(m) && KeyOf(i, c, n) == KeyOf(id, cluster, m);
        KeysNeverClash(i, c, n, id, cluster, m);
      }
    }
  }

  /** A worker's copies after port requests for one of its components. */
  function WithRequested(w: Worker, id: ComponentId, ports: map<string, int>, table: PortTable): Worker
    requires id in w.components && w.components[id].hypervisor in w.hypervisors
  {
    var c := w.components[id];
    w.(hypervisors := w.hypervisors[c.hypervisor := w.hypervisors[c.hypervisor].(ports := table)],
       components := w.components[id := c.(ports := ports)])
  }

  lemma {:induction false} RequestedHypervisor(st: Store, loaded: HypervisorObject, h: HypervisorObject, g: string,
      ports: map<string, int>, ports': map<string, int>, table: PortTable, id: ComponentId, cluster: string)
    requires HypervisorLink(st, loaded, h, g) && id in st.used
    requires Requested(ports, h.ports, ports', table, id, cluster)
    ensures HypervisorLink(st, loaded, h.(ports := table), g)
  {
    RequestedKeysUsed(ports, h.ports, ports', table, id, cluster, st.used);
    forall i, cl, n | IsPortName(n) && !Gone(st, i) ensures KeepsKey(loaded.ports, table, KeyOf(i, cl, n)) {
      assert KeepsKey(loaded.ports, h.ports, KeyOf(i, cl, n)) && KeepsKey(h.ports, table, KeyOf(i, cl, n));
    }
  }

  /** Two sets of copies that differ in one table, which keeps all its keys. */
  ghost predicate TableGrows(hypervisors: map<string, HypervisorObject>, hypervisors': map<string, HypervisorObject>, g: string) {
    && g in hypervisors && hypervisors'.Keys == hypervisors.Keys
    && (forall h :: h in hypervisors && h != g ==> hypervisors'[h] == hypervisors[h])
    && (forall key :: KeepsKey(hypervisors[g].ports, hypervisors'[g].ports, key))
  }

  lemma {:induction false} StillHolds(hypervisors: map<string, HypervisorObject>, hypervisors': map<string, HypervisorObject>, g: string,
      h: string, key: PortKey, port: int)
    requires TableGrows(hypervisors, hypervisors', g) && Holds(hypervisors, h, key, port)
    ensures Holds(hypervisors', h, key, port)
  {
    assert KeepsKey(hypervisors[g].ports, hypervisors'[g].ports, key);
  }

  lemma {:induction false} LinkStays(st: Store, hypervisors: map<string, HypervisorObject>, hypervisors': map<string, HypervisorObject>,
      g: string, loaded: ComponentObject, c: ComponentObject, i: ComponentId)
    requires ComponentLink(st, hypervisors, loaded, c, i) && TableGrows(hypervisors, hypervisors', g)
    ensures ComponentLink(st, hypervisors', loaded, c, i)
  {
    forall n | !c.deleted && n in c.ports && n !in loaded.ports
      ensures Holds(hypervisors', c.hypervisor, KeyOf(i, c.cluster, n), c.ports[n])
    {
      StillHolds(hypervisors, hypervisors', g, c.hypervisor, KeyOf(i, c.cluster, n), c.ports[n]);
    }
  }

  lemma {:induction false} LinksStay(st: Store, hypervisors: map<string, HypervisorObject>, hypervisors': map<string, HypervisorObject>,
      g: string, loaded: map<ComponentId, ComponentObject>, copies: map<ComponentId, ComponentObject>)
    requires ComponentLinks(st, hypervisors, loaded, copies) && TableGrows(hypervisors, hypervisors', g)
    ensures ComponentLinks(st, hypervisors', loaded, copies)
  {
    forall i | i in copies ensures ComponentLink(st, hypervisors', loaded[i], copies[i], i) {
      LinkStays(st, hypervisors, hypervisors', g, loaded[i], copies[i], i);
    }
  }

  lemma {:induction false} HypervisorReplaced(st: Store, loaded: map<string, HypervisorObject>, copies: map<string, HypervisorObject>,
      g: string, x: HypervisorObject, y: HypervisorObject)
    requires HypervisorLinks(st, loaded, copies) && g in copies && HypervisorLink(st, x, y, g)
    ensures HypervisorLinks(st, loaded[g := x], copies[g := y])
    ensures x == loaded[g] ==> HypervisorLinks(st, loaded, copies[g := y])
  {
    assert x == loaded[g] ==> loaded[g := x] == loaded;
  }

  lemma {:induction false} SameTableGrows(hypervisors: map<string, HypervisorObject>, g: string, h: HypervisorObject)
    requires g in hypervisors && h.ports == hypervisors[g].ports
    ensures TableGrows(hypervisors, hypervisors[g := h], g)
  {
  }

  lemma {:induction false} RequestedComponent(st: Store, hypervisors: map<string, HypervisorObject>, loaded: ComponentObject,
      c: ComponentObject, id: ComponentId, ports: map<string, int>, table: PortTable)
    requires "" !in hypervisors && c.hypervisor in hypervisors
    requires ComponentLink(st, hypervisors, loaded, c, id)
    requires Requested(c.ports, hypervisors[c.hypervisor].ports, ports, table, id, c.cluster)
    ensures ComponentLink(st, hypervisors[c.hypervisor := hypervisors[c.hypervisor].(ports := table)], loaded, c.(ports := ports), id)
  {
    var hypervisors' := hypervisors[c.hypervisor := hypervisors[c.hypervisor].(ports := table)];
    LinkStays(st, hypervisors, hypervisors', c.hypervisor, loaded, c, id);
    forall n | n in ports && n !in loaded.ports && !c.deleted
      ensures Holds(hypervisors', c.hypervisor, KeyOf(id, c.cluster, n), ports[n])
    {
      if n in c.ports { assert Holds(hypervisors', c.hypervisor, KeyOf(id, c.cluster, n), c.ports[n]); }
    }
  }

  lemma {:induction false} RequestedGrows(hypervisors: map<string, HypervisorObject>, g: string,
      ports: map<string, int>, ports': map<string, int>, table: PortTable, id: ComponentId, cluster: string)
    requires g in hypervisors && Requested(ports, hypervisors[g].ports, ports', table, id, cluster)
    ensures TableGrows(hypervisors, hypervisors[g := hypervisors[g].(ports := table)], g)
  {
  }

  lemma {:induction false} RequestedComponents(st: Store, hypervisors: map<string, HypervisorObject>,
      loaded: map<ComponentId, ComponentObject>, copies: map<ComponentId, ComponentObject>,
      id: ComponentId, ports: map<string, int>, table: PortTable)
    requires ComponentLinks(st, hypervisors, loaded, copies)
    requires id in copies && copies[id].hypervisor in hypervisors && "" !in hypervisors
    requires Requested(copies[id].ports, hypervisors[copies[id].hypervisor].ports, ports, table, id, copies[id].cluster)
    ensures var g := copies[id].hypervisor;
      ComponentLinks(st, hypervisors[g := hypervisors[g].(ports := table)], loaded, copies[id := copies[id].(ports := ports)])
  {
    var c := copies[id];
    var g := c.hypervisor;
    var hypervisors' := hypervisors[g := hypervisors[g].(ports := table)];
    var copies' := copies[id := c.(ports := ports)];
    RequestedGrows(hypervisors, g, c.ports, ports, table, id, c.cluster);
    RequestedComponent(st, hypervisors, loaded[id], c, id, ports, table);
    forall i | i in copies' ensures ComponentLink(st, hypervisors', loaded[i], copies'[i], i) {
      if i != id { LinkStays(st, hypervisors, hypervisors', g, loaded[i], copies[i], i); }
    }
  }

  lemma {:induction false} RequestedLinks(st: Store, w: Worker, id: ComponentId, ports: map<string, int>, table: PortTable)
    requires WorkerOk(st, w) && "" !in w.hypervisors
    requires id in w.components && w.components[id].hypervisor in w.hypervisors
    requires var c := w.components[id];
      Requested(c.ports, w.hypervisors[c.hypervisor].ports, ports, table, id, c.cluster)
    ensures var w' := WithRequested(w, id, ports, table);
      && HypervisorLinks(st, w'.loadedHypervisors, w'.hypervisors)
      && ComponentLinks(st, w'.hypervisors, w'.loadedComponents, w'.components)
  {
    var c := w.components[id];
    assert ComponentLink(st, w.hypervisors, w.loadedComponents[id], c, id);
    RequestedHypervisor(st, w.loadedHypervisors[c.hypervisor], w.hypervisors[c.hypervisor], c.hypervisor,
                        c.ports, ports, table, id, c.cluster);
    RequestedComponents(st, w.hypervisors, w.loadedComponents, w.components, id, ports, table);
  }

  lemma {:induction false} NamelessHypervisor(st: Store, w: Worker)
    requires StoreOk(st) && WorkerOk(st, w)
    ensures "" !in w.hypervisors
  {
    forall h | h in w.hypervisors ensures h in st.hypervisors {
      assert HypervisorLink(st, w.loadedHypervisors[h], w.hypervisors[h], h);
    }
  }

  lemma {:induction false} LocalProgress(st: Store, w: Worker, id: ComponentId, ports: map<string, int>, table: PortTable)
    requires w.components.Keys == w.loadedComponents.Keys && Progress(st, w)
    requires w.round == Work && w.stage == Local
    requires id in w.components && w.components[id].hypervisor in w.hypervisors
    requires id == w.target && !w.components[id].deleted ==> ports == w.components[id].ports
    ensures var w' := WithRequested(w, id, ports, table);
      w'.components.Keys == w'.loadedComponents.Keys && Progress(st, w')
  {
  }

  /** A request in the work round. For a target that is not being deleted nothing changes: it has all its ports. */
  lemma {:induction false} RequestInOk(st: Store, w: Worker, id: ComponentId, name: string)
    requires StoreOk(st) && WorkerOk(st, w) && CanRequest(w, id, name)
    ensures WorkerOk(st, RequestIn(w, id, name))
  {
    var c := w.components[id];
    var t := w.hypervisors[c.hypervisor].ports;
    NamelessHypervisor(st, w);
    RequestNamedEffect(c.ports, t, id, c.cluster, name);
    match RequestNamed(c.ports, t, KeyOf(id, c.cluster, name), name)
    case Refused =>
    case Have(_, ports, table) =>
      LocalProgress(st, w, id, ports, table);
      RequestedLinks(st, w, id, ports, table);
      assert RequestIn(w, id, name) == WithRequested(w, id, ports, table);
  }

  lemma {:induction false} FreedHypervisor(st: Store, loaded: HypervisorObject, h: HypervisorObject, g: string,
      id: ComponentId, cluster: string, name: string)
    requires HypervisorLink(st, loaded, h, g) && Valid(h.ports) && Gone(st, id) && IsPortName(name)
    ensures HypervisorLink(st, loaded, h.(ports := Free(h.ports, KeyOf(id, cluster, name))), g)
  {
    var key := KeyOf(id, cluster, name);
    FreeKeepsValid(h.ports, key);
    forall i, cl, n | IsPortName(n) && !Gone(st, i) ensures KeepsKey(loaded.ports, Free(h.ports, key), KeyOf(i, cl, n)) {
      assert KeepsKey(loaded.ports, h.ports, KeyOf(i, cl, n));
      if KeyOf(i, cl, n) == key { KeysNeverClash(i, cl, n, id, cluster, name); }
    }
  }

  /** Freeing a port of one component leaves the ports of the others in place. */
  lemma {:induction false} OthersKeepLink(st: Store, hypervisors: map<string, HypervisorObject>, g: string,
      loaded: ComponentObject, c: ComponentObject, i: ComponentId, id: ComponentId, cluster: string, name: string)
    requires g in hypervisors && Valid(hypervisors[g].ports) && IsPortName(name)
    requires ComponentLink(st, hypervisors, loaded, c, i) && (i == id ==> c.deleted)
    ensures var table := Free(hypervisors[g].ports, KeyOf(id, cluster, name));
      ComponentLink(st, hypervisors[g := hypervisors[g].(ports := table)], loaded, c, i)
  {
    var key := KeyOf(id, cluster, name);
    FreeKeepsValid(hypervisors[g].ports, key);
    forall n | !c.deleted && n in c.ports && n !in loaded.ports ensures KeyOf(i, c.cluster, n) != key {
      if KeyOf(i, c.cluster, n) == key { KeysNeverClash(i, c.cluster, n, id, cluster, name); }
    }
  }

  lemma {:induction false} FreedComponents(st: Store, hypervisors: map<string, HypervisorObject>,
      loaded: map<ComponentId, ComponentObject>, copies: map<ComponentId, ComponentObject>, id: ComponentId, name: string)
    requires ComponentLinks(st, hypervisors, loaded, copies)
    requires id in copies && copies[id].deleted && copies[id].hypervisor in hypervisors && IsPortName(name)
    requires Valid(hypervisors[copies[id].hypervisor].ports)
    ensures var c := copies[id]; var g := c.hypervisor;
      var table := Free(hypervisors[g].ports, KeyOf(id, c.cluster, name));
      ComponentLinks(st, hypervisors[g := hypervisors[g].(ports := table)], loaded, copies[id := c.(ports := c.ports - {name})])
  {
    var c := copies[id];
    var copies' := copies[id := c.(ports := c.ports - {name})];
    var table := Free(hypervisors[c.hypervisor].ports, KeyOf(id, c.cluster, name));
    var hypervisors' := hypervisors[c.hypervisor := hypervisors[c.hypervisor].(ports := table)];
    forall i | i in copies' ensures ComponentLink(st, hypervisors', loaded[i], copies'[i], i) {
      OthersKeepLink(st, hypervisors, c.hypervisor, loaded[i], copies[i], i, id, c.cluster, name);
    }
  }

  lemma {:induction false} FreedLinks(st: Store, w: Worker, name: string)
    requires WorkerOk(st, w) && CanFree(w, name)
    requires Valid(w.hypervisors[w.components[w.target].hypervisor].ports)
    ensures var c := w.components[w.target];
      var w' := WithRequested(w, w.target, c.ports - {name}, Free(w.hypervisors[c.hypervisor].ports, KeyOf(w.target, c.cluster, name)));
      && HypervisorLinks(st, w'.loadedHypervisors, w'.hypervisors)
      && ComponentLinks(st, w'.hypervisors, w'.loadedComponents, w'.components)
  {
    var c := w.components[w.target];
    var g := c.hypervisor;
    assert ComponentLink(st, w.hypervisors, w.loadedComponents[w.target], c, w.target);
    FreedHypervisor(st, w.loadedHypervisors[g], w.hypervisors[g], g, w.target, c.cluster, name);
    var table := Free(w.hypervisors[g].ports, KeyOf(w.target, c.cluster, name));
    HypervisorReplaced(st, w.loadedHypervisors, w.hypervisors, g, w.loadedHypervisors[g], w.hypervisors[g].(ports := table));
    FreedComponents(st, w.hypervisors, w.loadedComponents, w.components, w.target, name);
  }

  lemma {:induction false} FreeInUnfolds(w: Worker, name: string)
    requires w.target in w.components && w.components[w.target].hypervisor in w.hypervisors
    ensures var c := w.components[w.target];
      FreeIn(w, name) ==
        if name in c.ports
        then WithRequested(w, w.target, c.ports - {name}, Free(w.hypervisors[c.hypervisor].ports, KeyOf(w.target, c.cluster, name)))
        else w
  {
  }

  /** A free in the deletion of the target. */
  lemma {:induction false} FreeInOk(st: Store, w: Worker, name: string)
    requires WorkerOk(st, w) && CanFree(w, name)
    requires Valid(w.hypervisors[w.components[w.target].hypervisor].ports)
    ensures WorkerOk(st, FreeIn(w, name))
  {
    var c := w.components[w.target];
    FreeInUnfolds(w, name);
    if name in c.ports {
      FreedLinks(st, w, name);
      LocalProgress(st, w, w.target, c.ports - {name}, Free(w.hypervisors[c.hypervisor].ports, KeyOf(w.target, c.cluster, name)));
    }
  }

  /** Entering the work round: the stored target has all its ports, unless it is gone. */
  lemma {:induction false} ReadyToWork(st: Store, w: Worker)
    requires WorkerOk(st, w) && w.reserved && w.target in w.components
    requires w.components[w.target].ports == w.loadedComponents[w.target].ports
    requires HasAll(w.components[w.target].ports, w.components[w.target].role, w.vpn)
    ensures WorkerOk(st, w.(round := Work, stage := ReadHypervisors))
  {
    assert ComponentLink(st, w.hypervisors, w.loadedComponents[w.target], w.components[w.target], w.target);
  }

  lemma {:induction false} ReservedOk(st: Store, w: Worker, names: seq<string>)
    requires StoreOk(st) && WorkerOk(st, w) && w.round == Reserve && w.stage == Local
    requires names == PortNames(w.components[w.target].role, w.vpn)
    ensures var r := ReservedNames(w, names); r.Some? ==> WorkerOk(st, r.value)
  {
    var id, c := w.target, w.components[w.target];
    if c.hypervisor in w.hypervisors {
      NamelessHypervisor(st, w);
      var t := w.hypervisors[c.hypervisor].ports;
      RequestAllEffect(c.ports, t, id, c.cluster, names);
      match RequestAll(c.ports, t, id, c.cluster, names)
      case NotReady =>
      case Ready(ports, table) =>
        if ports == c.ports { ReadyToWork(st, w); } else { RequestedLinks(st, w, id, ports, table); }
    }
  }

  lemma {:induction false} PreReconcileOk(s: State, w: nat)
    requires Inv(s)
    ensures Inv(Computing(s, PreReconcile(w)))
  {
    if && w in s.workers && s.workers[w].round == Reserve && s.workers[w].stage == Local
       && s.workers[w].target in s.workers[w].components
    {
      var worker := s.workers[w];
      ReservedOk(s.store, worker, PortNames(worker.components[worker.target].role, worker.vpn));
      match Reserved(worker)
      case None => WorkerEnds(s, w);
      case Some(worker') => WorkerStep(s, w, worker');
    }
  }

  lemma {:induction false} LocalTables(st: Store, w: Worker, hypervisors: map<string, HypervisorObject>)
    requires w.components.Keys == w.loadedComponents.Keys && Progress(st, w) && w.stage == Local
    ensures Progress(st, w.(hypervisors := hypervisors))
  {
  }

  lemma {:induction false} ChangeFilesOk(st: Store, w: Worker, h: string, files: Files.NamespacedClusterFileMap)
    requires WorkerOk(st, w) && w.stage == Local && h in w.hypervisors
    ensures WorkerOk(st, w.(hypervisors := w.hypervisors[h := w.hypervisors[h].(files := files)]))
  {
    var h' := w.hypervisors[h].(files := files);
    FilesLink(st, w.loadedHypervisors[h], w.hypervisors[h], h, files);
    HypervisorReplaced(st, w.loadedHypervisors, w.hypervisors, h, w.loadedHypervisors[h], h');
    SameTableGrows(w.hypervisors, h, h');
    LinksStay(st, w.hypervisors, w.hypervisors[h := h'], h, w.loadedComponents, w.components);
    LocalTables(st, w, w.hypervisors[h := h']);
  }

  lemma {:induction false} FilesLink(st: Store, loaded: HypervisorObject, copy: HypervisorObject, h: string, files: Files.NamespacedClusterFileMap)
    requires HypervisorLink(st, loaded, copy, h)
    ensures HypervisorLink(st, loaded, copy.(files := files), h)
  {
  }

  lemma {:induction false} ExtraLink(st: Store, hypervisors: map<string, HypervisorObject>, loaded: ComponentObject,
      copy: ComponentObject, id: ComponentId, extra: string)
    requires ComponentLink(st, hypervisors, loaded, copy, id)
    ensures ComponentLink(st, hypervisors, loaded, copy.(extra := extra), id)
  {
  }

  lemma {:induction false} ChangeExtraOk(st: Store, w: Worker, id: ComponentId, extra: string)
    requires WorkerOk(st, w) && w.round == Work && w.stage == Local && id in w.components
    ensures WorkerOk(st, w.(components := w.components[id := w.components[id].(extra := extra)]))
  {
    ExtraLink(st, w.hypervisors, w.loadedComponents[id], w.components[id], id, extra);
  }

  lemma {:induction false} RequestPortOk(s: State, w: nat, id: ComponentId, name: string)
    requires Inv(s)
    ensures Inv(Computing(s, RequestPort(w, id, name)))
  {
    if w in s.workers && CanRequest(s.workers[w], id, name) {
      RequestInOk(s.store, s.workers[w], id, name);
      WorkerStep(s, w, RequestIn(s.workers[w], id, name));
    }
  }

  lemma {:induction false} FreePortOk(s: State, w: nat, name: string)
    requires Inv(s) && AllValid(s)
    ensures Inv(Computing(s, FreePort(w, name)))
  {
    if w in s.workers && CanFree(s.workers[w], name) {
      FreeInOk(s.store, s.workers[w], name);
      WorkerStep(s, w, FreeIn(s.workers[w], name));
    }
  }

  lemma {:induction false} FilesOk(s: State, w: nat, h: string, files: Files.NamespacedClusterFileMap)
    requires Inv(s)
    ensures Inv(Computing(s, ChangeFiles(w, h, files)))
  {
    if w in s.workers && s.workers[w].round == Work && s.workers[w].stage == Local && h in s.workers[w].hypervisors {
      ChangeFilesOk(s.store, s.workers[w], h, files);
      WorkerStep(s, w, Computing(s, ChangeFiles(w, h, files)).workers[w]);
    }
  }

  lemma {:induction false} ExtraOk(s: State, w: nat, id: ComponentId, extra: string)
    requires Inv(s)
    ensures Inv(Computing(s, ChangeExtra(w, id, extra)))
  {
    if w in s.workers && s.workers[w].round == Work && s.workers[w].stage == Local && id in s.workers[w].components {
      ChangeExtraOk(s.store, s.workers[w], id, extra);
      WorkerStep(s, w, Computing(s, ChangeExtra(w, id, extra)).workers[w]);
    }
  }

  lemma {:induction false} ComputingOk(s: State, e: Event)
    requires Inv(s) && AllValid(s)
    ensures Inv(Computing(s, e))
  {
    match e
    case PreReconcile(w) => PreReconcileOk(s, w);
    case RequestPort(w, id, name) => RequestPortOk(s, w, id, name);
    case FreePort(w, name) => FreePortOk(s, w, name);
    case ChangeFiles(w, h, files) => FilesOk(s, w, h, files);
    case ChangeExtra(w, id, extra) => ExtraOk(s, w, id, extra);
    case _ =>
  }

  // ---------------------------------------------------------------------------------------------
  // Writes

  lemma {:induction false} WroteHypervisorOk(s: State, w: nat, h: string)
    requires Inv(s) && w in s.workers && s.workers[w].stage == WriteHypervisors && DirtyHypervisor(s.workers[w], h)
    ensures Inv(WroteHypervisor(s, w, h)) && Evolves(s.store, WroteHypervisor(s, w, h).store)
  {
    var st, worker := s.store, s.workers[w];
    EvolvesReflexive(st);
    assert WorkerOk(st, worker);
    assert HypervisorLink(st, worker.loadedHypervisors[h], worker.hypervisors[h], h);
    if st.hypervisors[h].version != worker.hypervisors[h].version {
      ConflictOk(s, w);
    } else {
      var y := WithHypervisorStatus(st.hypervisors[h], worker.hypervisors[h]);
      assert y.ports == worker.hypervisors[h].ports;
      PutHypervisorOk(st, h, y);
      var st' := PutHypervisor(st, h, y);
      StoreStep(s, st');
      assert WorkerOk(st', worker);
      WrittenHypervisor(st', worker, h);
      WorkerStep(s.(store := st'), w, WroteHypervisor(s, w, h).workers[w]);
    }
  }

  /** After the write the copy is what is stored. */
  lemma {:induction false} WrittenHypervisor(st: Store, w: Worker, h: string)
    requires StoreOk(st) && WorkerOk(st, w) && w.stage == WriteHypervisors && h in w.hypervisors && h in st.hypervisors
    requires st.hypervisors[h].ports == w.hypervisors[h].ports
    ensures WorkerOk(st, w.(loadedHypervisors := w.loadedHypervisors[h := st.hypervisors[h]],
                            hypervisors := w.hypervisors[h := st.hypervisors[h]]))
  {
    FreshHypervisors(st);
    HypervisorReplaced(st, w.loadedHypervisors, w.hypervisors, h, st.hypervisors[h], st.hypervisors[h]);
    SameTableGrows(w.hypervisors, h, st.hypervisors[h]);
    LinksStay(st, w.hypervisors, w.hypervisors[h := st.hypervisors[h]], h, w.loadedComponents, w.components);
  }

  lemma {:induction false} ConflictOk(s: State, w: nat)
    requires Inv(s) && w in s.workers
    ensures Inv(Conflict(s, w))
  {
    assert WorkerOk(s.store, s.workers[w]);
    if s.workers[w].round == Reserve {
      WorkerStep(s, w, s.workers[w].(stage := ReadHypervisors));
    }
  }

  /** All hypervisors are written, so the ports added to a component are held in the store. */
  lemma {:induction false} AddedPortsAreHeld(st: Store, w: Worker, id: ComponentId)
    requires StoreOk(st) && WorkerOk(st, w) && w.stage == WriteComponents && id in w.components
    requires id in st.components && st.components[id] == w.loadedComponents[id]
    ensures ComponentOk(st, id, w.components[id])
    ensures Succeeds(st.components[id], w.components[id])
  {
    var c := w.components[id];
    assert ComponentLink(st, w.hypervisors, w.loadedComponents[id], c, id);
    assert ComponentOk(st, id, st.components[id]);
    forall n | n in c.ports && !c.deleted ensures Holds(st.hypervisors, c.hypervisor, KeyOf(id, c.cluster, n), c.ports[n]) {
      if n !in st.components[id].ports {
        assert Holds(w.hypervisors, c.hypervisor, KeyOf(id, c.cluster, n), c.ports[n]);
        assert HypervisorLink(st, w.loadedHypervisors[c.hypervisor], w.hypervisors[c.hypervisor], c.hypervisor);
        assert KeepsKey(w.loadedHypervisors[c.hypervisor].ports, st.hypervisors[c.hypervisor].ports, KeyOf(id, st.components[id].cluster, n));
      }
    }
  }

  lemma {:induction false} WroteComponentOk(s: State, w: nat, id: ComponentId)
    requires Inv(s) && w in s.workers && s.workers[w].stage == WriteComponents && DirtyComponent(s.workers[w], id)
    ensures Inv(WroteComponent(s, w, id)) && Evolves(s.store, WroteComponent(s, w, id).store)
  {
    var st, worker := s.store, s.workers[w];
    EvolvesReflexive(st);
    assert WorkerOk(st, worker);
    assert ComponentLink(st, worker.hypervisors, worker.loadedComponents[id], worker.components[id], id);
    if id !in st.components {
      WorkerEnds(s, w);
    } else if st.components[id].version != worker.components[id].version {
      ConflictOk(s, w);
    } else {
      AddedPortsAreHeld(st, worker, id);
      var y := WithComponentStatus(st.components[id], worker.components[id]);
      assert y == worker.components[id];
      assert st.used + {id} == st.used;
      PutComponentOk(st, id, y);
      var st' := PutComponent(st, id, y);
      StoreStep(s, st');
      assert WorkerOk(st', worker);
      WrittenComponent(st', worker, id);
      WorkerStep(s.(store := st'), w, WroteComponent(s, w, id).workers[w]);
    }
  }

  lemma {:induction false} WrittenComponent(st: Store, w: Worker, id: ComponentId)
    requires StoreOk(st) && WorkerOk(st, w) && w.stage == WriteComponents && id in w.components && id in st.components
    requires st.components[id].ports == w.components[id].ports && st.components[id].role == w.components[id].role
    ensures WorkerOk(st, w.(loadedComponents := w.loadedComponents[id := st.components[id]],
                            components := w.components[id := st.components[id]]))
  {
    FreshComponents(st, w.hypervisors);
  }

  lemma {:induction false} SettleOk(st: Store, w: Worker)
    requires WorkerOk(st, w) && CanSave(w)
    ensures WorkerOk(st, Settle(w))
  {
  }

  /** Saving a target that is not being deleted adds no port to it, so it is safe before the hypervisors are written. */
  lemma {:induction false} SaveStatusOk(st: Store, w: Worker)
    requires StoreOk(st) && WorkerOk(st, w) && CanSave(w) && !w.components[w.target].deleted
    requires w.target in st.components && st.components[w.target] == w.loadedComponents[w.target]
    ensures var st' := PutComponent(st, w.target, WithComponentStatus(st.components[w.target], w.components[w.target]));
      StoreOk(st') && Evolves(st, st')
  {
    ModifyComponentOk(st, w.target, WithComponentStatus(st.components[w.target], w.components[w.target]));
  }

  lemma {:induction false} SaveDeletionOk(st: Store, id: ComponentId, finalizers: seq<string>)
    requires StoreOk(st) && id in st.components
    ensures var st' := PutComponent(st, id, st.components[id].(finalizers := finalizers)); StoreOk(st') && Evolves(st, st')
    ensures var st' := RemoveComponent(st, id); StoreOk(st') && Evolves(st, st')
  {
    ModifyComponentOk(st, id, st.components[id].(finalizers := finalizers));
    RemoveComponentOk(st, id);
  }

  lemma {:induction false} SavedTargetOk(st: Store, w: Worker)
    requires StoreOk(st) && WorkerOk(st, w) && CanSave(w)
    ensures StoreOk(SavedTarget(st, w)) && Evolves(st, SavedTarget(st, w))
  {
    EvolvesReflexive(st);
    var c := w.components[w.target];
    if w.target in st.components && st.components[w.target].version == c.version {
      assert ComponentLink(st, w.hypervisors, w.loadedComponents[w.target], c, w.target);
      if !c.deleted { SaveStatusOk(st, w); } else { SaveDeletionOk(st, w.target, RemoveFinalizer(c.finalizers)); }
    }
  }

  lemma {:induction false} SaveTargetOk(s: State, w: nat)
    requires Inv(s) && w in s.workers && CanSave(s.workers[w])
    ensures var st' := SavedTarget(s.store, s.workers[w]);
      Inv(SetWorker(s.(store := st'), w, Settle(s.workers[w]))) && Evolves(s.store, st')
  {
    var st' := SavedTarget(s.store, s.workers[w]);
    SavedTargetOk(s.store, s.workers[w]);
    StoreStep(s, st');
    SettleOk(st', s.workers[w]);
    WorkerStep(s.(store := st'), w, Settle(s.workers[w]));
  }

  lemma {:induction false} ContinuedOk(s: State, w: nat)
    requires Inv(s) && w in s.workers
    ensures Inv(Continued(s, w)) && Continued(s, w).store == s.store
  {
    var worker := s.workers[w];
    assert WorkerOk(s.store, worker);
    if worker.stage == WriteHypervisors && worker.hypervisors == worker.loadedHypervisors {
      WorkerStep(s, w, worker.(stage := WriteComponents));
    } else if worker.stage == WriteComponents && worker.components == worker.loadedComponents && worker.round == Reserve {
      ReadyToWork(s.store, worker);
      WorkerStep(s, w, worker.(round := Work, stage := ReadHypervisors));
    } else {
      WorkerEnds(s, w);
    }
  }

  lemma {:induction false} SaveTargetStep(s: State, w: nat)
    requires Inv(s)
    ensures Inv(Writing(s, SaveTarget(w))) && Evolves(s.store, Writing(s, SaveTarget(w)).store)
  {
    EvolvesReflexive(s.store);
    if w in s.workers && CanSave(s.workers[w]) { SaveTargetOk(s, w); }
  }

  lemma {:induction false} SkipTargetStep(s: State, w: nat)
    requires Inv(s)
    ensures Inv(Writing(s, SkipTarget(w))) && Evolves(s.store, Writing(s, SkipTarget(w)).store)
  {
    EvolvesReflexive(s.store);
    if w in s.workers && CanSave(s.workers[w]) { SettleOk(s.store, s.workers[w]); WorkerStep(s, w, Settle(s.workers[w])); }
  }

  lemma {:induction false} WriteHypervisorStep(s: State, w: nat, h: string)
    requires Inv(s)
    ensures Inv(Writing(s, WriteHypervisor(w, h))) && Evolves(s.store, Writing(s, WriteHypervisor(w, h)).store)
  {
    EvolvesReflexive(s.store);
    if w in s.workers && s.workers[w].stage == WriteHypervisors && DirtyHypervisor(s.workers[w], h) { WroteHypervisorOk(s, w, h); }
  }

  lemma {:induction false} WriteComponentStep(s: State, w: nat, id: ComponentId)
    requires Inv(s)
    ensures Inv(Writing(s, WriteComponent(w, id))) && Evolves(s.store, Writing(s, WriteComponent(w, id)).store)
  {
    EvolvesReflexive(s.store);
    if w in s.workers && s.workers[w].stage == WriteComponents && DirtyComponent(s.workers[w], id) { WroteComponentOk(s, w, id); }
  }

  lemma {:induction false} ContinueStep(s: State, w: nat)
    requires Inv(s)
    ensures Inv(Writing(s, Continue(w))) && Evolves(s.store, Writing(s, Continue(w)).store)
  {
    EvolvesReflexive(s.store);
    if w in s.workers { ContinuedOk(s, w); }
  }

  lemma {:induction false} WritingOk(s: State, e: Event)
    requires Inv(s)
    ensures Inv(Writing(s, e)) && Evolves(s.store, Writing(s, e).store)
  {
    match e
    case SaveTarget(w) => SaveTargetStep(s, w);
    case SkipTarget(w) => SkipTargetStep(s, w);
    case WriteHypervisor(w, h) => WriteHypervisorStep(s, w, h);
    case WriteComponent(w, id) => WriteComponentStep(s, w, id);
    case Continue(w) => ContinueStep(s, w);
    case Stop(w) =>
      WorkerEnds(s, w);
      EvolvesReflexive(s.store);
    case _ => EvolvesReflexive(s.store);
  }

  // ---------------------------------------------------------------------------------------------
  // Valid tables

  lemma {:induction false} RequestNamedValid(ports: map<string, int>, table: PortTable, key: PortKey, name: string)
    requires Valid(table)
    ensures var r := RequestNamed(ports, table, key, name); r.Have? ==> Valid(r.table)
  {
    RequestKeepsValid(table, key);
  }

  lemma {:induction false} RequestAllValid(ports: map<string, int>, table: PortTable, id: ComponentId, cluster: string, names: seq<string>)
    requires Valid(table)
    ensures var r := RequestAll(ports, table, id, cluster, names); r.Ready? ==> Valid(r.table)
    decreases |names|
  {
    if names == [] {
    } else {
      var key := KeyOf(id, cluster, names[0]);
      RequestNamedValid(ports, table, key, names[0]);
      var r := RequestNamed(ports, table, key, names[0]);
      if r.Have? { RequestAllValid(r.ports, r.table, id, cluster, names[1..]); }
    }
  }

  lemma {:induction false} WorkerStepValid(s: State, w: nat, worker: Worker)
    requires AllValid(s) && TablesValid(worker.hypervisors)
    ensures AllValid(SetWorker(s, w, worker))
  {
  }

  lemma {:induction false} StoreStepValid(s: State, st: Store)
    requires AllValid(s) && TablesValid(st.hypervisors)
    ensures AllValid(s.(store := st))
  {
  }

  lemma {:induction false} TableReplaced(hypervisors: map<string, HypervisorObject>, g: string, h: HypervisorObject)
    requires TablesValid(hypervisors) && Valid(h.ports)
    ensures TablesValid(hypervisors[g := h])
  {
  }

  /** Nothing happened to any port table. */
  predicate SameTables(s: State, s': State) {
    && s'.store.hypervisors == s.store.hypervisors
    && forall w :: w in s'.workers ==> w in s.workers && s'.workers[w].hypervisors == s.workers[w].hypervisors
  }

  lemma {:induction false} SameTablesValid(s: State, s': State)
    requires AllValid(s) && SameTables(s, s')
    ensures AllValid(s')
  {
  }

  lemma {:induction false} ReservedTables(w: Worker, names: seq<string>)
    requires TablesValid(w.hypervisors) && w.target in w.components
    ensures var r := ReservedNames(w, names); r.Some? ==> TablesValid(r.value.hypervisors)
  {
    var c := w.components[w.target];
    if c.hypervisor in w.hypervisors {
      var h := w.hypervisors[c.hypervisor];
      RequestAllValid(c.ports, h.ports, w.target, c.cluster, names);
      match RequestAll(c.ports, h.ports, w.target, c.cluster, names)
      case NotReady =>
      case Ready(ports, table) => TableReplaced(w.hypervisors, c.hypervisor, h.(ports := table));
    }
  }

  lemma {:induction false} PreReconcileValid(s: State, w: nat)
    requires AllValid(s)
    ensures AllValid(Computing(s, PreReconcile(w)))
  {
    if && w in s.workers && s.workers[w].round == Reserve && s.workers[w].stage == Local
       && s.workers[w].target in s.workers[w].components
    {
      var worker := s.workers[w];
      ReservedTables(worker, PortNames(worker.components[worker.target].role, worker.vpn));
      match Reserved(worker)
      case None => SameTablesValid(s, EndWorker(s, w));
      case Some(worker') => WorkerStepValid(s, w, worker');
    }
  }

  lemma {:induction false} RequestInValid(w: Worker, id: ComponentId, name: string)
    requires TablesValid(w.hypervisors) && id in w.components && w.components[id].hypervisor in w.hypervisors
    ensures TablesValid(RequestIn(w, id, name).hypervisors)
  {
    var c := w.components[id];
    var h := w.hypervisors[c.hypervisor];
    RequestKeepsValid(h.ports, KeyOf(id, c.cluster, name));
    match RequestNamed(c.ports, h.ports, KeyOf(id, c.cluster, name), name)
    case Refused =>
    case Have(_, ports, table) => TableReplaced(w.hypervisors, c.hypervisor, h.(ports := table));
  }

  lemma {:induction false} FreeInValid(w: Worker, name: string)
    requires TablesValid(w.hypervisors) && w.target in w.components && w.components[w.target].hypervisor in w.hypervisors
    ensures TablesValid(FreeIn(w, name).hypervisors)
  {
    var c := w.components[w.target];
    var h := w.hypervisors[c.hypervisor];
    FreeKeepsValid(h.ports, KeyOf(w.target, c.cluster, name));
    TableReplaced(w.hypervisors, c.hypervisor, h.(ports := FreeNamed(c.ports, h.ports, KeyOf(w.target, c.cluster, name), name).1));
  }

  lemma {:induction false} WroteHypervisorValid(s: State, w: nat, h: string)
    requires Inv(s) && AllValid(s) && w in s.workers && DirtyHypervisor(s.workers[w], h)
    ensures AllValid(WroteHypervisor(s, w, h))
  {
    var worker := s.workers[w];
    assert HypervisorLink(s.store, worker.loadedHypervisors[h], worker.hypervisors[h], h);
    var y := WithHypervisorStatus(s.store.hypervisors[h], worker.hypervisors[h]);
    assert y.ports == worker.hypervisors[h].ports;
    var st' := PutHypervisor(s.store, h, y);
    TableReplaced(s.store.hypervisors, h, st'.hypervisors[h]);
    TableReplaced(worker.hypervisors, h, st'.hypervisors[h]);
    StoreStepValid(s, st');
    WorkerStepValid(s.(store := st'), w, worker.(
      loadedHypervisors := worker.loadedHypervisors[h := st'.hypervisors[h]],
      hypervisors := worker.hypervisors[h := st'.hypervisors[h]]));
  }

  lemma {:induction false} OutsideTables(st: Store, e: Event)
    requires TablesValid(st.hypervisors)
    ensures TablesValid(Outside(st, e).hypervisors)
  {
    match e
    case AddHypervisor(h, public, ipAddress, low, high) =>
      if h != "" && h !in st.hypervisors {
        EmptyIsValid(low, high);
        TableReplaced(st.hypervisors, h, Outside(st, e).hypervisors[h]);
      }
    case TouchHypervisor(h) =>
      if h in st.hypervisors { TableReplaced(st.hypervisors, h, Outside(st, e).hypervisors[h]); }
    case _ => assert Outside(st, e).hypervisors == st.hypervisors;
  }

  lemma {:induction false} OutsideValid(s: State, e: Event)
    requires AllValid(s) && IsOutside(e)
    ensures AllValid(Apply(s, e))
  {
    OutsideTables(s.store, e);
    StoreStepValid(s, Outside(s.store, e));
  }

  lemma {:induction false} ReadingValid(s: State, e: Event)
    requires AllValid(s) && IsReading(e)
    ensures AllValid(Apply(s, e))
  {
    match e
    case Begin(w, _, _) =>
      if Apply(s, e) != s { WorkerStepValid(s, w, Apply(s, e).workers[w]); }
    case ListHypervisors(w) =>
      if Apply(s, e) != s { WorkerStepValid(s, w, Apply(s, e).workers[w]); }
    case ListComponents(w) => SameTablesValid(s, Apply(s, e));
  }

  lemma {:induction false} RequestPortValid(s: State, w: nat, id: ComponentId, name: string)
    requires AllValid(s)
    ensures AllValid(Computing(s, RequestPort(w, id, name)))
  {
    if w in s.workers && CanRequest(s.workers[w], id, name) {
      RequestInValid(s.workers[w], id, name);
      WorkerStepValid(s, w, RequestIn(s.workers[w], id, name));
    }
  }

  lemma {:induction false} FreePortValid(s: State, w: nat, name: string)
    requires AllValid(s)
    ensures AllValid(Computing(s, FreePort(w, name)))
  {
    if w in s.workers && CanFree(s.workers[w], name) {
      FreeInValid(s.workers[w], name);
      WorkerStepValid(s, w, FreeIn(s.workers[w], name));
    }
  }

  lemma {:induction false} FilesValid(s: State, w: nat, h: string, files: Files.NamespacedClusterFileMap)
    requires AllValid(s)
    ensures AllValid(Computing(s, ChangeFiles(w, h, files)))
  {
    if w in s.workers && s.workers[w].round == Work && s.workers[w].stage == Local && h in s.workers[w].hypervisors {
      TableReplaced(s.workers[w].hypervisors, h, s.workers[w].hypervisors[h].(files := files));
      WorkerStepValid(s, w, Computing(s, ChangeFiles(w, h, files)).workers[w]);
    }
  }

  lemma {:induction false} ComputingValid(s: State, e: Event)
    requires AllValid(s) && IsComputing(e)
    ensures AllValid(Computing(s, e))
  {
    match e
    case PreReconcile(w) => PreReconcileValid(s, w);
    case RequestPort(w, id, name) => RequestPortValid(s, w, id, name);
    case FreePort(w, name) => FreePortValid(s, w, name);
    case ChangeFiles(w, h, files) => FilesValid(s, w, h, files);
    case ChangeExtra(_, _, _) => SameTablesValid(s, Computing(s, e));
  }

  lemma {:induction false} SchedulingKeepsTables(s: State, e: Event)
    ensures SameTables(s, Scheduling(s, e))
  {
  }

  lemma {:induction false} ConflictTables(s: State, w: nat)
    requires w in s.workers
    ensures SameTables(s, Conflict(s, w)) && SameTables(s, EndWorker(s, w))
  {
  }

  lemma {:induction false} PutTables(s: State, w: nat, st: Store, worker: Worker)
    requires w in s.workers && st.hypervisors == s.store.hypervisors && worker.hypervisors == s.workers[w].hypervisors
    ensures SameTables(s, SetWorker(s.(store := st), w, worker))
  {
  }

  lemma {:induction false} WroteComponentTables(s: State, w: nat, id: ComponentId)
    requires w in s.workers && DirtyComponent(s.workers[w], id)
    ensures SameTables(s, WroteComponent(s, w, id))
  {
    ConflictTables(s, w);
    var worker := s.workers[w];
    if id in s.store.components && s.store.components[id].version == worker.components[id].version {
      var store := PutComponent(s.store, id, WithComponentStatus(s.store.components[id], worker.components[id]));
      PutTables(s, w, store, worker.(
        loadedComponents := worker.loadedComponents[id := store.components[id]],
        components := worker.components[id := store.components[id]]));
    }
  }

  lemma {:induction false} ContinuedTables(s: State, w: nat)
    requires w in s.workers
    ensures SameTables(s, Continued(s, w))
  {
  }

  lemma {:induction false} SaveTargetTables(s: State, w: nat)
    requires w in s.workers && CanSave(s.workers[w])
    ensures SameTables(s, SetWorker(s.(store := SavedTarget(s.store, s.workers[w])), w, Settle(s.workers[w])))
  {
  }

  lemma {:induction false} WritingKeepsTables(s: State, e: Event)
    requires !e.WriteHypervisor?
    ensures SameTables(s, Writing(s, e))
  {
    match e
    case SaveTarget(w) => if w in s.workers && CanSave(s.workers[w]) { SaveTargetTables(s, w); }
    case WriteComponent(w, id) => if w in s.workers && DirtyComponent(s.workers[w], id) { WroteComponentTables(s, w, id); }
    case Continue(w) => if w in s.workers { ContinuedTables(s, w); }
    case _ =>
  }

  lemma {:induction false} WritingValid(s: State, e: Event)
    requires Inv(s) && AllValid(s)
    ensures AllValid(Writing(s, e))
  {
    if e.WriteHypervisor? {
      if && e.worker in s.workers && s.workers[e.worker].stage == WriteHypervisors
         && DirtyHypervisor(s.workers[e.worker], e.hypervisor)
      { WroteHypervisorValid(s, e.worker, e.hypervisor); }
    } else {
      WritingKeepsTables(s, e);
      SameTablesValid(s, Writing(s, e));
    }
  }

  lemma {:induction false} ApplyKeepsValid(s: State, e: Event)
    requires Inv(s) && AllValid(s)
    ensures AllValid(Apply(s, e))
  {
    if IsOutside(e) { OutsideValid(s, e); }
    else if IsScheduling(e) { SchedulingKeepsTables(s, e); SameTablesValid(s, Scheduling(s, e)); }
    else if IsReading(e) { ReadingValid(s, e); }
    else if IsComputing(e) { ComputingValid(s, e); }
    else { WritingValid(s, e); }
  }

  // ---------------------------------------------------------------------------------------------
  // Whole runs

  lemma {:induction false} OutsideStep(s: State, e: Event)
    requires Inv(s) && IsOutside(e)
    ensures Inv(Apply(s, e)) && Evolves(s.store, Apply(s, e).store)
  {
    OutsideOk(s.store, e);
    StoreStep(s, Outside(s.store, e));
  }

  lemma {:induction false} ComputingKeepsStore(s: State, e: Event)
    ensures Computing(s, e).store == s.store
  {
  }

  lemma {:induction false} ComputingStep(s: State, e: Event)
    requires Inv(s) && AllValid(s) && IsComputing(e)
    ensures Inv(Apply(s, e)) && Evolves(s.store, Apply(s, e).store)
  {
    ComputingOk(s, e);
    ComputingKeepsStore(s, e);
    EvolvesReflexive(s.store);
  }

  /** Every event keeps the invariant, and the store only ever moves forward. */
  lemma {:induction false} ApplyKeepsInv(s: State, e: Event)
    requires Inv(s) && AllValid(s)
    ensures Inv(Apply(s, e)) && Evolves(s.store, Apply(s, e).store)
  {
    if IsOutside(e) { OutsideStep(s, e); }
    else if IsScheduling(e) { SchedulingOk(s, e); }
    else if IsReading(e) { ReadingOk(s, e); }
    else if IsComputing(e) { ComputingStep(s, e); }
    else { WritingOk(s, e); }
  }

  lemma {:induction false} ExecuteOk(s: State, events: seq<Event>)
    requires Inv(s) && AllValid(s)
    ensures Inv(Execute(s, events)) && AllValid(Execute(s, events)) && Evolves(s.store, Execute(s, events).store)
  {
    if events == [] {
      EvolvesReflexive(s.store);
    } else {
      var before := Execute(s, events[..|events| - 1]);
      ExecuteOk(s, events[..|events| - 1]);
      ApplyKeepsInv(before, events[|events| - 1]);
      ApplyKeepsValid(before, events[|events| - 1]);
      EvolvesOn(s.store, before.store, Execute(s, events).store);
    }
  }
}
