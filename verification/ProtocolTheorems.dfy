/** What the protocol guarantees, in every state any interleaving of users, schedulers and workers can reach. */
module ProtocolTheorems {
  import opened Ports
  import opened Components
  import opened Protocol
  import opened ProtocolInvariant
  import opened ProtocolSafety

  lemma {:induction false} ReachableOk(events: seq<Event>)
    ensures Inv(Execute(INITIAL, events)) && AllValid(Execute(INITIAL, events))
  {
    ExecuteOk(INITIAL, events);
  }

  /** Ports of components on the same hypervisor, as the store lists them. */
  ghost predicate Lists(st: Store, id: ComponentId, h: string, name: string, port: int) {
    && id in st.components && !st.components[id].deleted && st.components[id].hypervisor == h
    && name in st.components[id].ports && st.components[id].ports[name] == port
  }

  /** Every port that an undeleted component lists is allocated to it on the stored hypervisor it is assigned to, and
      lies in the port range of that hypervisor. */
  lemma {:induction false} ListedPortIsAllocated(events: seq<Event>, id: ComponentId, h: string, name: string, port: int)
    requires Lists(Execute(INITIAL, events).store, id, h, name, port)
    ensures var st := Execute(INITIAL, events).store;
      && Holds(st.hypervisors, h, KeyOf(id, st.components[id].cluster, name), port)
      && st.hypervisors[h].ports.low <= port <= st.hypervisors[h].ports.high
      && IsPortName(name)
  {
    var st := Execute(INITIAL, events).store;
    ReachableOk(events);
    assert ComponentOk(st, id, st.components[id]);
    HeldInRange(st.hypervisors[h].ports, KeyOf(id, st.components[id].cluster, name));
  }

  /** Port safety: no two undeleted components on one hypervisor list the same host port, and no component lists it
      under two names. */
  lemma {:induction false} NoPortIsShared(events: seq<Event>, h: string, port: int,
      id1: ComponentId, name1: string, id2: ComponentId, name2: string)
    requires var st := Execute(INITIAL, events).store; Lists(st, id1, h, name1, port) && Lists(st, id2, h, name2, port)
    ensures id1 == id2 && name1 == name2
  {
    var st := Execute(INITIAL, events).store;
    ReachableOk(events);
    ListedPortIsAllocated(events, id1, h, name1, port);
    ListedPortIsAllocated(events, id2, h, name2, port);
    var k1, k2 := KeyOf(id1, st.components[id1].cluster, name1), KeyOf(id2, st.components[id2].cluster, name2);
    HeldInjective(st.hypervisors[h].ports, k1, k2);
    KeysNeverClash(id1, st.components[id1].cluster, name1, id2, st.components[id2].cluster, name2);
  }

  /** In every reachable state each hypervisor owns an initial segment of its range, each port once, with one key per
      allocation. */
  lemma {:induction false} StoredTablesAreValid(events: seq<Event>, h: string)
    requires h in Execute(INITIAL, events).store.hypervisors
    ensures Valid(Execute(INITIAL, events).store.hypervisors[h].ports)
  {
    ReachableOk(events);
  }

  /** A hypervisor is assigned at most once: an assigned component keeps its hypervisor, whatever happens later. */
  lemma {:induction false} AssignedOnce(events: seq<Event>, later: seq<Event>, id: ComponentId)
    requires var s := Execute(INITIAL, events); id in s.store.components && s.store.components[id].hypervisor != ""
    requires id in Execute(Execute(INITIAL, events), later).store.components
    ensures var s := Execute(INITIAL, events);
      Execute(s, later).store.components[id].hypervisor == s.store.components[id].hypervisor
  {
    var s := Execute(INITIAL, events);
    ReachableOk(events);
    ExecuteOk(s, later);
    assert ComponentFollows(s.store.components[id], Execute(s, later).store, id);
  }

  /** Control planes sit on private hypervisors and ingresses on public ones. */
  lemma {:induction false} PlacedByRole(events: seq<Event>, id: ComponentId)
    requires var st := Execute(INITIAL, events).store; id in st.components && st.components[id].hypervisor != ""
    ensures var st := Execute(INITIAL, events).store; var c := st.components[id];
      && c.hypervisor in st.hypervisors
      && (c.role == ControlPlane ==> !st.hypervisors[c.hypervisor].public)
      && (c.role == ControlPlaneIngress ==> st.hypervisors[c.hypervisor].public)
  {
    ReachableOk(events);
    var st := Execute(INITIAL, events).store;
    assert ComponentOk(st, id, st.components[id]);
  }

  // ---------------------------------------------------------------------------------------------
  // Reservations survive interruption

  /** Hypervisor `h` has these ports reserved for the component, whether or not the component lists them yet. */
  ghost predicate ReservedFor(st: Store, id: ComponentId, cluster: string, h: string, names: seq<string>, want: map<string, int>) {
    forall n :: n in names ==> IsPortName(n) && n in want && Holds(st.hypervisors, h, KeyOf(id, cluster, n), want[n])
  }

  /** What is reserved for a component stays reserved until the component is deleted. */
  lemma {:induction false} ReservationStays(a: Store, b: Store, id: ComponentId, cluster: string, h: string,
      names: seq<string>, want: map<string, int>)
    requires Evolves(a, b) && ReservedFor(a, id, cluster, h, names, want)
    requires id in b.components && !b.components[id].deleted && b.components[id].cluster == cluster
    ensures ReservedFor(b, id, cluster, h, names, want)
  {
    forall n | n in names ensures Holds(b.hypervisors, h, KeyOf(id, cluster, n), want[n]) {
      assert Holds(a.hypervisors, h, KeyOf(id, cluster, n), want[n]);
      assert HypervisorFollows(a.hypervisors[h], b, h);
      assert KeepsKey(a.hypervisors[h].ports, b.hypervisors[h].ports, KeyOf(id, b.components[id].cluster, n));
    }
  }

  /** Reserving ports that the table holds already returns them and leaves the table as it is. */
  lemma {:induction false} ReservingAgain(ports: map<string, int>, table: PortTable, id: ComponentId, cluster: string,
      names: seq<string>, want: map<string, int>)
    requires forall n :: n in names ==>
      && n in want && KeyOf(id, cluster, n) in Held(table) && Held(table)[KeyOf(id, cluster, n)] == want[n]
      && (n in ports ==> ports[n] == want[n])
    ensures var r := RequestAll(ports, table, id, cluster, names);
      && r.Ready? && r.table == table && PortsGrow(ports, r.ports)
      && forall n :: n in names ==> n in r.ports && r.ports[n] == want[n]
    decreases |names|
  {
    if names == [] {
    } else {
      var n := names[0];
      assert n in names;
      RequestEffect(table, KeyOf(id, cluster, n));
      var ports' := if n in ports then ports else ports[n := want[n]];
      assert RequestNamed(ports, table, KeyOf(id, cluster, n), n) == Have(want[n], ports', table);
      ReservingAgain(ports', table, id, cluster, names[1..], want);
    }
  }

  /** A component that is there and undeleted in the end, and had a port reserved in the beginning, was there and
      undeleted in between. */
  lemma {:induction false} ThereInBetween(a: Store, b: Store, c: Store, id: ComponentId, h: string, name: string, port: int)
    requires StoreOk(a) && Evolves(a, b) && Evolves(b, c) && IsPortName(name)
    requires id in c.components && !c.components[id].deleted
    requires Holds(a.hypervisors, h, KeyOf(id, c.components[id].cluster, name), port)
    ensures id in b.components && !b.components[id].deleted && b.components[id].cluster == c.components[id].cluster
  {
    assert HypervisorOk(a, h);
    assert id in a.used;
    assert ComponentFollows(b.components[id], c, id);
  }

  lemma {:induction false} SameReservation(a: Store, b: Store, c: Store, id: ComponentId, names: seq<string>, want: map<string, int>)
    requires StoreOk(a) && StoreOk(c) && Evolves(a, b) && Evolves(b, c)
    requires id in c.components && !c.components[id].deleted && names != []
    requires ReservedFor(a, id, c.components[id].cluster, c.components[id].hypervisor, names, want)
    ensures var o := c.components[id];
      && ReservedFor(b, id, o.cluster, o.hypervisor, names, want)
      && forall n :: n in names && n in o.ports ==> o.ports[n] == want[n]
  {
    var o := c.components[id];
    assert names[0] in names;
    ThereInBetween(a, b, c, id, o.hypervisor, names[0], want[names[0]]);
    ReservationStays(a, b, id, o.cluster, o.hypervisor, names, want);
    ReservationStays(b, c, id, o.cluster, o.hypervisor, names, want);
    assert ComponentOk(c, id, o);
    forall n | n in names && n in o.ports ensures o.ports[n] == want[n] {
      assert Holds(c.hypervisors, o.hypervisor, KeyOf(id, o.cluster, n), want[n]);
      assert Holds(c.hypervisors, o.hypervisor, KeyOf(id, o.cluster, n), o.ports[n]);
    }
  }

  /** A worker reserved ports for its target and wrote the hypervisor, or needed not to; the component is yet to be
      written. */
  ghost predicate ReservationWritten(w: Worker) {
    && w.round == Reserve && (w.stage == WriteHypervisors || w.stage == WriteComponents)
    && w.target in w.components
    && var h := w.components[w.target].hypervisor;
       h in w.hypervisors && h in w.loadedHypervisors && w.hypervisors[h] == w.loadedHypervisors[h]
  }

  lemma {:induction false} WrittenPortIsReserved(st: Store, w: Worker, n: string)
    requires StoreOk(st) && WorkerOk(st, w) && ReservationWritten(w)
    requires w.target in st.components && !st.components[w.target].deleted && n in w.components[w.target].ports
    ensures var c := st.components[w.target];
      && c.hypervisor == w.components[w.target].hypervisor && c.cluster == w.components[w.target].cluster
      && IsPortName(n) && Holds(st.hypervisors, c.hypervisor, KeyOf(w.target, c.cluster, n), w.components[w.target].ports[n])
  {
    var id, copy, loaded := w.target, w.components[w.target], w.loadedComponents[w.target];
    assert ComponentLink(st, w.hypervisors, loaded, copy, id);
    assert HypervisorLink(st, w.loadedHypervisors[copy.hypervisor], w.hypervisors[copy.hypervisor], copy.hypervisor);
    assert ComponentOk(st, id, st.components[id]);
    if n !in loaded.ports {
      assert KeepsKey(w.loadedHypervisors[copy.hypervisor].ports, st.hypervisors[copy.hypervisor].ports, KeyOf(id, copy.cluster, n));
    }
  }

  /** What such a worker has in its copy is reserved in the store. */
  lemma {:induction false} WrittenIsReserved(st: Store, w: Worker)
    requires StoreOk(st) && WorkerOk(st, w) && ReservationWritten(w)
    requires w.target in st.components && !st.components[w.target].deleted
    ensures var copy, c := w.components[w.target], st.components[w.target];
      && c.hypervisor == copy.hypervisor && c.cluster == copy.cluster && c.role == copy.role
      && ReservedFor(st, w.target, c.cluster, c.hypervisor, PortNames(copy.role, w.vpn), copy.ports)
  {
    var copy := w.components[w.target];
    assert ComponentLink(st, w.hypervisors, w.loadedComponents[w.target], copy, w.target);
    assert HypervisorLink(st, w.loadedHypervisors[copy.hypervisor], w.hypervisors[copy.hypervisor], copy.hypervisor);
    forall n | n in PortNames(copy.role, w.vpn)
      ensures n in copy.ports && Holds(st.hypervisors, copy.hypervisor, KeyOf(w.target, copy.cluster, n), copy.ports[n])
    {
      WrittenPortIsReserved(st, w, n);
    }
  }

  /** The worker takes this step itself. */
  predicate IsStepOf(e: Event, v: nat) {
    match e
    case Begin(w, _, _) => w == v
    case ListHypervisors(w) => w == v
    case ListComponents(w) => w == v
    case PreReconcile(w) => w == v
    case RequestPort(w, _, _) => w == v
    case FreePort(w, _) => w == v
    case ChangeFiles(w, _, _) => w == v
    case ChangeExtra(w, _, _) => w == v
    case SaveTarget(w) => w == v
    case SkipTarget(w) => w == v
    case WriteHypervisor(w, _) => w == v
    case WriteComponent(w, _) => w == v
    case Continue(w) => w == v
    case Stop(w) => w == v
    case _ => false
  }

  lemma {:induction false} OthersLeaveAlone(s: State, e: Event, v: nat)
    requires v in s.workers && !IsStepOf(e, v)
    ensures v in Apply(s, e).workers && Apply(s, e).workers[v] == s.workers[v]
  {
  }

  lemma {:induction false} WaitsUnchanged(s: State, events: seq<Event>, v: nat)
    requires v in s.workers && forall e :: e in events ==> !IsStepOf(e, v)
    ensures v in Execute(s, events).workers && Execute(s, events).workers[v] == s.workers[v]
  {
    if events == [] {
    } else {
      var init, e := events[..|events| - 1], events[|events| - 1];
      assert e in events;
      WaitsUnchanged(s, init, v);
      OthersLeaveAlone(Execute(s, init), e, v);
    }
  }

  /** The steps up to the reservation of a later pass: it lists the hypervisors, then, after any steps of others, the
      components, and then, after more, reserves. */
  function ReadBy(s: State, v: nat, between: seq<Event>, after: seq<Event>): State {
    Execute(Apply(Execute(Apply(s, ListHypervisors(v)), between), ListComponents(v)), after)
  }

  function ComponentsReadAt(s: State, v: nat, between: seq<Event>): Store {
    Execute(Apply(s, ListHypervisors(v)), between).store
  }

  lemma {:induction false} WhatIsRead(s: State, v: nat, between: seq<Event>, after: seq<Event>)
    requires v in s.workers && s.workers[v].stage == ReadHypervisors
    requires forall e :: e in between + after ==> !IsStepOf(e, v)
    requires s.workers[v].target in ComponentsReadAt(s, v, between).components
    ensures var w := s.workers[v]; var s' := ReadBy(s, v, between, after); var components := ComponentsReadAt(s, v, between).components;
      && v in s'.workers && w.target in s'.workers[v].components
      && s'.workers[v].components[w.target] == components[w.target] && s'.workers[v].hypervisors == s.store.hypervisors
      && s'.workers[v].stage == Local && s'.workers[v].target == w.target && s'.workers[v].vpn == w.vpn
      && s'.workers[v].round == w.round
  {
    var s1 := Apply(s, ListHypervisors(v));
    forall e | e in between ensures !IsStepOf(e, v) { assert e in between + after; }
    forall e | e in after ensures !IsStepOf(e, v) { assert e in between + after; }
    WaitsUnchanged(s1, between, v);
    WaitsUnchanged(Apply(Execute(s1, between), ListComponents(v)), after, v);
  }

  lemma {:induction false} StoresEvolve(s: State, first: seq<Event>, v: nat, between: seq<Event>)
    requires Inv(s) && AllValid(s)
    ensures var s1 := Execute(s, first); var st := ComponentsReadAt(s1, v, between);
      Evolves(s.store, s1.store) && Evolves(s1.store, st) && StoreOk(st)
  {
    var s1 := Execute(s, first);
    ExecuteOk(s, first);
    var s2 := Apply(s1, ListHypervisors(v));
    ApplyKeepsInv(s1, ListHypervisors(v));
    ApplyKeepsValid(s1, ListHypervisors(v));
    ExecuteOk(s2, between);
    EvolvesOn(s1.store, s2.store, Execute(s2, between).store);
  }

  /** The copy a worker has of its target has these ports under these names. */
  predicate HasPorts(worker: Worker, names: seq<string>, want: map<string, int>) {
    && worker.target in worker.components
    && forall n :: n in names ==>
         n in want && n in worker.components[worker.target].ports && worker.components[worker.target].ports[n] == want[n]
  }

  /** The copies hold these ports for the target, and it lists no other. */
  ghost predicate HoldsPorts(worker: Worker, names: seq<string>, want: map<string, int>) {
    && worker.target in worker.components
    && var c := worker.components[worker.target];
    && c.hypervisor in worker.hypervisors
    && forall n :: n in names ==>
         && n in want && Holds(worker.hypervisors, c.hypervisor, KeyOf(worker.target, c.cluster, n), want[n])
         && (n in c.ports ==> c.ports[n] == want[n])
  }

  /** Reserving what the copies hold already changes no table. */
  lemma {:induction false} ReserveAgain(worker: Worker, names: seq<string>, want: map<string, int>)
    requires worker.target in worker.components && worker.components[worker.target].role != UnknownRole
    requires HoldsPorts(worker, names, want)
    ensures var r := ReservedNames(worker, names); r.Some? && r.value.hypervisors == worker.hypervisors && HasPorts(r.value, names, want)
  {
    var c := worker.components[worker.target];
    var h := worker.hypervisors[c.hypervisor];
    ReservingAgain(c.ports, h.ports, worker.target, c.cluster, names, want);
    assert worker.hypervisors[c.hypervisor := h.(ports := h.ports)] == worker.hypervisors;
  }

  /** A name whose port is held gets that port, whatever else is requested. */
  lemma {:induction false} HeldNameKeepsPort(ports: map<string, int>, table: PortTable, id: ComponentId, cluster: string,
      names: seq<string>, n: string, port: int)
    requires n in names || n in ports
    requires HoldsFor(table, id, cluster, n, port) && (n in ports ==> ports[n] == port)
    ensures var r := RequestAll(ports, table, id, cluster, names); r.Ready? ==> n in r.ports && r.ports[n] == port
    decreases |names|
  {
    if names == [] {
    } else {
      var key := KeyOf(id, cluster, names[0]);
      RequestEffect(table, key);
      var r := RequestNamed(ports, table, key, names[0]);
      if r.Have? { HeldNameKeepsPort(r.ports, r.table, id, cluster, names[1..], n, port); }
    }
  }

  /** So a reservation of more names keeps the ports that are held already. */
  lemma {:induction false} ReserveMore(worker: Worker, names: seq<string>, more: seq<string>, want: map<string, int>)
    requires HoldsPorts(worker, names, want) && forall n :: n in names ==> n in more
    ensures var r := ReservedNames(worker, more); r.Some? ==> HasPorts(r.value, names, want)
  {
    var c := worker.components[worker.target];
    var table := worker.hypervisors[c.hypervisor].ports;
    var r := RequestAll(c.ports, table, worker.target, c.cluster, more);
    forall n | n in names ensures n in want && (r.Ready? ==> n in r.ports && r.ports[n] == want[n]) {
      HeldNameKeepsPort(c.ports, table, worker.target, c.cluster, more, n, want[n]);
    }
  }

  lemma {:induction false} PreReconcileReserves(s: State, v: nat, names: seq<string>, want: map<string, int>)
    requires v in s.workers && s.workers[v].round == Reserve && s.workers[v].stage == Local && HoldsPorts(s.workers[v], names, want)
    requires var c := s.workers[v].components[s.workers[v].target];
      c.role != UnknownRole && forall n :: n in names ==> n in PortNames(c.role, s.workers[v].vpn)
    ensures var s' := Apply(s, PreReconcile(v));
      && (v in s'.workers ==> HasPorts(s'.workers[v], names, want))
      && (names == PortNames(s.workers[v].components[s.workers[v].target].role, s.workers[v].vpn) ==>
            v in s'.workers && s'.workers[v].hypervisors == s.workers[v].hypervisors)
  {
    var more := PortNames(s.workers[v].components[s.workers[v].target].role, s.workers[v].vpn);
    ReserveMore(s.workers[v], names, more, want);
    if names == more { ReserveAgain(s.workers[v], names, want); }
  }

  lemma {:induction false} UndeletedBefore(a: Store, b: Store, id: ComponentId)
    requires Evolves(a, b) && id in a.used && id in b.components && !b.components[id].deleted
    ensures id in a.components && !a.components[id].deleted
    ensures b.components[id].role == a.components[id].role && b.components[id].cluster == a.components[id].cluster
    ensures a.components[id].hypervisor != "" ==> b.components[id].hypervisor == a.components[id].hypervisor
  {
    assert ComponentFollows(a.components[id], b, id);
  }

  /** What worker `w` reserved is still reserved when a later pass reads the hypervisors and then, later, finds the
      component undeleted. */
  lemma {:induction false} ReservedAtRead(a: Store, b: Store, c: Store, w: Worker, vpn: bool)
    requires StoreOk(a) && StoreOk(c) && Evolves(a, b) && Evolves(b, c) && Evolves(a, c)
    requires WorkerOk(a, w) && ReservationWritten(w) && w.components[w.target].role != UnknownRole && (vpn ==> w.vpn)
    requires w.target in c.components && !c.components[w.target].deleted
    ensures var o, want := c.components[w.target], w.components[w.target].ports;
      && o.role == w.components[w.target].role
      && o.hypervisor in b.hypervisors
      && forall n :: n in PortNames(o.role, vpn) ==>
           && n in want && Holds(b.hypervisors, o.hypervisor, KeyOf(w.target, o.cluster, n), want[n])
           && (n in o.ports ==> o.ports[n] == want[n])
  {
    var id, names, want := w.target, PortNames(w.components[w.target].role, w.vpn), w.components[w.target].ports;
    UndeletedBefore(a, c, id);
    WrittenIsReserved(a, w);
    assert ComponentLink(a, w.hypervisors, w.loadedComponents[id], w.components[id], id);
    var h := w.components[id].hypervisor;
    assert HypervisorLink(a, w.loadedHypervisors[h], w.hypervisors[h], h);
    assert names[0] in names;
    SameReservation(a, b, c, id, names, want);
    assert forall n :: n in PortNames(c.components[id].role, vpn) ==> n in names;
  }

  /** Reservation survives interruption. Worker `w` reserved ports and wrote the hypervisor; it may then write the
      component, conflict or stop. However the run goes on, when another pass lists the hypervisors, and later the components,
      and finds the component undeleted, and later still reserves, then it has the same port for every name both passes
      reserve. If it needs no other name, it is not refused and the tables it read are unchanged. */
  lemma {:induction false} ReservationSurvives(s: State, w: Worker, meanwhile: seq<Event>, s1: State,
      v: nat, between: seq<Event>, after: seq<Event>, names: seq<string>)
    requires Inv(s) && AllValid(s) && w in s.workers.Values && s1 == Execute(s, meanwhile)
    requires ReservationWritten(w) && w.components[w.target].role != UnknownRole
    requires v in s1.workers && s1.workers[v].round == Reserve && s1.workers[v].stage == ReadHypervisors
    requires s1.workers[v].target == w.target
    requires names == PortNames(w.components[w.target].role, w.vpn && s1.workers[v].vpn)
    requires forall e :: e in between + after ==> !IsStepOf(e, v)
    requires var st := ComponentsReadAt(s1, v, between); w.target in st.components && !st.components[w.target].deleted
    ensures var s2 := ReadBy(s1, v, between, after); var s3 := Apply(s2, PreReconcile(v));
      && v in s2.workers && (v in s3.workers ==> HasPorts(s3.workers[v], names, w.components[w.target].ports))
      && ((s1.workers[v].vpn ==> w.vpn) ==> v in s3.workers && s3.workers[v].hypervisors == s2.workers[v].hypervisors)
  {
    var a, b, c := s.store, s1.store, ComponentsReadAt(s1, v, between);
    StoresEvolve(s, meanwhile, v, between);
    EvolvesOn(a, b, c);
    assert WorkerOk(a, w);
    ReservedAtRead(a, b, c, w, w.vpn && s1.workers[v].vpn);
    WhatIsRead(s1, v, between, after);
    PreReconcileReserves(ReadBy(s1, v, between, after), v, names, w.components[w.target].ports);
  }
}
