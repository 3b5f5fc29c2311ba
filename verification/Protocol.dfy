/** The component controller and the scheduler as a transition system over a versioned object store.

    Objects are read and written one at a time; a write is accepted only if the stored object still has the version
    the writer read. Any number of workers run at once, each holding copies of what it read. Everything the
    environment decides (which worker moves, which call fails, what else changes) is in the events. */
module Protocol {
  import opened Options
  import opened Ports
  import opened Files
  import opened Components

  const CLEANUP_FINALIZER := "oneinfra/cleanup"

  datatype HypervisorObject = HypervisorObject(
    version: nat, public: bool, ipAddress: string, ports: PortTable, files: NamespacedClusterFileMap)

  /** `extra` stands for the rest of the status: certificates, endpoints and conditions. */
  datatype ComponentObject = ComponentObject(
    version: nat, role: Role, cluster: string, hypervisor: string, deleted: bool, finalizers: seq<string>,
    ports: map<string, int>, extra: string)

  /** `used` holds every component name ever created; `revision` is the version of the last write. */
  datatype Store = Store(
    hypervisors: map<string, HypervisorObject>,
    components: map<ComponentId, ComponentObject>,
    used: set<ComponentId>,
    revision: nat)

  /** A pass over a component first reserves its ports, then works on it (or on its deletion). */
  datatype Round = Reserve | Work

  datatype Stage = ReadHypervisors | ReadComponents | Local | WriteHypervisors | WriteComponents

  /** A worker of the component controller. `loaded…` is what was read, the other maps are the copies being changed;
      an object is dirty when the two differ. `reserved` tells that the pass went through the first round. */
  datatype Worker = Worker(
    target: ComponentId, vpn: bool, reserved: bool, round: Round, stage: Stage,
    loadedHypervisors: map<string, HypervisorObject>, hypervisors: map<string, HypervisorObject>,
    loadedComponents: map<ComponentId, ComponentObject>, components: map<ComponentId, ComponentObject>)

  /** A pass of the scheduler: the components it read without hypervisor, and then the hypervisors. */
  datatype Scheduler = Scheduler(
    unscheduled: map<ComponentId, ComponentObject>, hypervisors: Option<map<string, HypervisorObject>>)

  datatype State = State(store: Store, workers: map<nat, Worker>, schedulers: map<nat, Scheduler>)

  datatype Event =
    // Users and other controllers
    | AddHypervisor(hypervisor: string, public: bool, ipAddress: string, low: int, high: int)
    | TouchHypervisor(hypervisor: string)
    | CreateComponent(id: ComponentId, cluster: string, role: Role, finalizers: seq<string>)
    | TouchComponent(id: ComponentId, finalizers: seq<string>, extra: string)
    | DeleteComponent(id: ComponentId)
    // Scheduler passes
    | ListUnscheduled(scheduler: nat)
    | ListCandidates(scheduler: nat)
    | Assign(scheduler: nat, id: ComponentId, hypervisor: string)
    // Component controller passes
    | Begin(worker: nat, id: ComponentId, vpn: bool)
    | ListHypervisors(worker: nat)
    | ListComponents(worker: nat)
    | PreReconcile(worker: nat)
    | RequestPort(worker: nat, id: ComponentId, name: string)
    | FreePort(worker: nat, name: string)
    | ChangeFiles(worker: nat, hypervisor: string, files: NamespacedClusterFileMap)
    | ChangeExtra(worker: nat, id: ComponentId, extra: string)
    | SaveTarget(worker: nat)
    | SkipTarget(worker: nat)
    | WriteHypervisor(worker: nat, hypervisor: string)
    | WriteComponent(worker: nat, id: ComponentId)
    | Continue(worker: nat)
    | Stop(worker: nat)

  // ---------------------------------------------------------------------------------------------
  // Writes to the store

  function Bump(st: Store): nat {
    st.revision + 1
  }

  function PutHypervisor(st: Store, name: string, h: HypervisorObject): Store {
    st.(hypervisors := st.hypervisors[name := h.(version := Bump(st))], revision := Bump(st))
  }

  function PutComponent(st: Store, id: ComponentId, c: ComponentObject): Store {
    st.(components := st.components[id := c.(version := Bump(st))], used := st.used + {id}, revision := Bump(st))
  }

  function RemoveComponent(st: Store, id: ComponentId): Store {
    st.(components := st.components - {id}, revision := Bump(st))
  }

  /** A status write replaces the status only: the spec of the stored object stays. */
  function WithHypervisorStatus(stored: HypervisorObject, h: HypervisorObject): HypervisorObject {
    stored.(ports := stored.ports.(allocations := h.ports.allocations, freed := h.ports.freed), files := h.files)
  }

  function WithComponentStatus(stored: ComponentObject, c: ComponentObject): ComponentObject {
    stored.(ports := c.ports, extra := c.extra)
  }

  /** The admission webhook adds the cleanup finalizer to components that are not being deleted. */
  function Admit(finalizers: seq<string>): seq<string> {
    if CLEANUP_FINALIZER in finalizers then finalizers else finalizers + [CLEANUP_FINALIZER]
  }

  function RemoveFinalizer(finalizers: seq<string>): seq<string> {
    if finalizers == [] then []
    else if finalizers[0] == CLEANUP_FINALIZER then RemoveFinalizer(finalizers[1..])
    else [finalizers[0]] + RemoveFinalizer(finalizers[1..])
  }

  // ---------------------------------------------------------------------------------------------
  // Scheduling

  /** Control planes go to private hypervisors, ingresses to public ones; a component without known role is placed
      from whichever of the two lists was used before it. */
  predicate Eligible(role: Role, public: bool) {
    match role
    case ControlPlane => !public
    case ControlPlaneIngress => public
    case UnknownRole => true
  }

  function AssignTo(s: State, k: nat, id: ComponentId, h: string): State
    requires k in s.schedulers && id in s.schedulers[k].unscheduled
  {
    var c := s.schedulers[k].unscheduled[id];
    var s' := s.(schedulers := s.schedulers[k := s.schedulers[k].(unscheduled := s.schedulers[k].unscheduled - {id})]);
    if id in s.store.components && s.store.components[id].version == c.version then
      var stored := s.store.components[id];
      s'.(store := PutComponent(s.store, id, stored.(hypervisor := h,
        finalizers := if stored.deleted then c.finalizers else Admit(c.finalizers))))
    else s'
  }

  // ---------------------------------------------------------------------------------------------
  // Component controller

  function SetWorker(s: State, w: nat, worker: Worker): State {
    s.(workers := s.workers[w := worker])
  }

  function EndWorker(s: State, w: nat): State {
    s.(workers := s.workers - {w})
  }

  /** A conflict is retried from the listing in the first round; any other failed write ends the pass. */
  function Conflict(s: State, w: nat): State
    requires w in s.workers
  {
    if s.workers[w].round == Reserve then SetWorker(s, w, s.workers[w].(stage := ReadHypervisors)) else EndWorker(s, w)
  }

  /** The components of the cluster of the target. */
  function ClusterComponents(st: Store, target: ComponentId): map<ComponentId, ComponentObject>
    requires target in st.components
  {
    map id | id in st.components && id.namespace == target.namespace && st.components[id].cluster == st.components[target].cluster
      :: st.components[id]
  }

  /** Reserves ports of the target in memory. An unscheduled target, an unknown role or a refused port ends the pass;
      a target that had all its ports needs no write. */
  function ReservedNames(worker: Worker, names: seq<string>): Option<Worker>
    requires worker.target in worker.components
  {
    var c := worker.components[worker.target];
    if c.hypervisor !in worker.hypervisors || c.role == UnknownRole then None
    else
      var h := worker.hypervisors[c.hypervisor];
      match RequestAll(c.ports, h.ports, worker.target, c.cluster, names)
      case NotReady => None
      case Ready(ports, table) =>
        if ports == c.ports then Some(worker.(round := Work, stage := ReadHypervisors))
        else Some(worker.(
          stage := WriteHypervisors,
          hypervisors := worker.hypervisors[c.hypervisor := h.(ports := table)],
          components := worker.components[worker.target := c.(ports := ports)]))
  }

  function Reserved(worker: Worker): Option<Worker>
    requires worker.target in worker.components
  {
    ReservedNames(worker, PortNames(worker.components[worker.target].role, worker.vpn))
  }

  /** One port request of the work round, for any component of the cluster. A refused request changes nothing. */
  function RequestIn(worker: Worker, id: ComponentId, name: string): Worker
    requires id in worker.components && worker.components[id].hypervisor in worker.hypervisors
  {
    var c := worker.components[id];
    var h := worker.hypervisors[c.hypervisor];
    match RequestNamed(c.ports, h.ports, KeyOf(id, c.cluster, name), name)
    case Refused => worker
    case Have(_, ports, table) => worker.(
      hypervisors := worker.hypervisors[c.hypervisor := h.(ports := table)],
      components := worker.components[id := c.(ports := ports)])
  }

  /** One step of the deletion of the target. */
  function FreeIn(worker: Worker, name: string): Worker
    requires worker.target in worker.components && worker.components[worker.target].hypervisor in worker.hypervisors
  {
    var c := worker.components[worker.target];
    var h := worker.hypervisors[c.hypervisor];
    var (ports, table) := FreeNamed(c.ports, h.ports, KeyOf(worker.target, c.cluster, name), name);
    worker.(
      hypervisors := worker.hypervisors[c.hypervisor := h.(ports := table)],
      components := worker.components[worker.target := c.(ports := ports)])
  }

  /** After its own write the target counts as clean, whatever came of the write. */
  function Settle(worker: Worker): Worker {
    worker.(stage := WriteHypervisors,
            components := worker.components - {worker.target},
            loadedComponents := worker.loadedComponents - {worker.target})
  }

  predicate CanSave(worker: Worker) {
    && worker.round == Work && worker.stage == Local && worker.target in worker.components
    && worker.components.Keys == worker.loadedComponents.Keys
  }

  /** The write of the target at the end of its own reconciliation: its status if that changed, or, when it is being
      deleted, its metadata without the cleanup finalizer; without finalizers left the object disappears. */
  function SavedTarget(st: Store, worker: Worker): Store
    requires CanSave(worker)
  {
    var id, c := worker.target, worker.components[worker.target];
    if id !in st.components || st.components[id].version != c.version then st
    else if !c.deleted then
      if c == worker.loadedComponents[id] then st else PutComponent(st, id, WithComponentStatus(st.components[id], c))
    else
      var finalizers := RemoveFinalizer(c.finalizers);
      if finalizers == [] then RemoveComponent(st, id)
      else PutComponent(st, id, st.components[id].(finalizers := finalizers))
  }

  predicate DirtyHypervisor(worker: Worker, h: string) {
    h in worker.hypervisors && h in worker.loadedHypervisors && worker.hypervisors[h] != worker.loadedHypervisors[h]
  }

  predicate DirtyComponent(worker: Worker, id: ComponentId) {
    id in worker.components && id in worker.loadedComponents && worker.components[id] != worker.loadedComponents[id]
  }

  function WroteHypervisor(s: State, w: nat, h: string): State
    requires w in s.workers && DirtyHypervisor(s.workers[w], h)
  {
    var worker := s.workers[w];
    if h !in s.store.hypervisors || s.store.hypervisors[h].version != worker.hypervisors[h].version then Conflict(s, w)
    else
      var store := PutHypervisor(s.store, h, WithHypervisorStatus(s.store.hypervisors[h], worker.hypervisors[h]));
      SetWorker(s.(store := store), w, worker.(
        loadedHypervisors := worker.loadedHypervisors[h := store.hypervisors[h]],
        hypervisors := worker.hypervisors[h := store.hypervisors[h]]))
  }

  function WroteComponent(s: State, w: nat, id: ComponentId): State
    requires w in s.workers && DirtyComponent(s.workers[w], id)
  {
    var worker := s.workers[w];
    if id !in s.store.components then EndWorker(s, w)
    else if s.store.components[id].version != worker.components[id].version then Conflict(s, w)
    else
      var store := PutComponent(s.store, id, WithComponentStatus(s.store.components[id], worker.components[id]));
      SetWorker(s.(store := store), w, worker.(
        loadedComponents := worker.loadedComponents[id := store.components[id]],
        components := worker.components[id := store.components[id]]))
  }

  /** Hypervisors are written before components; a pass goes on only when nothing dirty is left. */
  function Continued(s: State, w: nat): State
    requires w in s.workers
  {
    var worker := s.workers[w];
    if worker.stage == WriteHypervisors && worker.hypervisors == worker.loadedHypervisors then
      SetWorker(s, w, worker.(stage := WriteComponents))
    else if worker.stage == WriteComponents && worker.components == worker.loadedComponents then
      if worker.round == Reserve then SetWorker(s, w, worker.(round := Work, stage := ReadHypervisors)) else EndWorker(s, w)
    else s
  }

  /** A port request is possible for a component of the snapshot, by one of the port names of its role. */
  predicate CanRequest(worker: Worker, id: ComponentId, name: string) {
    && worker.round == Work && worker.stage == Local
    && id in worker.components && worker.components[id].hypervisor in worker.hypervisors
    && name in PortNames(worker.components[id].role, worker.vpn)
  }

  /** Only the target is ever freed, and only while it is being deleted. */
  predicate CanFree(worker: Worker, name: string) {
    CanRequest(worker, worker.target, name) && worker.components[worker.target].deleted
  }

  // ---------------------------------------------------------------------------------------------
  // The transition system. An event that cannot happen in a state leaves it unchanged.

  /** Changes made by users and by the controllers that create and delete components. */
  function Outside(st: Store, e: Event): Store {
    match e
    case AddHypervisor(h, public, ipAddress, low, high) =>
      if h == "" || h in st.hypervisors then st
      else PutHypervisor(st, h, HypervisorObject(0, public, ipAddress, Empty(low, high), map[]))
    case TouchHypervisor(h) =>
      if h in st.hypervisors then PutHypervisor(st, h, st.hypervisors[h]) else st
    case CreateComponent(id, cluster, role, finalizers) =>
      if id in st.used then st
      else PutComponent(st, id, ComponentObject(0, role, cluster, "", false, Admit(finalizers), map[], ""))
    case TouchComponent(id, finalizers, extra) =>
      if id !in st.components then st
      else
        var c := st.components[id];
        if c.deleted && finalizers == [] then RemoveComponent(st, id)
        else PutComponent(st, id, c.(finalizers := if c.deleted then finalizers else Admit(finalizers), extra := extra))
    case DeleteComponent(id) =>
      if id !in st.components then st
      else if st.components[id].finalizers == [] then RemoveComponent(st, id)
      else PutComponent(st, id, st.components[id].(deleted := true))
    case _ => st
  }

  function Scheduling(s: State, e: Event): State {
    match e
    case ListUnscheduled(k) =>
      var unscheduled := map id | id in s.store.components && s.store.components[id].hypervisor == "" :: s.store.components[id];
      s.(schedulers := s.schedulers[k := Scheduler(unscheduled, None)])
    case ListCandidates(k) =>
      if k in s.schedulers then s.(schedulers := s.schedulers[k := s.schedulers[k].(hypervisors := Some(s.store.hypervisors))]) else s
    case Assign(k, id, h) =>
      if && k in s.schedulers && id in s.schedulers[k].unscheduled && s.schedulers[k].hypervisors.Some?
         && h in s.schedulers[k].hypervisors.value
         && Eligible(s.schedulers[k].unscheduled[id].role, s.schedulers[k].hypervisors.value[h].public)
      then AssignTo(s, k, id, h) else s
    case _ => s
  }

  /** The reads of a pass: the target, then the hypervisors, then the components of its cluster. A target that is gone
      ends the pass. */
  function Reading(s: State, e: Event): State {
    match e
    case Begin(w, id, vpn) =>
      if w in s.workers || id !in s.store.components then s
      else
        var deleted := s.store.components[id].deleted;
        SetWorker(s, w, Worker(id, vpn, !deleted, if deleted then Work else Reserve, ReadHypervisors, map[], map[], map[], map[]))
    case ListHypervisors(w) =>
      if w in s.workers && s.workers[w].stage == ReadHypervisors then
        SetWorker(s, w, s.workers[w].(stage := ReadComponents,
          loadedHypervisors := s.store.hypervisors, hypervisors := s.store.hypervisors,
          loadedComponents := map[], components := map[]))
      else s
    case ListComponents(w) =>
      if w in s.workers && s.workers[w].stage == ReadComponents then
        if s.workers[w].target !in s.store.components then EndWorker(s, w)
        else
          var components := ClusterComponents(s.store, s.workers[w].target);
          SetWorker(s, w, s.workers[w].(stage := Local, loadedComponents := components, components := components))
      else s
    case _ => s
  }

  /** The changes a pass makes to its own copies. */
  function Computing(s: State, e: Event): State {
    match e
    case PreReconcile(w) =>
      if && w in s.workers && s.workers[w].round == Reserve && s.workers[w].stage == Local
         && s.workers[w].target in s.workers[w].components
      then (match Reserved(s.workers[w]) case None => EndWorker(s, w) case Some(worker) => SetWorker(s, w, worker))
      else s
    case RequestPort(w, id, name) =>
      if w in s.workers && CanRequest(s.workers[w], id, name) then SetWorker(s, w, RequestIn(s.workers[w], id, name)) else s
    case FreePort(w, name) =>
      if w in s.workers && CanFree(s.workers[w], name) then SetWorker(s, w, FreeIn(s.workers[w], name)) else s
    case ChangeFiles(w, h, files) =>
      if && w in s.workers && s.workers[w].round == Work && s.workers[w].stage == Local && h in s.workers[w].hypervisors
      then SetWorker(s, w, s.workers[w].(hypervisors := s.workers[w].hypervisors[h := s.workers[w].hypervisors[h].(files := files)]))
      else s
    case ChangeExtra(w, id, extra) =>
      if && w in s.workers && s.workers[w].round == Work && s.workers[w].stage == Local && id in s.workers[w].components
      then SetWorker(s, w, s.workers[w].(components := s.workers[w].components[id := s.workers[w].components[id].(extra := extra)]))
      else s
    case _ => s
  }

  /** The writes of a pass. */
  function Writing(s: State, e: Event): State {
    match e
    case SaveTarget(w) =>
      if w in s.workers && CanSave(s.workers[w])
      then SetWorker(s.(store := SavedTarget(s.store, s.workers[w])), w, Settle(s.workers[w])) else s
    case SkipTarget(w) =>
      if w in s.workers && CanSave(s.workers[w]) then SetWorker(s, w, Settle(s.workers[w])) else s
    case WriteHypervisor(w, h) =>
      if w in s.workers && s.workers[w].stage == WriteHypervisors && DirtyHypervisor(s.workers[w], h)
      then WroteHypervisor(s, w, h) else s
    case WriteComponent(w, id) =>
      if w in s.workers && s.workers[w].stage == WriteComponents && DirtyComponent(s.workers[w], id)
      then WroteComponent(s, w, id) else s
    case Continue(w) => if w in s.workers then Continued(s, w) else s
    case Stop(w) => EndWorker(s, w)
    case _ => s
  }

  predicate IsOutside(e: Event) {
    e.AddHypervisor? || e.TouchHypervisor? || e.CreateComponent? || e.TouchComponent? || e.DeleteComponent?
  }

  predicate IsScheduling(e: Event) {
    e.ListUnscheduled? || e.ListCandidates? || e.Assign?
  }

  predicate IsReading(e: Event) {
    e.Begin? || e.ListHypervisors? || e.ListComponents?
  }

  predicate IsComputing(e: Event) {
    e.PreReconcile? || e.RequestPort? || e.FreePort? || e.ChangeFiles? || e.ChangeExtra?
  }

  function Apply(s: State, e: Event): State {
    if IsOutside(e) then s.(store := Outside(s.store, e))
    else if IsScheduling(e) then Scheduling(s, e)
    else if IsReading(e) then Reading(s, e)
    else if IsComputing(e) then Computing(s, e)
    else Writing(s, e)
  }

  const INITIAL := State(Store(map[], map[], {}, 0), map[], map[])

  function Execute(s: State, events: seq<Event>): State {
    if events == [] then s else Apply(Execute(s, events[..|events| - 1]), events[|events| - 1])
  }
}
