/** What single steps do to the store and to the copies, and what no step does. */
module ProtocolEffects {
  import opened Options
  import opened Ports
  import Files
  import opened Components
  import opened Protocol
  import opened ProtocolInvariant
  import opened ProtocolSafety
  import opened ProtocolTheorems

  // ---------------------------------------------------------------------------------------------
  // Finalizers

  lemma {:induction false} RemovedFinalizers(finalizers: seq<string>)
    ensures forall f :: f in RemoveFinalizer(finalizers) <==> f in finalizers && f != CLEANUP_FINALIZER
  {
    if finalizers == [] {
    } else {
      RemovedFinalizers(finalizers[1..]);
    }
  }

  /** The others stay in their order: lists of finalizers can be taken apart anywhere. */
  lemma {:induction false} RemovedInOrder(a: seq<string>, b: seq<string>)
    ensures RemoveFinalizer(a + b) == RemoveFinalizer(a) + RemoveFinalizer(b)
    ensures forall f :: f != CLEANUP_FINALIZER ==> RemoveFinalizer([f]) == [f]
  {
    if a == [] {
      assert a + b == b;
    } else {
      assert (a + b)[1..] == a[1..] + b;
      RemovedInOrder(a[1..], b);
    }
  }

  lemma {:induction false} AdmitProtects(finalizers: seq<string>)
    ensures forall f :: f in Admit(finalizers) <==> f in finalizers || f == CLEANUP_FINALIZER
  {
  }

  ghost predicate OnlyOthers(before: seq<string>, after: seq<string>) {
    forall f :: f in after <==> f in before && f != CLEANUP_FINALIZER
  }

  // ---------------------------------------------------------------------------------------------
  // Writes of a pass

  /** The stored component has the version the copy was read at. */
  predicate IsCurrent(st: Store, id: ComponentId, c: ComponentObject) {
    id in st.components && st.components[id].version == c.version
  }

  predicate OthersSame(st: Store, st': Store, id: ComponentId) {
    st'.components - {id} == st.components - {id} && st'.hypervisors == st.hypervisors
  }

  /** The write that ends a deletion takes the cleanup finalizer away and no other, and with the last finalizer the component
      goes; nothing else of it changes, and no other object. */
  lemma {:induction false} SaveEndsDeletion(s: State, k: nat)
    requires k in s.workers && CanSave(s.workers[k])
    requires var w := s.workers[k]; w.components[w.target].deleted && IsCurrent(s.store, w.target, w.components[w.target])
    ensures var w, st' := s.workers[k], Apply(s, SaveTarget(k)).store; var id := w.target; var c := w.components[id];
      && OthersSame(s.store, st', id)
      && (id in st'.components <==> exists f :: f in c.finalizers && f != CLEANUP_FINALIZER)
      && (id in st'.components ==>
            var c' := st'.components[id];
            && OnlyOthers(c.finalizers, c'.finalizers) && c'.version > s.store.revision
            && c' == s.store.components[id].(finalizers := c'.finalizers, version := c'.version))
  {
    var c := s.workers[k].components[s.workers[k].target];
    RemovedFinalizers(c.finalizers);
    if RemoveFinalizer(c.finalizers) != [] {
      assert RemoveFinalizer(c.finalizers)[0] in RemoveFinalizer(c.finalizers);
    }
  }

  /** The write that ends any other reconciliation stores the ports and the rest of the status, and nothing else. */
  lemma {:induction false} SaveStoresStatus(s: State, k: nat)
    requires k in s.workers && CanSave(s.workers[k])
    requires var w := s.workers[k]; !w.components[w.target].deleted && IsCurrent(s.store, w.target, w.components[w.target])
    ensures var w, st' := s.workers[k], Apply(s, SaveTarget(k)).store; var id := w.target; var c := w.components[id];
      && OthersSame(s.store, st', id) && id in st'.components
      && (c == w.loadedComponents[id] ==> st' == s.store)
      && (c != w.loadedComponents[id] ==>
            var c' := st'.components[id];
            && c'.ports == c.ports && c'.extra == c.extra && c'.version > s.store.revision
            && c' == s.store.components[id].(ports := c'.ports, extra := c'.extra, version := c'.version))
  {
  }

  /** A component written by someone else since, or gone, is left alone; the pass goes on either way. */
  lemma {:induction false} StaleSaveIsLost(s: State, k: nat)
    requires k in s.workers && CanSave(s.workers[k])
    ensures var w, s' := s.workers[k], Apply(s, SaveTarget(k));
      && (!IsCurrent(s.store, w.target, w.components[w.target]) ==> s'.store == s.store)
      && k in s'.workers && s'.workers[k].stage == WriteHypervisors && w.target !in s'.workers[k].components
      && (forall id :: id != w.target ==> DirtyComponent(s'.workers[k], id) == DirtyComponent(w, id))
      && s'.workers[k].hypervisors == w.hypervisors && s'.workers[k].loadedHypervisors == w.loadedHypervisors
  {
  }

  /** A hypervisor is written exactly if nobody wrote it since it was read: the allocations, the freed ports and the file
      record are then those of the copy, which is clean, and nothing else changes. */
  lemma {:induction false} WriteStoresHypervisor(s: State, k: nat, h: string)
    requires k in s.workers && s.workers[k].stage == WriteHypervisors && DirtyHypervisor(s.workers[k], h)
    ensures var w, s' := s.workers[k], Apply(s, WriteHypervisor(k, h)); var y := w.hypervisors[h];
      if h in s.store.hypervisors && s.store.hypervisors[h].version == y.version then
        && h in s'.store.hypervisors && k in s'.workers
        && var x, z := s.store.hypervisors[h], s'.store.hypervisors[h];
        && z.ports.allocations == y.ports.allocations && z.ports.freed == y.ports.freed && z.files == y.files
        && SameSpec(x, z) && z.version > s.store.revision
        && s'.store.components == s.store.components && s'.store.hypervisors - {h} == s.store.hypervisors - {h}
        && !DirtyHypervisor(s'.workers[k], h) && s'.workers[k].hypervisors[h] == z && s'.workers[k].stage == w.stage
        && (forall g :: g != h ==> DirtyHypervisor(s'.workers[k], g) == DirtyHypervisor(w, g))
      else s'.store == s.store
  {
  }

  /** The same for a component: its ports and the rest of its status are written, nothing else. */
  lemma {:induction false} WriteStoresComponent(s: State, k: nat, id: ComponentId)
    requires k in s.workers && s.workers[k].stage == WriteComponents && DirtyComponent(s.workers[k], id)
    ensures var w, s' := s.workers[k], Apply(s, WriteComponent(k, id)); var c := w.components[id];
      if IsCurrent(s.store, id, c) then
        && OthersSame(s.store, s'.store, id) && id in s'.store.components && k in s'.workers
        && var c' := s'.store.components[id];
        && c'.ports == c.ports && c'.extra == c.extra && c'.version > s.store.revision
        && c' == s.store.components[id].(ports := c'.ports, extra := c'.extra, version := c'.version)
        && !DirtyComponent(s'.workers[k], id) && s'.workers[k].components[id] == c' && s'.workers[k].stage == w.stage
        && (forall i :: i != id ==> DirtyComponent(s'.workers[k], i) == DirtyComponent(w, i))
      else s'.store == s.store
  {
  }

  /** In the second round a pass can change the file record of any hypervisor, and the rest of the status of any component, of
      its copies. */
  lemma {:induction false} ChangesAreMade(s: State, k: nat, h: string, files: Files.NamespacedClusterFileMap, id: ComponentId, extra: string)
    requires k in s.workers && s.workers[k].round == Work && s.workers[k].stage == Local
    requires h in s.workers[k].hypervisors && id in s.workers[k].components
    ensures var w, s' := s.workers[k], Apply(Apply(s, ChangeFiles(k, h, files)), ChangeExtra(k, id, extra));
      && s'.store == s.store && k in s'.workers
      && s'.workers[k] == w.(hypervisors := w.hypervisors[h := w.hypervisors[h].(files := files)],
                             components := w.components[id := w.components[id].(extra := extra)])
  {
  }

  /** Exactly the objects that differ from what was read are dirty, so a pass with nothing dirty goes on. */
  lemma {:induction false} NothingDirty(w: Worker)
    requires w.hypervisors.Keys == w.loadedHypervisors.Keys && w.components.Keys == w.loadedComponents.Keys
    ensures w.hypervisors == w.loadedHypervisors <==> forall h :: !DirtyHypervisor(w, h)
    ensures w.components == w.loadedComponents <==> forall id :: !DirtyComponent(w, id)
  {
    if forall h :: !DirtyHypervisor(w, h) {
      forall h | h in w.hypervisors ensures w.hypervisors[h] == w.loadedHypervisors[h] { assert !DirtyHypervisor(w, h); }
    }
    if forall id :: !DirtyComponent(w, id) {
      forall id | id in w.components ensures w.components[id] == w.loadedComponents[id] { assert !DirtyComponent(w, id); }
    }
  }

  /** The worker is where it was before it reserved, with what is stored. */
  predicate HasReadAgain(st: Store, w: Worker, w': Worker) {
    && w'.target == w.target && w'.vpn == w.vpn && w'.round == Reserve && w'.stage == Local
    && w'.hypervisors == w'.loadedHypervisors == st.hypervisors && w'.components == w'.loadedComponents
    && w.target in st.components && w.target in w'.components && w'.components[w.target] == st.components[w.target]
  }

  lemma {:induction false} ReadsAgain(s: State, k: nat)
    requires k in s.workers && s.workers[k].round == Reserve && s.workers[k].stage == ReadHypervisors
    requires s.workers[k].target in s.store.components
    ensures var s' := Apply(Apply(s, ListHypervisors(k)), ListComponents(k));
      s'.store == s.store && k in s'.workers && HasReadAgain(s.store, s.workers[k], s'.workers[k])
  {
    var s1 := Apply(s, ListHypervisors(k));
    assert s1.store == s.store && s1.workers[k].stage == ReadComponents;
  }

  lemma {:induction false} NobodyReads(s: State, k: nat)
    requires k !in s.workers
    ensures Apply(Apply(s, ListHypervisors(k)), ListComponents(k)) == s
  {
  }

  lemma {:induction false} ConflictOf(s: State, k: nat, h: string)
    requires k in s.workers && s.workers[k].stage == WriteHypervisors && DirtyHypervisor(s.workers[k], h)
    requires h in s.store.hypervisors && s.store.hypervisors[h].version != s.workers[k].hypervisors[h].version
    ensures var w, s1 := s.workers[k], Apply(s, WriteHypervisor(k, h));
      && s1.store == s.store && (w.round == Work ==> k !in s1.workers)
      && (w.round == Reserve ==> k in s1.workers && s1.workers[k] == w.(stage := ReadHypervisors))
  {
  }

  /** A conflict in the first round is retried: the pass reads everything again and is where it was before it reserved. In
      the second round it ends. */
  lemma {:induction false} ConflictReadsAgain(s: State, k: nat, h: string)
    requires k in s.workers && s.workers[k].stage == WriteHypervisors && DirtyHypervisor(s.workers[k], h)
    requires h in s.store.hypervisors && s.store.hypervisors[h].version != s.workers[k].hypervisors[h].version
    requires s.workers[k].target in s.store.components
    ensures var w := s.workers[k];
      var s' := Apply(Apply(Apply(s, WriteHypervisor(k, h)), ListHypervisors(k)), ListComponents(k));
      && s'.store == s.store && (w.round == Work ==> k !in s'.workers)
      && (w.round == Reserve ==> k in s'.workers && HasReadAgain(s.store, w, s'.workers[k]))
  {
    var s1 := Apply(s, WriteHypervisor(k, h));
    ConflictOf(s, k, h);
    if s.workers[k].round == Reserve { ReadsAgain(s1, k); } else { NobodyReads(s1, k); }
  }

  // ---------------------------------------------------------------------------------------------
  // Users and the beginning of a pass

  /** A new component is unscheduled, without ports and protected from the start; a name used before is refused. */
  lemma {:induction false} CreatedIsNew(s: State, id: ComponentId, cluster: string, role: Role, finalizers: seq<string>)
    ensures var st' := Apply(s, CreateComponent(id, cluster, role, finalizers)).store;
      && (id in s.store.used ==> st' == s.store)
      && (id !in s.store.used ==>
            && OthersSame(s.store, st', id) && id in st'.components && id in st'.used
            && var c := st'.components[id];
            && c.role == role && c.cluster == cluster && c.hypervisor == "" && c.ports == map[] && !c.deleted
            && forall f :: f in c.finalizers <==> f in finalizers || f == CLEANUP_FINALIZER)
  {
    AdmitProtects(finalizers);
  }

  /** Deleting marks a component that has finalizers, and changes nothing else of it. */
  lemma {:induction false} DeleteMarks(s: State, id: ComponentId)
    requires id in s.store.components && s.store.components[id].finalizers != []
    ensures var st' := Apply(s, DeleteComponent(id)).store;
      && OthersSame(s.store, st', id) && id in st'.components
      && var c' := st'.components[id]; c'.deleted && c' == s.store.components[id].(deleted := true, version := c'.version)
  {
  }

  /** Changing metadata keeps the status but for what is given, and takes no finalizer of an undeleted component away but what
      is left out; the last finalizer of a deleted one takes the component with it. */
  lemma {:induction false} TouchStores(s: State, id: ComponentId, finalizers: seq<string>, extra: string)
    requires id in s.store.components
    ensures var c, st' := s.store.components[id], Apply(s, TouchComponent(id, finalizers, extra)).store;
      && OthersSame(s.store, st', id) && (id in st'.components <==> !c.deleted || finalizers != [])
      && (id in st'.components ==>
            var c' := st'.components[id];
            && c' == c.(finalizers := c'.finalizers, extra := extra, version := c'.version)
            && forall f :: f in c'.finalizers <==> f in finalizers || (!c.deleted && f == CLEANUP_FINALIZER))
  {
    AdmitProtects(finalizers);
  }

  /** A new hypervisor has what was given, all its ports free, and no record of files. */
  lemma {:induction false} AddedIsEmpty(s: State, h: string, public: bool, ipAddress: string, low: int, high: int)
    requires h != "" && h !in s.store.hypervisors
    ensures var st' := Apply(s, AddHypervisor(h, public, ipAddress, low, high)).store;
      && st'.components == s.store.components && st'.hypervisors - {h} == s.store.hypervisors - {h} && h in st'.hypervisors
      && var y := st'.hypervisors[h];
      && y.public == public && y.ipAddress == ipAddress && y.files == map[]
      && y.ports.low == low && y.ports.high == high && y.ports.allocations == [] && y.ports.freed == []
  {
  }

  /** A pass over a component begins with the cluster's VPN setting: an undeleted one is to reserve its ports first. Two passes
      of one worker do not overlap. */
  lemma {:induction false} BeginStarts(s: State, k: nat, id: ComponentId, vpn: bool)
    ensures var s' := Apply(s, Begin(k, id, vpn));
      && s'.store == s.store
      && (k in s.workers || id !in s.store.components ==> s' == s)
      && (k !in s.workers && id in s.store.components ==>
            && k in s'.workers && s'.workers[k].target == id && s'.workers[k].vpn == vpn && s'.workers[k].stage == ReadHypervisors
            && (s'.workers[k].round == Reserve <==> !s.store.components[id].deleted))
  {
  }

  /** The scheduler reads exactly the components without hypervisor, and then all hypervisors. */
  lemma {:induction false} SchedulerReads(s: State, k: nat)
    ensures var s' := Apply(Apply(s, ListUnscheduled(k)), ListCandidates(k));
      && s'.store == s.store && k in s'.schedulers && s'.schedulers[k].hypervisors == Some(s.store.hypervisors)
      && (forall id :: id in s'.schedulers[k].unscheduled <==> id in s.store.components && s.store.components[id].hypervisor == "")
      && (forall id :: id in s'.schedulers[k].unscheduled ==> s'.schedulers[k].unscheduled[id] == s.store.components[id])
  {
  }

  /** A pass reads every component of the namespace and the cluster of its target, as it is. */
  lemma {:induction false} PassReads(s: State, k: nat)
    requires k in s.workers && s.workers[k].stage == ReadComponents && s.workers[k].target in s.store.components
    ensures var w, w' := s.workers[k], Apply(s, ListComponents(k)).workers[k];
      && w'.components == w'.loadedComponents && w'.stage == Local
      && (forall id :: id in w'.components ==> id in s.store.components && w'.components[id] == s.store.components[id])
      && (forall id :: id in s.store.components ==>
            (id in w'.components <==>
              id.namespace == w.target.namespace && s.store.components[id].cluster == s.store.components[w.target].cluster))
  {
  }

  // ---------------------------------------------------------------------------------------------
  // The reservation of a role's ports

  /** A reservation changes the ports of the target and the table of its hypervisor only. With nothing to add the pass goes on
      to the second round; otherwise it is to write both. */
  predicate OnlyReserved(w: Worker, w': Worker) {
    && w.target in w.components && w.target in w'.components
    && var c, c' := w.components[w.target], w'.components[w.target];
    && c' == c.(ports := c'.ports) && w'.components - {w.target} == w.components - {w.target}
    && c.hypervisor in w.hypervisors && c.hypervisor in w'.hypervisors
    && var h' := w'.hypervisors[c.hypervisor];
    && h' == w.hypervisors[c.hypervisor].(ports := h'.ports) && w'.hypervisors - {c.hypervisor} == w.hypervisors - {c.hypervisor}
    && (c'.ports == c.ports ==> w'.round == Work && w'.stage == ReadHypervisors)
    && (c'.ports != c.ports ==> w'.round == w.round && w'.stage == WriteHypervisors)
  }

  lemma {:induction false} ReservedOnly(w: Worker, names: seq<string>)
    requires w.target in w.components && ReservedNames(w, names).Some?
    ensures OnlyReserved(w, ReservedNames(w, names).value)
  {
    var c := w.components[w.target];
    var w' := ReservedNames(w, names).value;
    ButOne(w.components, w.target, w'.components[w.target]);
    ButOne(w.hypervisors, c.hypervisor, w'.hypervisors[c.hypervisor]);
  }

  lemma {:induction false} ReservedRecords(w: Worker)
    requires w.target in w.components
    ensures var c, r := w.components[w.target], Reserved(w);
      r.Some? ==>
        && w.target in r.value.components && OnlyReserved(w, r.value)
        && RecordsRole(c.ports.Keys, r.value.components[w.target].ports.Keys, c.role, w.vpn)
  {
    var c := w.components[w.target];
    if Reserved(w).Some? {
      ReservedOnly(w, PortNames(c.role, w.vpn));
      RoleIsRecorded(c.ports, w.hypervisors[c.hypervisor].ports, w.target, c.cluster, c.role, w.vpn);
    }
  }

  lemma {:induction false} ReservedExactly(w: Worker)
    requires w.target in w.components && TablesValid(w.hypervisors)
    ensures var c := w.components[w.target];
      Reserved(w).Some? <==>
        && c.role != UnknownRole && c.hypervisor in w.hypervisors
        && var t := w.hypervisors[c.hypervisor].ports;
           |t.allocations| + Needed(c.ports, t, w.target, c.cluster, PortNames(c.role, w.vpn)) <= Capacity(t)
  {
    var c := w.components[w.target];
    if c.hypervisor in w.hypervisors {
      ReadyExactly(c.ports, w.hypervisors[c.hypervisor].ports, w.target, c.cluster, PortNames(c.role, w.vpn));
    }
  }

  /** One of the four ports, and whether a component of this role uses it. */
  predicate Uses(role: Role, vpn: bool, name: string) {
    match role
    case ControlPlane => name == API_SERVER || name == ETCD_PEER || name == ETCD_CLIENT
    case ControlPlaneIngress => name == API_SERVER || (vpn && name == WIREGUARD)
    case UnknownRole => false
  }

  lemma {:induction false} UsesNames(role: Role, vpn: bool, name: string)
    ensures Uses(role, vpn, name) <==> name in PortNames(role, vpn)
  {
  }

  /** What a request in the copies comes to. */
  ghost predicate Requested(w: Worker, w': Worker, id: ComponentId, name: string)
    requires id in w.components && w.components[id].hypervisor in w.hypervisors
  {
    var c := w.components[id];
    var t, key := w.hypervisors[c.hypervisor].ports, KeyOf(id, c.cluster, name);
    && id in w'.components
    && var ports := w'.components[id].ports;
    && (name !in ports <==> name !in c.ports && key !in Held(t) && |t.allocations| == Capacity(t))
    && (name in c.ports ==> ports == c.ports) && ports - {name} == c.ports - {name}
    && (name in ports && name !in c.ports ==> Holds(w'.hypervisors, c.hypervisor, key, ports[name]))
  }

  lemma {:induction false} RequestInRecords(w: Worker, id: ComponentId, name: string)
    requires id in w.components && w.components[id].hypervisor in w.hypervisors && Valid(w.hypervisors[w.components[id].hypervisor].ports)
    ensures Requested(w, RequestIn(w, id, name), id, name)
  {
    var c := w.components[id];
    var t, key := w.hypervisors[c.hypervisor].ports, KeyOf(id, c.cluster, name);
    RequestKeepsValid(t, key);
    RequestEffect(t, key);
    if Request(t, key).Granted? { ButOne(c.ports, name, Request(t, key).port); }
  }

  /** In the second round a pass can request any port its role uses for any placed component of the cluster. It is recorded
      then, unless the component has none and all ports of the hypervisor are taken. */
  lemma {:induction false} RequestRecords(s: State, k: nat, id: ComponentId, name: string)
    requires AllValid(s) && k in s.workers && s.workers[k].round == Work && s.workers[k].stage == Local
    requires var w := s.workers[k];
      id in w.components && w.components[id].hypervisor in w.hypervisors && Uses(w.components[id].role, w.vpn, name)
    ensures var s' := Apply(s, RequestPort(k, id, name));
      s'.store == s.store && k in s'.workers && Requested(s.workers[k], s'.workers[k], id, name)
  {
    UsesNames(s.workers[k].components[id].role, s.workers[k].vpn, name);
    RequestInRecords(s.workers[k], id, name);
  }

  /** What freeing a port of the target comes to. */
  ghost predicate Forgotten(w: Worker, w': Worker, name: string)
    requires w.target in w.components && w.components[w.target].hypervisor in w.hypervisors
  {
    var c := w.components[w.target];
    && w.target in w'.components && c.hypervisor in w'.hypervisors && w'.components[w.target].ports == c.ports - {name}
    && var x, y := w.hypervisors[c.hypervisor].ports, w'.hypervisors[c.hypervisor].ports;
       Held(y) == if name in c.ports then Held(x) - {KeyOf(w.target, c.cluster, name)} else Held(x)
  }

  lemma {:induction false} FreeInReleases(w: Worker, name: string)
    requires w.target in w.components && w.components[w.target].hypervisor in w.hypervisors
    requires Valid(w.hypervisors[w.components[w.target].hypervisor].ports)
    ensures Forgotten(w, FreeIn(w, name), name)
  {
    var c := w.components[w.target];
    FreeInUnfolds(w, name);
    FreeKeepsValid(w.hypervisors[c.hypervisor].ports, KeyOf(w.target, c.cluster, name));
    assert name !in c.ports ==> c.ports - {name} == c.ports;
  }

  /** A pass frees a port its role uses exactly for a target that is being deleted: then it is not recorded any more, and the
      table forgets its key if it was. */
  lemma {:induction false} FreeReleases(s: State, k: nat, name: string)
    requires AllValid(s) && k in s.workers && s.workers[k].round == Work && s.workers[k].stage == Local
    requires var w := s.workers[k]; w.target in w.components && w.components[w.target].hypervisor in w.hypervisors
    requires Uses(s.workers[k].components[s.workers[k].target].role, s.workers[k].vpn, name)
    ensures var w, s' := s.workers[k], Apply(s, FreePort(k, name));
      && s'.store == s.store && (!w.components[w.target].deleted ==> s' == s)
      && (w.components[w.target].deleted ==> k in s'.workers && Forgotten(w, s'.workers[k], name))
  {
    UsesNames(s.workers[k].components[s.workers[k].target].role, s.workers[k].vpn, name);
    FreeInReleases(s.workers[k], name);
  }

  /** The reservation step goes on exactly when the target is placed, of a known role, and its hypervisor has a port for each
      one it needs. Then the copy records exactly the ports of its role, besides those it had. */
  lemma {:induction false} PreReconcileRecords(s: State, k: nat)
    requires AllValid(s) && k in s.workers && s.workers[k].round == Reserve && s.workers[k].stage == Local
    requires s.workers[k].target in s.workers[k].components
    ensures var w, s' := s.workers[k], Apply(s, PreReconcile(k)); var c := w.components[w.target];
      && (k in s'.workers <==>
            && c.role != UnknownRole && c.hypervisor in w.hypervisors
            && var t := w.hypervisors[c.hypervisor].ports;
               |t.allocations| + Needed(c.ports, t, w.target, c.cluster, PortNames(c.role, w.vpn)) <= Capacity(t))
      && (k in s'.workers ==>
            && w.target in s'.workers[k].components && OnlyReserved(w, s'.workers[k])
            && RecordsRole(c.ports.Keys, s'.workers[k].components[w.target].ports.Keys, c.role, w.vpn))
  {
    ReservedRecords(s.workers[k]);
    ReservedExactly(s.workers[k]);
  }

  // ---------------------------------------------------------------------------------------------
  // The cleanup finalizer holds a component until its deletion is done

  ghost predicate Protected(st: Store) {
    forall id :: id in st.components ==> IsProtected(st.components[id])
  }

  predicate IsProtected(c: ComponentObject) {
    c.finalizers != [] && (!c.deleted ==> CLEANUP_FINALIZER in c.finalizers)
  }

  lemma {:induction false} OutsideProtected(st: Store, e: Event)
    requires Protected(st)
    ensures Protected(Outside(st, e))
  {
    match e
    case CreateComponent(id, cluster, role, finalizers) => AdmitProtects(finalizers);
    case TouchComponent(id, finalizers, extra) => AdmitProtects(finalizers);
    case _ =>
  }

  lemma {:induction false} AssignProtected(s: State, k: nat, id: ComponentId, h: string)
    requires Inv(s) && Protected(s.store) && k in s.schedulers && id in s.schedulers[k].unscheduled
    ensures Protected(AssignTo(s, k, id, h).store)
  {
    assert SchedulerOk(s.store, s.schedulers[k]);
    AdmitProtects(s.schedulers[k].unscheduled[id].finalizers);
  }

  /** The copy a worker has of its target agrees with the stored one in everything but the status, if that is current. */
  lemma {:induction false} CurrentCopy(st: Store, w: Worker, id: ComponentId)
    requires WorkerOk(st, w) && id in w.components && IsCurrent(st, id, w.components[id])
    ensures SameButStatus(w.components[id], st.components[id])
  {
    assert ComponentLink(st, w.hypervisors, w.loadedComponents[id], w.components[id], id);
  }

  lemma {:induction false} SaveProtected(st: Store, w: Worker)
    requires WorkerOk(st, w) && Protected(st) && CanSave(w)
    ensures Protected(SavedTarget(st, w))
  {
    if IsCurrent(st, w.target, w.components[w.target]) { CurrentCopy(st, w, w.target); }
  }

  lemma {:induction false} WritingProtected(s: State, e: Event)
    requires Inv(s) && Protected(s.store)
    ensures Protected(Writing(s, e).store)
  {
    match e
    case SaveTarget(k) => if k in s.workers && CanSave(s.workers[k]) { SaveProtected(s.store, s.workers[k]); }
    case WriteComponent(k, id) => WriteProtected(s, k, id);
    case _ =>
  }

  lemma {:induction false} WriteProtected(s: State, k: nat, id: ComponentId)
    requires Protected(s.store)
    ensures Protected(Writing(s, WriteComponent(k, id)).store)
  {
  }

  lemma {:induction false} SchedulingProtected(s: State, e: Event)
    requires Inv(s) && Protected(s.store)
    ensures Protected(Scheduling(s, e).store)
  {
    match e
    case Assign(k, id, h) => if k in s.schedulers && id in s.schedulers[k].unscheduled { AssignProtected(s, k, id, h); }
    case _ =>
  }

  lemma {:induction false} ReadingKeepsStore(s: State, e: Event)
    ensures Reading(s, e).store == s.store
  {
  }

  lemma {:induction false} ApplyProtected(s: State, e: Event)
    requires Inv(s) && Protected(s.store)
    ensures Protected(Apply(s, e).store)
  {
    if IsOutside(e) { OutsideProtected(s.store, e); }
    else if IsScheduling(e) { SchedulingProtected(s, e); }
    else if IsReading(e) { ReadingKeepsStore(s, e); }
    else if IsComputing(e) { ComputingKeepsStore(s, e); }
    else { WritingProtected(s, e); }
  }

  lemma {:induction false} RunProtected(events: seq<Event>)
    ensures Protected(Execute(INITIAL, events).store)
  {
    if events == [] {
    } else {
      var init := events[..|events| - 1];
      RunProtected(init);
      ReachableOk(init);
      ApplyProtected(Execute(INITIAL, init), events[|events| - 1]);
    }
  }

  /** A worker that reconciled the deletion of this component writes it, and it has no finalizer but the cleanup one. */
  predicate DeletionEnds(s: State, e: Event, id: ComponentId) {
    && e.SaveTarget? && e.worker in s.workers
    && var w := s.workers[e.worker];
    && CanSave(w) && w.target == id && w.components[id].deleted && IsCurrent(s.store, id, w.components[id])
    && forall f :: f in w.components[id].finalizers ==> f == CLEANUP_FINALIZER
  }

  lemma {:induction false} RemovedBySave(st: Store, w: Worker, id: ComponentId)
    requires WorkerOk(st, w) && CanSave(w) && id in st.components && id !in SavedTarget(st, w).components
    ensures w.target == id && w.components[id].deleted && IsCurrent(st, id, w.components[id]) && st.components[id].deleted
    ensures forall f :: f in w.components[id].finalizers ==> f == CLEANUP_FINALIZER
  {
    CurrentCopy(st, w, w.target);
    RemovedFinalizers(w.components[w.target].finalizers);
  }

  lemma {:induction false} OnlySaveRemoves(s: State, e: Event, id: ComponentId)
    requires id in s.store.components && id !in Writing(s, e).store.components
    ensures e.SaveTarget? && e.worker in s.workers && CanSave(s.workers[e.worker])
    ensures Writing(s, e).store == SavedTarget(s.store, s.workers[e.worker])
  {
  }

  lemma {:induction false} RemovedByWriting(s: State, e: Event, id: ComponentId)
    requires Inv(s) && id in s.store.components && id !in Writing(s, e).store.components
    ensures s.store.components[id].deleted && DeletionEnds(s, e, id)
  {
    OnlySaveRemoves(s, e, id);
    RemovedBySave(s.store, s.workers[e.worker], id);
  }

  /** In every run: a component leaves the store only when it is marked as deleted, and then by the write of a worker that
      reconciled its deletion, or because a user took the last finalizer away. */
  lemma {:induction false} LeavesOnlyDeleted(events: seq<Event>, e: Event, id: ComponentId)
    requires var s := Execute(INITIAL, events); id in s.store.components && id !in Apply(s, e).store.components
    ensures var s := Execute(INITIAL, events);
      && s.store.components[id].deleted
      && (DeletionEnds(s, e, id) || (e.TouchComponent? && e.id == id && e.finalizers == []))
  {
    var s := Execute(INITIAL, events);
    RunProtected(events);
    ReachableOk(events);
    assert IsProtected(s.store.components[id]);
    if IsOutside(e) || IsScheduling(e) { }
    else if IsReading(e) { ReadingKeepsStore(s, e); }
    else if IsComputing(e) { ComputingKeepsStore(s, e); }
    else { RemovedByWriting(s, e, id); }
  }

  // ---------------------------------------------------------------------------------------------
  // A pass stays in its cluster

  /** The copies of a worker are of components of its target's namespace and cluster. */
  ghost predicate InCluster(st: Store, w: Worker) {
    forall id :: id in w.components ==>
      id.namespace == w.target.namespace
      && (w.target in st.components ==> w.components[id].cluster == st.components[w.target].cluster)
  }

  ghost predicate AllInCluster(s: State) {
    forall k :: k in s.workers ==> InCluster(s.store, s.workers[k])
  }

  /** No copy is added, and none changes its cluster. */
  ghost predicate CopiesStay(w: Worker, w': Worker) {
    w'.target == w.target && forall id :: CopyStays(w, w', id)
  }

  predicate CopyStays(w: Worker, w': Worker, id: ComponentId) {
    id in w'.components ==> id in w.components && w'.components[id].cluster == w.components[id].cluster
  }

  ghost predicate AllCopiesStay(s: State, s': State) {
    forall k :: k in s'.workers ==> k in s.workers && CopiesStay(s.workers[k], s'.workers[k])
  }

  lemma {:induction false} ClusterStays(a: Store, b: Store, w: Worker, w': Worker)
    requires InCluster(a, w) && Evolves(a, b) && w.target in a.used && CopiesStay(w, w')
    ensures InCluster(b, w')
  {
    if w.target in b.components { assert ComponentFollows(a.components[w.target], b, w.target); }
    forall id | id in w'.components ensures id in w.components && w'.components[id].cluster == w.components[id].cluster {
      assert CopyStays(w, w', id);
    }
  }

  lemma {:induction false} StepCopies(s: State, st: Store, k: nat, w': Worker)
    requires k in s.workers && CopiesStay(s.workers[k], w')
    ensures AllCopiesStay(s, SetWorker(s.(store := st), k, w'))
  {
    forall j | j in s.workers ensures CopiesStay(s.workers[j], s.workers[j]) { }
  }

  lemma {:induction false} EndCopies(s: State, k: nat)
    ensures AllCopiesStay(s, EndWorker(s, k)) && AllCopiesStay(s, s)
  {
    forall j | j in s.workers ensures CopiesStay(s.workers[j], s.workers[j]) { }
  }

  lemma {:induction false} ReplacedCopies(w: Worker, w': Worker, id: ComponentId, c: ComponentObject)
    requires w'.target == w.target && id in w.components && w'.components == w.components[id := c]
    requires c.cluster == w.components[id].cluster
    ensures CopiesStay(w, w')
  {
    forall i ensures CopyStays(w, w', i) { }
  }

  lemma {:induction false} ReservedCopies(w: Worker, names: seq<string>)
    requires w.target in w.components
    ensures ReservedNames(w, names).Some? ==> CopiesStay(w, ReservedNames(w, names).value)
  {
    var c, r := w.components[w.target], ReservedNames(w, names);
    if r.Some? {
      assert w.components[w.target := c] == w.components;
      ReplacedCopies(w, r.value, w.target, r.value.components[w.target]);
    }
  }

  lemma {:induction false} PreReconcileCopies(s: State, k: nat)
    ensures AllCopiesStay(s, Computing(s, PreReconcile(k)))
  {
    EndCopies(s, k);
    if && k in s.workers && s.workers[k].round == Reserve && s.workers[k].stage == Local
       && s.workers[k].target in s.workers[k].components
    {
      var w := s.workers[k];
      ReservedCopies(w, PortNames(w.components[w.target].role, w.vpn));
      if Reserved(w).Some? { StepCopies(s, s.store, k, Reserved(w).value); }
    }
  }

  lemma {:induction false} RequestCopies(s: State, k: nat, id: ComponentId, name: string)
    ensures AllCopiesStay(s, Computing(s, RequestPort(k, id, name)))
  {
    EndCopies(s, k);
    if k in s.workers && CanRequest(s.workers[k], id, name) {
      var w, w' := s.workers[k], RequestIn(s.workers[k], id, name);
      assert w.components[id := w.components[id]] == w.components;
      ReplacedCopies(w, w', id, w'.components[id]);
      StepCopies(s, s.store, k, w');
    }
  }

  lemma {:induction false} FreeCopies(s: State, k: nat, name: string)
    ensures AllCopiesStay(s, Computing(s, FreePort(k, name)))
  {
    EndCopies(s, k);
    if k in s.workers && CanFree(s.workers[k], name) {
      var w, w' := s.workers[k], FreeIn(s.workers[k], name);
      ReplacedCopies(w, w', w.target, w'.components[w.target]);
      StepCopies(s, s.store, k, w');
    }
  }

  lemma {:induction false} ChangeCopies(s: State, e: Event)
    requires e.ChangeFiles? || e.ChangeExtra?
    ensures AllCopiesStay(s, Computing(s, e))
  {
    EndCopies(s, e.worker);
    var s' := Computing(s, e);
    if s' != s {
      var w, w' := s.workers[e.worker], s'.workers[e.worker];
      if e.ChangeExtra? { ReplacedCopies(w, w', e.id, w'.components[e.id]); }
      StepCopies(s, s.store, e.worker, w');
    }
  }

  lemma {:induction false} ComputingCopies(s: State, e: Event)
    requires IsComputing(e)
    ensures AllCopiesStay(s, Computing(s, e))
  {
    match e
    case PreReconcile(k) => PreReconcileCopies(s, k);
    case RequestPort(k, id, name) => RequestCopies(s, k, id, name);
    case FreePort(k, name) => FreeCopies(s, k, name);
    case _ => ChangeCopies(s, e);
  }

  lemma {:induction false} ConflictCopies(s: State, k: nat)
    requires k in s.workers
    ensures AllCopiesStay(s, Conflict(s, k))
  {
    EndCopies(s, k);
    StepCopies(s, s.store, k, s.workers[k].(stage := ReadHypervisors));
  }

  lemma {:induction false} SettleCopies(s: State, st: Store, k: nat)
    requires k in s.workers
    ensures AllCopiesStay(s, SetWorker(s.(store := st), k, Settle(s.workers[k])))
  {
    StepCopies(s, st, k, Settle(s.workers[k]));
  }

  lemma {:induction false} WroteHypervisorCopies(s: State, k: nat, h: string)
    requires k in s.workers && DirtyHypervisor(s.workers[k], h)
    ensures AllCopiesStay(s, WroteHypervisor(s, k, h))
  {
    ConflictCopies(s, k);
    var s' := WroteHypervisor(s, k, h);
    if s'.store != s.store { StepCopies(s, s'.store, k, s'.workers[k]); }
  }

  lemma {:induction false} WroteComponentCopies(s: State, k: nat, id: ComponentId)
    requires Inv(s) && k in s.workers && DirtyComponent(s.workers[k], id)
    ensures AllCopiesStay(s, WroteComponent(s, k, id))
  {
    EndCopies(s, k);
    ConflictCopies(s, k);
    if IsCurrent(s.store, id, s.workers[k].components[id]) {
      var s' := WroteComponent(s, k, id);
      CurrentCopy(s.store, s.workers[k], id);
      ReplacedCopies(s.workers[k], s'.workers[k], id, s'.workers[k].components[id]);
      StepCopies(s, s'.store, k, s'.workers[k]);
    }
  }

  lemma {:induction false} ContinuedCopies(s: State, k: nat)
    requires k in s.workers
    ensures AllCopiesStay(s, Continued(s, k))
  {
    EndCopies(s, k);
    StepCopies(s, s.store, k, s.workers[k].(stage := WriteComponents));
    StepCopies(s, s.store, k, s.workers[k].(round := Work, stage := ReadHypervisors));
  }

  lemma {:induction false} WritingCopies(s: State, e: Event)
    requires Inv(s)
    ensures AllCopiesStay(s, Writing(s, e))
  {
    EndCopies(s, if e.Stop? then e.worker else 0);
    match e
    case SaveTarget(k) =>
      if k in s.workers && CanSave(s.workers[k]) { SettleCopies(s, SavedTarget(s.store, s.workers[k]), k); }
    case SkipTarget(k) => if k in s.workers { SettleCopies(s, s.store, k); }
    case WriteHypervisor(k, h) =>
      if k in s.workers && DirtyHypervisor(s.workers[k], h) { WroteHypervisorCopies(s, k, h); }
    case WriteComponent(k, id) =>
      if k in s.workers && DirtyComponent(s.workers[k], id) { WroteComponentCopies(s, k, id); }
    case Continue(k) => if k in s.workers { ContinuedCopies(s, k); }
    case _ =>
  }

  lemma {:induction false} ReadingInCluster(s: State, e: Event, k: nat)
    requires AllInCluster(s) && k in Reading(s, e).workers
    ensures InCluster(s.store, Reading(s, e).workers[k])
  {
  }

  lemma {:induction false} SchedulingWorkers(s: State, e: Event)
    ensures Scheduling(s, e).workers == s.workers
  {
  }

  lemma {:induction false} ApplyCopies(s: State, e: Event)
    requires Inv(s) && !IsReading(e)
    ensures AllCopiesStay(s, Apply(s, e))
  {
    if IsOutside(e) { EndCopies(s, 0); }
    else if IsScheduling(e) { SchedulingWorkers(s, e); EndCopies(s, 0); }
    else if IsComputing(e) { ComputingCopies(s, e); }
    else { WritingCopies(s, e); }
  }

  lemma {:induction false} StillInCluster(s: State, s': State)
    requires Inv(s) && AllInCluster(s) && Evolves(s.store, s'.store) && AllCopiesStay(s, s')
    ensures AllInCluster(s')
  {
    forall k | k in s'.workers ensures InCluster(s'.store, s'.workers[k]) {
      assert WorkerOk(s.store, s.workers[k]);
      ClusterStays(s.store, s'.store, s.workers[k], s'.workers[k]);
    }
  }

  lemma {:induction false} ApplyInCluster(s: State, e: Event)
    requires Inv(s) && AllValid(s) && AllInCluster(s)
    ensures AllInCluster(Apply(s, e))
  {
    if IsReading(e) {
      ReadingKeepsStore(s, e);
      forall k | k in Apply(s, e).workers ensures InCluster(s.store, Apply(s, e).workers[k]) { ReadingInCluster(s, e, k); }
    } else {
      ApplyKeepsInv(s, e);
      ApplyCopies(s, e);
      StillInCluster(s, Apply(s, e));
    }
  }

  lemma {:induction false} RunInCluster(events: seq<Event>)
    ensures AllInCluster(Execute(INITIAL, events))
  {
    if events == [] {
    } else {
      var init, e := events[..|events| - 1], events[|events| - 1];
      RunInCluster(init);
      ReachableOk(init);
      ApplyInCluster(Execute(INITIAL, init), e);
    }
  }

  lemma {:induction false} WrittenIsCopied(s: State, e: Event, k: nat, id: ComponentId)
    requires IsStepOf(e, k) && id in s.store.components
    requires id !in Apply(s, e).store.components || Apply(s, e).store.components[id] != s.store.components[id]
    ensures k in s.workers && id in s.workers[k].components && IsCurrent(s.store, id, s.workers[k].components[id])
  {
    if IsReading(e) { ReadingKeepsStore(s, e); }
    else if IsComputing(e) { ComputingKeepsStore(s, e); }
  }

  /** In every run a pass writes only components of the namespace and the cluster of its target. */
  lemma {:induction false} PassStaysInCluster(events: seq<Event>, e: Event, k: nat, id: ComponentId)
    requires var s := Execute(INITIAL, events);
      && IsStepOf(e, k) && id in s.store.components
      && (id !in Apply(s, e).store.components || Apply(s, e).store.components[id] != s.store.components[id])
    ensures var s := Execute(INITIAL, events);
      && k in s.workers && id.namespace == s.workers[k].target.namespace
      && (s.workers[k].target in s.store.components ==>
            s.store.components[id].cluster == s.store.components[s.workers[k].target].cluster)
  {
    var s := Execute(INITIAL, events);
    ReachableOk(events);
    RunInCluster(events);
    WrittenIsCopied(s, e, k, id);
    assert WorkerOk(s.store, s.workers[k]) && InCluster(s.store, s.workers[k]);
    CurrentCopy(s.store, s.workers[k], id);
  }
}
