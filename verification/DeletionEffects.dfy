/** What a deletion leaves behind besides the ports themselves: the endpoints it asks, the order of the freed ports, the file
    records of the others, and when its attempts succeed. */
module DeletionEffects {
  import opened Ports
  import opened Paths
  import Files
  import opened Components
  import opened Protocol
  import opened ProtocolInvariant
  import opened ProtocolSafety
  import opened Endpoints
  import opened DeletionSteps

  // ---------------------------------------------------------------------------------------------
  // The endpoints

  /** The client endpoint of an undeleted control plane: the address of its hypervisor and its recorded client port. */
  predicate IsClientEndpoint(w: Worker, id: ComponentId, url: string) {
    && id in w.components
    && var c := w.components[id];
    && c.role == ControlPlane && !c.deleted && c.hypervisor in w.hypervisors && ETCD_CLIENT in c.ports
    && ReadsAs(url, w.hypervisors[c.hypervisor].ipAddress, c.ports[ETCD_CLIENT])
  }

  /** Every endpoint found is one of a listed control plane. */
  ghost predicate AllClientEndpoints(w: Worker, order: seq<ComponentId>, endpoints: seq<string>) {
    forall url :: url in endpoints ==> exists id :: id in order && IsClientEndpoint(w, id, url)
  }

  lemma {:induction false} EndpointStays(w: Worker, w': Worker, id: ComponentId, url: string)
    requires IsClientEndpoint(w, id, url) && Moves(w, w') && Grows(w, w')
    ensures IsClientEndpoint(w', id, url)
  {
    assert SameAt(w.components, w'.components, id) && PortsGrow(w.components[id].ports, w'.components[id].ports);
    assert MovedAt(w.target, w.hypervisors, w'.hypervisors, w.components[id].hypervisor);
  }

  lemma {:induction false} EndpointReads(w: Worker, id: ComponentId)
    ensures forall url :: url in EndpointOf(w, id) ==> IsClientEndpoint(AskOne(w, id), id, url)
    ensures IsLive(w, id) && ETCD_CLIENT in w.components[id].ports ==>
      exists url :: url in EndpointOf(w, id) && IsClientEndpoint(w, id, url)
  {
    if IsLive(w, id) && ETCD_CLIENT in RequestIn(w, id, ETCD_CLIENT).components[id].ports {
      RequestInCases(w, id, ETCD_CLIENT);
      UrlReadsBack(w.hypervisors[w.components[id].hypervisor].ipAddress, RequestIn(w, id, ETCD_CLIENT).components[id].ports[ETCD_CLIENT]);
      assert EndpointOf(w, id)[0] in EndpointOf(w, id);
    }
    if IsLive(w, id) { RequestInCases(w, id, ETCD_CLIENT); }
  }

  lemma {:induction false} FoundByOne(w: Worker, order: seq<ComponentId>, url: string) returns (id: ComponentId)
    requires Deletable(w) && url in EndpointsOf(w, order)
    ensures id in order && IsClientEndpoint(AskAll(w, order), id, url)
    decreases |order|
  {
    var w1 := AskOne(w, order[0]);
    AskOneAlong(w, order[0]);
    StillDeletable(w, w1);
    if url in EndpointOf(w, order[0]) {
      id := order[0];
      EndpointReads(w, id);
      AskAllAlong(w1, order[1..]);
      EndpointStays(w1, AskAll(w1, order[1..]), id, url);
    } else {
      id := FoundByOne(w1, order[1..], url);
    }
  }

  lemma {:induction false} EndpointsRead(w: Worker, order: seq<ComponentId>)
    requires Deletable(w)
    ensures AllClientEndpoints(AskAll(w, order), order, EndpointsOf(w, order))
  {
    forall url | url in EndpointsOf(w, order) ensures exists id :: id in order && IsClientEndpoint(AskAll(w, order), id, url) {
      var id := FoundByOne(w, order, url);
    }
  }

  /** An undeleted control plane that records its client port is among those asked, at that port. */
  lemma {:induction false} LiveIsAsked(w: Worker, order: seq<ComponentId>, id: ComponentId)
    requires Deletable(w) && id in order && IsLive(w, id) && ETCD_CLIENT in w.components[id].ports
    ensures exists url :: url in EndpointsOf(w, order) && IsClientEndpoint(w, id, url)
    decreases |order|
  {
    if order[0] == id {
      EndpointReads(w, id);
      var url :| url in EndpointOf(w, id) && IsClientEndpoint(w, id, url);
      assert url in EndpointsOf(w, order);
    } else {
      var w1 := AskOne(w, order[0]);
      AskOneAlong(w, order[0]);
      StillDeletable(w, w1);
      assert SameAt(w.components, w1.components, id) && PortsGrow(w.components[id].ports, w1.components[id].ports);
      assert MovedAt(w.target, w.hypervisors, w1.hypervisors, w.components[id].hypervisor);
      LiveIsAsked(w1, order[1..], id);
      var url :| url in EndpointsOf(w1, order[1..]) && IsClientEndpoint(w1, id, url);
      assert url in EndpointsOf(w, order);
    }
  }

  // ---------------------------------------------------------------------------------------------
  // The order of the freed ports

  /** The port the target records and holds under a name. */
  function HeldPort(w: Worker, name: string): seq<int>
    requires Scheduled(w)
  {
    if name in w.components[w.target].ports && IsHeld(w, name) then [Held(TargetTable(w))[TargetKey(w, name)]] else []
  }

  /** A freed port goes to the end of the queue of its hypervisor. */
  lemma {:induction false} FreedIsLast(w: Worker, name: string)
    requires Scheduled(w)
    ensures Scheduled(FreeIn(w, name)) && TargetTable(FreeIn(w, name)).freed == TargetTable(w).freed + HeldPort(w, name)
  {
  }

  lemma {:induction false} KeptAtOther(w: Worker, w': Worker, name: string, other: string)
    requires Scheduled(w) && Scheduled(w') && w'.target == w.target && SameButStatus(w.components[w.target], w'.components[w.target])
    requires w'.components[w.target].ports == w.components[w.target].ports - {name} && name != other
    requires Held(TargetTable(w')) == Held(TargetTable(w)) - {TargetKey(w, name)} && TargetKey(w, name) != TargetKey(w, other)
    ensures HeldPort(w', other) == HeldPort(w, other)
  {
    assert TargetKey(w', other) == TargetKey(w, other);
  }

  lemma {:induction false} OtherPortHeld(w: Worker, name: string, other: string)
    requires Scheduled(w) && Valid(TargetTable(w)) && IsPortName(name) && IsPortName(other) && name != other
    ensures Scheduled(FreeIn(w, name)) && HeldPort(FreeIn(w, name), other) == HeldPort(w, other)
  {
    var c, t := w.components[w.target], TargetTable(w);
    FreeKeepsValid(t, TargetKey(w, name));
    if TargetKey(w, name) == TargetKey(w, other) { KeysNeverClash(w.target, c.cluster, name, w.target, c.cluster, other); }
    FreeInUnfolds(w, name);
    if name in c.ports { KeptAtOther(w, FreeIn(w, name), name, other); }
  }

  /** Two ports freed one after the other are queued in that order. */
  lemma {:induction false} FreedInOrder(w: Worker, first: string, second: string)
    requires Scheduled(w) && Valid(TargetTable(w)) && IsPortName(first) && IsPortName(second) && first != second
    ensures var w' := Freed(Freed(w, first), second);
      Scheduled(w') && TargetTable(w').freed == TargetTable(w).freed + HeldPort(w, first) + HeldPort(w, second)
  {
    FreedIsLast(w, first);
    OtherPortHeld(w, first, second);
    FreedIsLast(Freed(w, first), second);
  }

  // ---------------------------------------------------------------------------------------------
  // The file records of others

  /** No record changes but that of the target on its hypervisor. */
  ghost predicate FilesKept(w: Worker, w': Worker) {
    && w'.hypervisors.Keys == w.hypervisors.Keys
    && forall h, o :: FileKept(w, w', h, o)
  }

  predicate FileKept(w: Worker, w': Worker, h: string, o: Owner)
    requires w'.hypervisors.Keys == w.hypervisors.Keys
  {
    && w.target in w.components
    && (h in w.hypervisors && !(h == w.components[w.target].hypervisor
          && o == Owner(w.target.namespace, w.components[w.target].cluster, w.target.name)) ==>
          && (Files.Recorded(w'.hypervisors[h].files, o) <==> Files.Recorded(w.hypervisors[h].files, o))
          && Files.Entry(w'.hypervisors[h].files, o) == Files.Entry(w.hypervisors[h].files, o))
  }

  /** The target, and where it is, stay the same. */
  predicate SameTarget(w: Worker, w': Worker) {
    && w'.target == w.target && w.target in w.components && w.target in w'.components
    && w'.components[w.target].hypervisor == w.components[w.target].hypervisor
    && w'.components[w.target].cluster == w.components[w.target].cluster
  }

  ghost predicate FilesGoOn(w: Worker, w': Worker) {
    SameTarget(w, w') && FilesKept(w, w')
  }

  lemma {:induction false} FilesKeptOn(w: Worker, w1: Worker, w2: Worker)
    requires FilesGoOn(w, w1) && FilesGoOn(w1, w2)
    ensures FilesGoOn(w, w2)
  {
    forall h, o ensures FileKept(w, w2, h, o) { assert FileKept(w, w1, h, o) && FileKept(w1, w2, h, o); }
  }

  lemma {:induction false} SameFilesKept(w: Worker, w': Worker)
    requires SameTarget(w, w') && w'.hypervisors.Keys == w.hypervisors.Keys
    requires forall h :: h in w.hypervisors ==> w'.hypervisors[h].files == w.hypervisors[h].files
    ensures FilesGoOn(w, w')
  {
  }

  lemma {:induction false} FreedFiles(w: Worker, name: string)
    requires Scheduled(w)
    ensures FilesGoOn(w, Freed(w, name)) && Scheduled(Freed(w, name))
  {
    SameFilesKept(w, Freed(w, name));
  }

  lemma {:induction false} AlongFiles(w: Worker, w': Worker)
    requires Along(w, w')
    ensures FilesGoOn(w, w')
  {
    assert SameAt(w.components, w'.components, w.target);
    SameFilesKept(w, w');
  }

  lemma {:induction false} CleanedFiles(w: Worker)
    requires Scheduled(w)
    ensures FilesGoOn(w, CleanedUp(w)) && Scheduled(CleanedUp(w))
  {
    var g := w.components[w.target].hypervisor;
    forall h, o ensures FileKept(w, CleanedUp(w), h, o) { Files.ForgetAt(w.hypervisors[g].files, OwnerOf(w), o); }
  }

  lemma {:induction false} LeftFiles(w: Worker, order: seq<ComponentId>, w': Worker)
    requires Deletable(w) && LeftAt(w, order, w')
    ensures FilesGoOn(w, w') && Scheduled(w')
  {
    SameFilesKept(w, w);
    var w1 := FreeIn(w, API_SERVER);
    FreedFiles(w, API_SERVER);
    FreedIsReleased(w, API_SERVER);
    var base := AskAll(w1, order);
    AskAllAlong(w1, order);
    StillDeletable(w1, base);
    PeerRequestAlong(base);
    AlongFiles(w1, base);
    AlongFiles(base, WithPeerPort(base));
    FilesKeptOn(w, w1, base);
    FilesKeptOn(w, base, WithPeerPort(base));
  }

  /** Up to the end of the attempts the record of the target's own files stays as well. */
  lemma {:induction false} LeftTargetFiles(w: Worker, order: seq<ComponentId>, w': Worker)
    requires Deletable(w) && LeftAt(w, order, w')
    ensures Scheduled(w') && TargetFiles(w') == TargetFiles(w)
  {
    var w1 := FreeIn(w, API_SERVER);
    FreedIsReleased(w, API_SERVER);
    var base := AskAll(w1, order);
    AskAllAlong(w1, order);
    StillDeletable(w1, base);
    PeerRequestAlong(base);
    AlongTargetFiles(w1, base);
    AlongTargetFiles(base, WithPeerPort(base));
  }

  lemma {:induction false} AlongTargetFiles(w: Worker, w': Worker)
    requires Along(w, w')
    ensures TargetFiles(w') == TargetFiles(w)
  {
    assert SameAt(w.components, w'.components, w.target);
  }

  lemma {:induction false} StoppedTargetFiles(w: Worker)
    requires Scheduled(w)
    ensures Scheduled(EtcdStopped(w)) && TargetFiles(EtcdStopped(w)) == TargetFiles(w)
  {
  }

  /** Wherever a deletion stops, the file records of all other components are what they were. */
  lemma {:induction false} OtherFilesStay(w: Worker, order: seq<ComponentId>, w': Worker)
    requires Deletable(w) && CameTo(w, order, w')
    ensures FilesKept(w, w')
  {
    var x :| LeftAt(w, order, x) && (w' == x || w' == EtcdStopped(x) || w' == CleanedUp(EtcdStopped(x)));
    LeftFiles(w, order, x);
    FreedFiles(x, ETCD_PEER);
    FreedFiles(Freed(x, ETCD_PEER), ETCD_CLIENT);
    FilesKeptOn(w, x, Freed(x, ETCD_PEER));
    FilesKeptOn(w, Freed(x, ETCD_PEER), EtcdStopped(x));
    CleanedFiles(EtcdStopped(x));
    FilesKeptOn(w, EtcdStopped(x), CleanedUp(EtcdStopped(x)));
  }

  // ---------------------------------------------------------------------------------------------
  // The attempts

  /** Attempt `i` finds the member gone, since some attempt before it removed it, though the call failed. */
  predicate FoundGone(attempts: seq<Attempt>, i: nat) {
    exists j :: 0 <= j < i < |attempts| && attempts[j].listed && attempts[j].connected && attempts[j].applied
  }

  predicate Succeeds(attempts: seq<Attempt>, present: bool, i: nat) {
    && i < |attempts| && attempts[i].listed
    && (!present || (attempts[i].connected && attempts[i].removed) || FoundGone(attempts, i))
  }

  lemma {:induction false} SucceedsLater(attempts: seq<Attempt>, present: bool, i: nat)
    requires attempts != [] && !IsDone(attempts[0], present)
    ensures Succeeds(attempts[1..], StillPresent(attempts[0], present), i) <==> Succeeds(attempts, present, i + 1)
  {
    var rest, a := attempts[1..], attempts[0];
    if FoundGone(rest, i) {
      var j :| 0 <= j < i < |rest| && rest[j].listed && rest[j].connected && rest[j].applied;
      assert attempts[j + 1] == rest[j];
    }
    if FoundGone(attempts, i + 1) {
      var j :| 0 <= j < i + 1 < |attempts| && attempts[j].listed && attempts[j].connected && attempts[j].applied;
      assert j > 0 ==> rest[j - 1] == attempts[j];
    }
    if i < |rest| && a.listed && a.connected && a.applied { assert FoundGone(attempts, i + 1); }
  }

  /** The attempts get there exactly if one of them lists the members and removes the target's, or finds it gone. */
  lemma {:induction false} GetsThereExactly(attempts: seq<Attempt>, present: bool)
    ensures GetsThere(attempts, present) <==> exists i: nat :: Succeeds(attempts, present, i)
    decreases |attempts|
  {
    if attempts == [] {
    } else if IsDone(attempts[0], present) {
      assert Succeeds(attempts, present, 0);
    } else {
      var rest, next := attempts[1..], StillPresent(attempts[0], present);
      GetsThereExactly(rest, next);
      forall i: nat ensures Succeeds(rest, next, i) <==> Succeeds(attempts, present, i + 1) { SucceedsLater(attempts, present, i); }
      if exists i: nat :: Succeeds(attempts, present, i) {
        var i: nat :| Succeeds(attempts, present, i);
        assert i > 0;
        assert Succeeds(rest, next, i - 1);
      }
      if exists i: nat :: Succeeds(rest, next, i) {
        var i: nat :| Succeeds(rest, next, i);
        assert Succeeds(attempts, present, i + 1);
      }
    }
  }
}
