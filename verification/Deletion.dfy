/** The deletion of a control plane, and of an ingress, through all their partial failures and retries. */
module Deletion {
  import opened Options
  import opened Ports
  import Files
  import opened Components
  import opened Protocol
  import opened ProtocolEffects
  import opened Endpoints
  import opened DeletionSteps
  import opened DeletionEffects
  import opened Paths

  /** The hypervisor of the target has no record of files of the target. */
  predicate NoFiles(w: Worker)
    requires Scheduled(w)
  {
    var c := w.components[w.target];
    !Files.Recorded(w.hypervisors[c.hypervisor].files, Owner(w.target.namespace, c.cluster, w.target.name))
  }

  /** What a successful deletion leaves held, name by name, and that the record of the files is gone. */
  ghost predicate HeldAfter(w: Worker, w': Worker, order: seq<ComponentId>, clusterDeleted: bool)
    requires Scheduled(w)
  {
    && Scheduled(w') && NoneOfThree(w') && NoFiles(w')
    && (IsHeld(w', API_SERVER) <==> Stray(w, API_SERVER))
    && (IsHeld(w', ETCD_CLIENT) <==> Stray(w, ETCD_CLIENT))
    && (IsHeld(w', ETCD_PEER) <==> Stray(w, ETCD_PEER) && !AsksMembers(w, order, clusterDeleted))
  }

  /** All three ports are released exactly when the target had no stray the deletion cannot see. */
  lemma {:induction false} NothingHeldExactly(w: Worker, w': Worker, order: seq<ComponentId>, clusterDeleted: bool)
    requires Scheduled(w) && HeldAfter(w, w', order, clusterDeleted)
    ensures NothingHeld(w') <==> !LeavesStray(w, order, clusterDeleted)
  {
  }

  predicate NoneOfThree(w: Worker) {
    && w.target in w.components
    && var ports := w.components[w.target].ports; API_SERVER !in ports && ETCD_PEER !in ports && ETCD_CLIENT !in ports
  }

  lemma {:induction false} NoneRecorded(w: Worker, w': Worker)
    requires w.target in w.components && w'.target == w.target && w'.target in w'.components
    requires API_SERVER !in w.components[w.target].ports
    requires w'.components[w'.target].ports == w.components[w.target].ports - {ETCD_PEER} - {ETCD_CLIENT}
    ensures NoneOfThree(w')
  {
  }

  lemma {:induction false} StraysStillLeft(start: Worker, w: Worker, w': Worker, order: seq<ComponentId>, clusterDeleted: bool)
    requires Scheduled(start) && Scheduled(w) && Scheduled(w')
    requires StraysLeft(start, w, order, clusterDeleted) && SameStrays(w, w')
    ensures StraysLeft(start, w', order, clusterDeleted)
  {
    assert Stray(w', API_SERVER) <==> Stray(w, API_SERVER);
    assert Stray(w', ETCD_PEER) <==> Stray(w, ETCD_PEER);
    assert Stray(w', ETCD_CLIENT) <==> Stray(w, ETCD_CLIENT);
  }

  lemma {:induction false} HeldInTheEnd(start: Worker, w: Worker, order: seq<ComponentId>, clusterDeleted: bool)
    requires Scheduled(start) && Scheduled(w) && StraysLeft(start, w, order, clusterDeleted)
    requires NoneOfThree(w) && !Files.Recorded(TargetFiles(w), OwnerOf(w))
    ensures HeldAfter(start, w, order, clusterDeleted)
  {
  }

  /** A deletion succeeds exactly if the pods and the files went and, if members are asked, the target's could be removed. */
  ghost predicate SucceedsExactly(ok: bool, w: Worker, members: seq<EtcdMember>, order: seq<ComponentId>, clusterDeleted: bool,
      podDeleted: bool, attempts: seq<Attempt>, etcdDeleted: bool, cleaned: bool)
    requires Scheduled(w)
  {
    var rest := podDeleted && etcdDeleted && cleaned;
    && (ok ==> rest)
    && (!AsksMembers(w, order, clusterDeleted) ==> ok == rest)
    && (AsksMembers(w, order, clusterDeleted) ==> ok == (rest && Removes(FreeIn(w, API_SERVER), members, order, attempts)))
  }

  ghost predicate RemovesIfAsked(w: Worker, members: seq<EtcdMember>, order: seq<ComponentId>, clusterDeleted: bool, attempts: seq<Attempt>)
    requires Scheduled(w)
  {
    AsksMembers(w, order, clusterDeleted) ==> Removes(FreeIn(w, API_SERVER), members, order, attempts)
  }

  /** A step that fails is the last one: with the api server still running nothing is done, with etcd still running its ports
      stay, and with the files still there so does their record. */
  predicate StopsThere(w: Worker, order: seq<ComponentId>, w': Worker, podDeleted: bool, etcdDeleted: bool, cleaned: bool)
    requires Scheduled(w)
  {
    && (!podDeleted ==> w' == w)
    && (!etcdDeleted ==> LeftAt(w, order, w'))
    && (!cleaned ==> Scheduled(w') && TargetFiles(w') == TargetFiles(w))
  }

  class ControlPlaneDeletion {
    var worker: Worker
    var members: seq<EtcdMember>
    /** The control planes of the cluster, in the order they were listed. */
    const order: seq<ComponentId>
    const clusterDeleted: bool

    constructor (worker: Worker, members: seq<EtcdMember>, order: seq<ComponentId>, clusterDeleted: bool)
      ensures this.worker == worker && this.members == members && this.order == order && this.clusterDeleted == clusterDeleted
    {
      this.worker, this.members, this.order, this.clusterDeleted := worker, members, order, clusterDeleted;
    }

    /** The client endpoint of one control plane that stays; its client port is requested on the way. */
    method EtcdClientEndpoint(id: ComponentId) returns (endpoints: seq<string>)
      modifies this`worker
      ensures worker == AskOne(old(worker), id) && endpoints == EndpointOf(old(worker), id)
    {
      endpoints := [];
      if IsLive(worker, id) {
        var address := worker.hypervisors[worker.components[id].hypervisor].ipAddress;
        worker := RequestIn(worker, id, ETCD_CLIENT);
        if ETCD_CLIENT in worker.components[id].ports {
          endpoints := [HttpsUrl(address, worker.components[id].ports[ETCD_CLIENT])];
        }
      }
    }

    /** The client endpoints of the control planes that stay: each one found is the address and the client port of one of
        them, and one that records its client port is found. */
    method EtcdClientEndpoints() returns (endpoints: seq<string>)
      modifies this`worker
      ensures worker == AskAll(old(worker), order) && endpoints == EndpointsOf(old(worker), order)
      ensures Deletable(old(worker)) ==> AllClientEndpoints(worker, order, endpoints)
      ensures Deletable(old(worker)) ==> forall id :: id in order && IsLive(old(worker), id) && ETCD_CLIENT in old(worker).components[id].ports ==>
        exists url :: url in endpoints && IsClientEndpoint(old(worker), id, url)
    {
      if Deletable(worker) {
        EndpointsRead(worker, order);
        forall id | id in order && IsLive(worker, id) && ETCD_CLIENT in worker.components[id].ports
          ensures exists url :: url in EndpointsOf(worker, order) && IsClientEndpoint(worker, id, url)
        {
          LiveIsAsked(worker, order, id);
        }
      }
      endpoints := [];
      AskedNone(worker, order);
      for i := 0 to |order|
        invariant Asked(old(worker), order, i, worker, endpoints)
      {
        AskedOne(old(worker), order, i, worker, endpoints);
        var endpoint := EtcdClientEndpoint(order[i]);
        endpoints := endpoints + endpoint;
      }
      AskedEveryone(old(worker), order, worker, endpoints);
    }

    /** The peer URL of the target, requesting its port if none is recorded. */
    method EtcdPeerUrl() returns (url: Option<string>)
      requires Deletable(worker)
      modifies this`worker
      ensures Deletable(worker) && Along(old(worker), worker)
      ensures url.Some? <==> ETCD_PEER in worker.components[worker.target].ports
      ensures url.Some? ==> url.value == PeerUrl(worker)
      ensures url.Some? ==>
        var c := worker.components[worker.target]; ReadsAs(url.value, worker.hypervisors[c.hypervisor].ipAddress, c.ports[ETCD_PEER])
      ensures !Stray(worker, ETCD_PEER) && worker == WithPeerPort(old(worker))
    {
      PeerRequestAlong(worker);
      worker := RequestIn(worker, worker.target, ETCD_PEER);
      url := if ETCD_PEER in worker.components[worker.target].ports then Some(PeerUrl(worker)) else None;
      if url.Some? { UrlOfReadsBack(worker.hypervisors, worker.components[worker.target], ETCD_PEER); }
    }

    /** Finds the member with the target's peer URL, if the members can be listed. */
    method EtcdMemberId(listed: bool) returns (failed: bool, found: bool, at: nat)
      requires Deletable(worker)
      modifies this`worker
      ensures Deletable(worker) && Along(old(worker), worker)
      ensures !failed ==> UrlKnown(worker) && (found <==> IsPresent(worker, members))
      ensures failed ==> !found
      ensures found ==> at < |members| && members[at].peerUrls == [PeerUrl(worker)]
      ensures worker == if listed then WithPeerPort(AskAll(old(worker), order)) else AskAll(old(worker), order)
      ensures failed == (!listed || !UrlKnown(worker))
    {
      failed, found, at := true, false, 0;
      EtcdClient();
      if listed {
        ghost var w1 := worker;
        var url := EtcdPeerUrl();
        AlongOn(old(worker), w1, worker);
        if url.Some? {
          failed := false;
          found, at := FindMember(url.value);
        }
      }
    }

    method FindMember(url: string) returns (found: bool, at: nat)
      ensures found ==> at < |members| && members[at].peerUrls == [url]
      ensures found <==> !NoMember(members, url)
    {
      for i := 0 to |members|
        invariant forall j :: 0 <= j < i ==> members[j].peerUrls != [url]
      {
        if members[i].peerUrls == [url] { return true, i; }
      }
      return false, 0;
    }

    /** Connecting asks for the endpoints first. */
    method EtcdClient()
      requires Deletable(worker)
      modifies this`worker
      ensures Deletable(worker) && Along(old(worker), worker) && worker == AskAll(old(worker), order)
    {
      AskAllAlong(worker, order);
      StillDeletable(worker, AskAll(worker, order));
      var endpoints := EtcdClientEndpoints();
    }

    /** With an endpoint to ask, success means that no member has the target's peer URL any more; no other member left,
        however the attempts went. It succeeds exactly when there is a peer port and the outcomes of the attempts get there.
        Without an endpoint nothing is done. */
    method RemoveEtcdMember(attempts: seq<Attempt>) returns (ok: bool)
      requires Deletable(worker) && UniqueMembers(members) && |attempts| == ATTEMPTS
      modifies this`worker, this`members
      ensures OnTheWay(old(worker), old(members), worker, members)
      ensures ok && EndpointsOf(old(worker), order) != [] ==> UrlKnown(worker) && !IsPresent(worker, members)
      ensures EndpointsOf(old(worker), order) == [] ==> ok && members == old(members) && SameStrays(old(worker), worker)
      ensures EndpointsOf(old(worker), order) == [] ==> worker == AskAll(old(worker), order)
      ensures EndpointsOf(old(worker), order) != [] ==> ok == Removes(old(worker), old(members), order, attempts)
      ensures IsAt(AskAll(old(worker), order), worker)
    {
      var endpoints := AskForEndpoints();
      if endpoints == [] { return true; }
      ok := TryUpTo(attempts, old(worker), old(members), worker);
    }

    method AskForEndpoints() returns (endpoints: seq<string>)
      requires Deletable(worker)
      modifies this`worker
      ensures Deletable(worker) && Along(old(worker), worker) && SameStrays(old(worker), worker)
      ensures endpoints == EndpointsOf(old(worker), order)
      ensures worker == AskAll(old(worker), order) && IsBase(worker, order)
    {
      AskAllAlong(worker, order);
      AskAllMoves(worker, order);
      StraysStay(worker, AskAll(worker, order));
      StillDeletable(worker, AskAll(worker, order));
      AskedIsBase(worker, order);
      endpoints := EtcdClientEndpoints();
    }

    method TryUpTo(attempts: seq<Attempt>, ghost start: Worker, ghost all: seq<EtcdMember>, ghost base: Worker) returns (ok: bool)
      requires OnTheWay(start, all, worker, members) && IsBase(base, order) && IsAt(base, worker)
      modifies this`worker, this`members
      ensures OnTheWay(start, all, worker, members) && IsAt(base, worker)
      ensures ok ==> UrlKnown(worker) && !IsPresent(worker, members)
      ensures ok == (UrlKnown(WithPeerPort(base)) && GetsThere(attempts, IsPresent(WithPeerPort(base), old(members))))
    {
      ghost var peer := WithPeerPort(base);
      for i := 0 to |attempts|
        invariant OnTheWay(start, all, worker, members) && IsAt(base, worker)
        invariant UrlKnown(peer) ==> TriedUpTo(attempts, i, IsPresent(peer, old(members)), IsPresent(peer, members))
      {
        ghost var now := IsPresent(peer, members);
        var done := TryToRemove(attempts[i], start, all, base);
        if UrlKnown(peer) { TriedOne(attempts, i, IsPresent(peer, old(members)), now, done, IsPresent(peer, members)); }
        if done { return true; }
      }
      return false;
    }

    /** One attempt. */
    method TryToRemove(attempt: Attempt, ghost start: Worker, ghost all: seq<EtcdMember>, ghost base: Worker) returns (done: bool)
      requires OnTheWay(start, all, worker, members) && IsBase(base, order) && IsAt(base, worker)
      modifies this`worker, this`members
      ensures OnTheWay(start, all, worker, members) && IsAt(base, worker)
      ensures done ==> UrlKnown(worker) && !IsPresent(worker, members) && UrlKnown(WithPeerPort(base))
      ensures UrlKnown(WithPeerPort(base)) ==>
        Attempted(attempt, done, IsPresent(WithPeerPort(base), old(members)), IsPresent(WithPeerPort(base), members))
    {
      var failed, found, at := LookUp(attempt.listed, start, all, base);
      if failed || !found { return !failed; }
      done := MemberRemove(attempt, at, start, all, base);
    }

    method LookUp(listed: bool, ghost start: Worker, ghost all: seq<EtcdMember>, ghost base: Worker)
      returns (failed: bool, found: bool, at: nat)
      requires OnTheWay(start, all, worker, members) && IsBase(base, order) && IsAt(base, worker)
      modifies this`worker
      ensures OnTheWay(start, all, worker, members) && IsAt(base, worker)
      ensures !failed ==> worker == WithPeerPort(base) && UrlKnown(worker) && (found <==> IsPresent(worker, members))
      ensures failed ==> !found
      ensures found ==> at < |members| && members[at].peerUrls == [PeerUrl(worker)]
      ensures failed == (!listed || !UrlKnown(WithPeerPort(base)))
    {
      failed, found, at := EtcdMemberId(listed);
      GoOnTheWay(start, all, old(worker), worker, members);
    }

    method MemberRemove(attempt: Attempt, at: nat, ghost start: Worker, ghost all: seq<EtcdMember>, ghost base: Worker)
      returns (done: bool)
      requires OnTheWay(start, all, worker, members) && IsBase(base, order) && worker == WithPeerPort(base) && UrlKnown(worker)
      requires at < |members| && members[at].peerUrls == [PeerUrl(worker)]
      modifies this`worker, this`members
      ensures OnTheWay(start, all, worker, members) && worker == WithPeerPort(base)
      ensures done == (attempt.connected && attempt.removed)
      ensures IsPresent(worker, members) == !(attempt.connected && (attempt.removed || attempt.applied))
    {
      EtcdClient();
      if attempt.connected {
        TargetLeaves(worker, all, members, at);
        if attempt.removed || attempt.applied { members := WithoutMember(members, members[at].id); }
      }
      return attempt.connected && attempt.removed;
    }

    method FreePort(name: string)
      requires Deletable(worker) && IsPortName(name)
      modifies this`worker
      ensures Deletable(worker) && Moves(old(worker), worker)
      ensures worker.components[worker.target].ports == old(worker).components[worker.target].ports - {name}
      ensures SameStrays(old(worker), worker) && worker == Freed(old(worker), name)
    {
      FreedIsReleased(worker, name);
      worker := FreeIn(worker, name);
    }

    /** The port is freed only once the pod is gone, and is the last of those waiting then. */
    method StopControlPlane(podDeleted: bool) returns (ok: bool)
      requires Deletable(worker)
      modifies this`worker
      ensures Deletable(worker) && Moves(old(worker), worker)
      ensures ok == podDeleted && worker == if ok then FreeIn(old(worker), API_SERVER) else old(worker)
      ensures SameStrays(old(worker), worker)
      ensures ok ==> API_SERVER !in worker.components[worker.target].ports
      ensures ok ==> TargetTable(worker).freed == TargetTable(old(worker)).freed + HeldPort(old(worker), API_SERVER)
    {
      MovesReflexive(worker);
      ok := podDeleted;
      if ok {
        FreedIsLast(worker, API_SERVER);
        FreedIsReleased(worker, API_SERVER);
        worker := FreeIn(worker, API_SERVER);
      }
    }

    /** Both ports are freed only once the pod is gone, the peer port first. */
    method StopEtcd(podDeleted: bool) returns (ok: bool)
      requires Deletable(worker)
      modifies this`worker
      ensures Deletable(worker) && Moves(old(worker), worker)
      ensures ok == podDeleted && SameStrays(old(worker), worker)
      ensures ok ==> worker.components[worker.target].ports == old(worker).components[worker.target].ports - {ETCD_PEER} - {ETCD_CLIENT}
      ensures worker == if ok then EtcdStopped(old(worker)) else old(worker)
      ensures ok ==>
        TargetTable(worker).freed == TargetTable(old(worker)).freed + HeldPort(old(worker), ETCD_PEER) + HeldPort(old(worker), ETCD_CLIENT)
    {
      MovesReflexive(worker);
      ok := podDeleted;
      if ok {
        FreedInOrder(worker, ETCD_PEER, ETCD_CLIENT);
        FreePort(ETCD_PEER);
        ghost var w1 := worker;
        FreePort(ETCD_CLIENT);
        MovesOn(old(worker), w1, worker);
      }
    }

    /** The record goes only after the files did. */
    method HostCleanup(cleaned: bool) returns (ok: bool)
      requires Deletable(worker)
      modifies this`worker
      ensures Deletable(worker) && Moves(old(worker), worker) && worker.components == old(worker).components
      ensures SameStrays(old(worker), worker)
      ensures ok == cleaned && (ok ==> !Files.Recorded(TargetFiles(worker), OwnerOf(worker)))
      ensures worker == if ok then CleanedUp(old(worker)) else old(worker)
    {
      MovesReflexive(worker);
      ok := cleaned;
      if ok {
        ForgetMoves(worker);
        worker := ForgetIn(worker);
      }
    }

    /** Stops the api server, and leaves the etcd cluster unless the whole cluster goes. */
    method LeaveCluster(podDeleted: bool, attempts: seq<Attempt>) returns (ok: bool)
      requires Deletable(worker) && UniqueMembers(members) && |attempts| == ATTEMPTS
      modifies this`worker, this`members
      ensures Deletable(worker) && Moves(old(worker), worker)
      ensures MembersAfter(old(worker), order, old(members), members)
      ensures ok ==> API_SERVER !in worker.components[worker.target].ports
      ensures ok ==> StraysLeft(old(worker), worker, order, clusterDeleted)
      ensures clusterDeleted ==> members == old(members)
      ensures ok && !clusterDeleted ==> TargetGone(old(worker), order, members)
      ensures LeftAt(old(worker), order, worker)
      ensures ok ==> podDeleted
      ensures !podDeleted ==> worker == old(worker) && members == old(members)
      ensures podDeleted && !AsksMembers(old(worker), order, clusterDeleted) ==> ok
      ensures AsksMembers(old(worker), order, clusterDeleted) ==>
        ok == (podDeleted && Removes(FreeIn(old(worker), API_SERVER), old(members), order, attempts))
    {
      ok := StopControlPlane(podDeleted);
      if ok {
        if clusterDeleted {
          StraysOfSilent(old(worker), worker, worker, order, true);
        } else {
          ghost var w1 := worker;
          ok := RemoveEtcdMember(attempts);
          MovesOn(old(worker), w1, worker);
          StillStopped(w1, worker);
          LeftByUrl(w1, order, worker, old(members), members);
          if !AsksMembers(old(worker), order, false) {
            StraysOfSilent(old(worker), w1, worker, order, false);
          } else if ok {
            StraysOfAsked(old(worker), w1, worker, order);
          }
        }
      }
    }

    /** The deletion, of a target with any ports recorded and any held. However far it came, no component but the target lost
        a port or a file record, no port is lost, and no member left but those with the target's peer URL. Once it succeeds exactly the strays
        are still held that it could not see, the record of the target's files is gone, and, if some member was asked, its
        member left. It succeeds exactly when every step did. */
    method ReconcileDeletion(podDeleted: bool, attempts: seq<Attempt>, etcdDeleted: bool, cleaned: bool) returns (ok: bool)
      requires Scheduled(worker) ==> Deletable(worker)
      requires UniqueMembers(members) && |attempts| == ATTEMPTS
      modifies this`worker, this`members
      ensures !Scheduled(old(worker)) ==> ok && worker == old(worker) && members == old(members)
      ensures Scheduled(old(worker)) ==>
        Deletable(worker) && Moves(old(worker), worker) && MembersAfter(old(worker), order, old(members), members)
      ensures Scheduled(old(worker)) && ok ==> HeldAfter(old(worker), worker, order, clusterDeleted)
      ensures Scheduled(old(worker)) && ok && !clusterDeleted ==> TargetGone(old(worker), order, members)
      ensures clusterDeleted ==> members == old(members)
      ensures Scheduled(old(worker)) ==>
        SucceedsExactly(ok, old(worker), old(members), order, clusterDeleted, podDeleted, attempts, etcdDeleted, cleaned)
      ensures Scheduled(old(worker)) ==> CameTo(old(worker), order, worker) && FilesKept(old(worker), worker)
      ensures Scheduled(old(worker)) ==> StopsThere(old(worker), order, worker, podDeleted, etcdDeleted, cleaned)
      ensures Scheduled(old(worker)) && !podDeleted ==> members == old(members)
      ensures Scheduled(old(worker)) && !RemovesIfAsked(old(worker), old(members), order, clusterDeleted, attempts) ==>
        LeftAt(old(worker), order, worker)
    {
      if !Scheduled(worker) { return true; }
      ok := DeleteScheduled(podDeleted, attempts, etcdDeleted, cleaned);
      OtherFilesStay(old(worker), order, worker);
    }

    method DeleteScheduled(podDeleted: bool, attempts: seq<Attempt>, etcdDeleted: bool, cleaned: bool) returns (ok: bool)
      requires Deletable(worker) && UniqueMembers(members) && |attempts| == ATTEMPTS
      modifies this`worker, this`members
      ensures Deletable(worker) && Moves(old(worker), worker) && MembersAfter(old(worker), order, old(members), members)
      ensures ok ==> HeldAfter(old(worker), worker, order, clusterDeleted)
      ensures ok && !clusterDeleted ==> TargetGone(old(worker), order, members)
      ensures clusterDeleted ==> members == old(members)
      ensures SucceedsExactly(ok, old(worker), old(members), order, clusterDeleted, podDeleted, attempts, etcdDeleted, cleaned)
      ensures CameTo(old(worker), order, worker)
      ensures StopsThere(old(worker), order, worker, podDeleted, etcdDeleted, cleaned)
      ensures !podDeleted ==> members == old(members)
      ensures !RemovesIfAsked(old(worker), old(members), order, clusterDeleted, attempts) ==> LeftAt(old(worker), order, worker)
    {
      ok := LeaveCluster(podDeleted, attempts);
      LeftFiles(old(worker), order, worker);
      LeftTargetFiles(old(worker), order, worker);
      ghost var w1 := worker;
      if ok {
        ok := Finish(etcdDeleted, cleaned, old(worker));
        StoppedTargetFiles(w1);
      }
    }

    /** The finalizer goes exactly with a deletion that succeeds, and no other finalizer goes. */
    method DeleteComponent(podDeleted: bool, attempts: seq<Attempt>, etcdDeleted: bool, cleaned: bool, finalizers: seq<string>)
      returns (ok: bool, remaining: seq<string>)
      requires Scheduled(worker) ==> Deletable(worker)
      requires UniqueMembers(members) && |attempts| == ATTEMPTS
      modifies this`worker, this`members
      ensures forall f :: f in remaining <==> f in finalizers && !(ok && f == CLEANUP_FINALIZER)
      ensures !Scheduled(old(worker)) ==> ok
      ensures Scheduled(old(worker)) ==>
        && SucceedsExactly(ok, old(worker), old(members), order, clusterDeleted, podDeleted, attempts, etcdDeleted, cleaned)
        && Moves(old(worker), worker) && MembersAfter(old(worker), order, old(members), members)
      ensures Scheduled(old(worker)) && ok ==>
        HeldAfter(old(worker), worker, order, clusterDeleted) && (!clusterDeleted ==> TargetGone(old(worker), order, members))
    {
      ok := ReconcileDeletion(podDeleted, attempts, etcdDeleted, cleaned);
      remaining := if ok then RemoveFinalizer(finalizers) else finalizers;
      RemovedFinalizers(finalizers);
    }

    method Finish(etcdDeleted: bool, cleaned: bool, ghost start: Worker) returns (ok: bool)
      requires Deletable(worker) && Scheduled(start) && Moves(start, worker) && API_SERVER !in worker.components[worker.target].ports
      requires StraysLeft(start, worker, order, clusterDeleted)
      modifies this`worker
      ensures Deletable(worker) && Moves(start, worker)
      ensures ok == (etcdDeleted && cleaned)
      ensures worker == if !etcdDeleted then old(worker) else if !cleaned then EtcdStopped(old(worker)) else CleanedUp(EtcdStopped(old(worker)))
      ensures worker == old(worker) || worker == EtcdStopped(old(worker)) || worker == CleanedUp(EtcdStopped(old(worker)))
      ensures ok ==> HeldAfter(start, worker, order, clusterDeleted)
    {
      ok := StopEtcd(etcdDeleted);
      MovesOn(start, old(worker), worker);
      if ok {
        NoneRecorded(old(worker), worker);
        StraysStillLeft(start, old(worker), worker, order, clusterDeleted);
        ok := FinishOnHost(cleaned, start);
      }
    }

    method FinishOnHost(cleaned: bool, ghost start: Worker) returns (ok: bool)
      requires Deletable(worker) && Scheduled(start) && Moves(start, worker) && NoneOfThree(worker)
      requires StraysLeft(start, worker, order, clusterDeleted)
      modifies this`worker
      ensures Deletable(worker) && Moves(start, worker) && ok == cleaned
      ensures worker == if ok then CleanedUp(old(worker)) else old(worker)
      ensures ok ==> HeldAfter(start, worker, order, clusterDeleted)
    {
      ok := HostCleanup(cleaned);
      MovesOn(start, old(worker), worker);
      if ok {
        StraysStillLeft(start, old(worker), worker, order, clusterDeleted);
        HeldInTheEnd(start, worker, order, clusterDeleted);
      }
    }
  }

  // ---------------------------------------------------------------------------------------------
  // Where a deletion goes wrong

  /** Tables with these allocations there are: from a fresh hypervisor different keys are granted one after the other. */
  lemma {:induction false} Grants(keys: seq<PortKey>) returns (t: PortTable)
    requires |keys| < 10 && Distinct(keys)
    ensures Valid(t) && Held(t).Keys == (set k | k in keys) && |t.allocations| == |keys| && t.low == 30000 && t.high == 30009
  {
    if keys == [] {
      t := Empty(30000, 30009);
      EmptyIsValid(30000, 30009);
    } else {
      var init, key := keys[..|keys| - 1], keys[|keys| - 1];
      var t1 := Grants(init);
      GrantWhileRoom(t1, key);
      t := Step(t1, RequestOp(key));
      assert keys == init + [key];
    }
  }

  /** The hypervisor was written and the component was not, and then the component was deleted. */
  ghost predicate IsInterrupted(w: Worker) {
    && Deletable(w) && w.components[w.target].ports == map[]
    && Stray(w, API_SERVER) && Stray(w, ETCD_PEER) && Stray(w, ETCD_CLIENT)
  }

  /** A peer port held without record is found once it is asked for. */
  lemma {:induction false} StrayGivesUrl(w: Worker, order: seq<ComponentId>)
    requires Deletable(w) && Stray(w, ETCD_PEER)
    ensures UrlKnown(PeerWorker(w, order))
  {
    var w1 := FreeIn(w, API_SERVER);
    FreedIsReleased(w, API_SERVER);
    assert Stray(w1, ETCD_PEER);
    var base := AskAll(w1, order);
    AskAllMoves(w1, order);
    StraysStay(w1, base);
    assert Stray(base, ETCD_PEER);
    RequestInCases(base, base.target, ETCD_PEER);
    RequestEffect(TargetTable(base), TargetKey(base, ETCD_PEER));
  }

  /** After an interrupted reservation every step of the deletion succeeds, and its ports stay held: the peer port too, unless
      some member was asked. */
  method DeleteInterrupted(before: Worker, members: seq<EtcdMember>, order: seq<ComponentId>, clusterDeleted: bool)
    returns (ok: bool, after: Worker)
    requires IsInterrupted(before) && UniqueMembers(members)
    ensures ok && Scheduled(after) && !NothingHeld(after)
    ensures IsHeld(after, API_SERVER) && IsHeld(after, ETCD_CLIENT)
    ensures IsHeld(after, ETCD_PEER) <==> !AsksMembers(before, order, clusterDeleted)
  {
    var deletion := new ControlPlaneDeletion(before, members, order, clusterDeleted);
    StrayGivesUrl(before, order);
    var attempts := seq(ATTEMPTS, _ => Attempt(true, true, true, true));
    assert IsDone(attempts[0], IsPresent(PeerWorker(before, order), members));
    ok := deletion.ReconcileDeletion(true, attempts, true, true);
    after := deletion.worker;
  }

  /** The etcd of the target was stopped and its peer port freed, but the component still records it, and meanwhile another
      control plane, which is up, got that port. */
  ghost predicate IsTaken(w: Worker, other: ComponentId) {
    && Deletable(w) && UrlKnown(w) && AddressesApart(w.hypervisors)
    && other != w.target && IsLive(w, other) && ETCD_CLIENT in w.components[other].ports
    && HasPeerPort(w, other) && TookPeerPort(w, other)
  }

  lemma {:induction false} TakenIsAsked(w: Worker, other: ComponentId, members: seq<EtcdMember>, attempts: seq<Attempt>)
    requires IsTaken(w, other) && |attempts| > 0 && attempts[0] == Attempt(true, true, true, true)
    ensures AsksMembers(w, [other], false) && Removes(FreeIn(w, API_SERVER), members, [other], attempts)
  {
    assert other in [other];
    assert LiveEndpoint(w, [other]);
    LiveMemberIsAsked(w, [other]);
    FreedIsReleased(w, API_SERVER);
    FreeKeepsPeerUrl(w);
    RecordedDecides(FreeIn(w, API_SERVER), members, [other], attempts);
    assert IsDone(attempts[0], IsPresent(FreeIn(w, API_SERVER), members));
  }

  /** The retried deletion succeeds, and removes the member of the other control plane. */
  method RetryRemovesAnother(before: Worker, other: ComponentId, member: EtcdMember) returns (ok: bool, after: seq<EtcdMember>)
    requires IsTaken(before, other) && member.peerUrls == [UrlOf(before.hypervisors, before.components[other], ETCD_PEER)]
    ensures ok && member !in after
  {
    var deletion := new ControlPlaneDeletion(before, [member], [other], false);
    var attempts := seq(ATTEMPTS, _ => Attempt(true, true, true, true));
    TakenIsAsked(before, other, [member], attempts);
    ok := deletion.ReconcileDeletion(true, attempts, true, true);
    after := deletion.members;
    RecordedUrl(before, [other]);
    TakenMemberGoes(before, after, other, member);
  }

  // ---------------------------------------------------------------------------------------------
  // The deletion of a control plane ingress

  /** The wireguard port is freed only if the cluster has a VPN at the time of the deletion. */
  function IngressStopped(w: Worker, vpn: bool): Worker
    requires Scheduled(w)
  {
    if vpn then FreeIn(FreeIn(w, API_SERVER), WIREGUARD) else FreeIn(w, API_SERVER)
  }

  /** What an ingress may leave held: its strays, and its wireguard port once the VPN is disabled. */
  ghost predicate IngressHeldAfter(w: Worker, w': Worker, vpn: bool)
    requires Scheduled(w)
  {
    && (Released(w', API_SERVER) <==> !Stray(w, API_SERVER))
    && (Released(w', WIREGUARD) <==> !Stray(w, WIREGUARD) && (vpn || WIREGUARD !in w.components[w.target].ports))
  }

  /** Exactly the strays are held afterwards, and a recorded wireguard port if the VPN is disabled by then. */
  lemma {:induction false} IngressReleases(w: Worker, vpn: bool)
    requires Deletable(w)
    ensures var w' := IngressStopped(w, vpn); Deletable(w') && Moves(w, w') && IngressHeldAfter(w, w', vpn)
  {
    FreedIsReleased(w, API_SERVER);
    var w1 := FreeIn(w, API_SERVER);
    assert Stray(w1, WIREGUARD) <==> Stray(w, WIREGUARD);
    if vpn { IngressVpnReleases(w, w1); }
  }

  lemma {:induction false} IngressVpnReleases(w: Worker, w1: Worker)
    requires Scheduled(w) && Moves(w, w1) && Deletable(w1) && SameStrays(w, w1) && API_SERVER !in w1.components[w1.target].ports
    ensures var w' := FreeIn(w1, WIREGUARD); Deletable(w') && Moves(w, w') && IngressHeldAfter(w, w', true)
  {
    FreedIsReleased(w1, WIREGUARD);
    MovesOn(w, w1, FreeIn(w1, WIREGUARD));
    assert Stray(w1, API_SERVER) <==> Stray(w, API_SERVER);
    assert Stray(w1, WIREGUARD) <==> Stray(w, WIREGUARD);
    assert Stray(FreeIn(w1, WIREGUARD), API_SERVER) <==> Stray(w1, API_SERVER);
  }

  /** An ingress with both its ports on a hypervisor that holds nothing else. */
  function IngressWorker(id: ComponentId, cluster: string, t: PortTable, api: int, wireguard: int): Worker {
    var h := HypervisorObject(1, true, "10.0.0.1", t, map[]);
    var c := ComponentObject(2, ControlPlaneIngress, cluster, "public", true, [CLEANUP_FINALIZER],
                             map[API_SERVER := api, WIREGUARD := wireguard], "");
    Worker(id, false, true, Work, Local, map["public" := h], map["public" := h], map[id := c], map[id := c])
  }

  /** Its VPN disabled, a deleted ingress leaves its wireguard port behind. */
  lemma {:induction false} IngressLeaksWireguard(id: ComponentId, cluster: string) returns (w: Worker)
    ensures w.target == id && Deletable(w) && !Stray(w, API_SERVER) && !Stray(w, WIREGUARD)
    ensures !Released(IngressStopped(w, false), WIREGUARD)
  {
    var k1, k2 := KeyOf(id, cluster, API_SERVER), KeyOf(id, cluster, WIREGUARD);
    if k1 == k2 { KeysNeverClash(id, cluster, API_SERVER, id, cluster, WIREGUARD); }
    var t := Grants([k1, k2]);
    assert k1 in [k1, k2] && k2 in [k1, k2];
    w := IngressWorker(id, cluster, t, Held(t)[k1], Held(t)[k2]);
    IngressReleases(w, false);
  }

  lemma {:induction false} IngressFiles(w: Worker)
    requires Scheduled(w)
    ensures FilesGoOn(w, Freed(w, API_SERVER)) && FilesGoOn(w, Freed(Freed(w, API_SERVER), WIREGUARD))
  {
    FreedFiles(w, API_SERVER);
    FreedFiles(Freed(w, API_SERVER), WIREGUARD);
    FilesKeptOn(w, Freed(w, API_SERVER), Freed(Freed(w, API_SERVER), WIREGUARD));
  }

  class IngressDeletion {
    var worker: Worker
    const vpn: bool

    constructor (worker: Worker, vpn: bool)
      ensures this.worker == worker && this.vpn == vpn
    {
      this.worker, this.vpn := worker, vpn;
    }

    /** The deletion of an ingress loses no port of another component, and releases all of its own that were recorded exactly
        when the cluster still has its VPN or the ingress had no wireguard port. */
    method ReconcileDeletion(podDeleted: bool, cleaned: bool) returns (ok: bool)
      requires Scheduled(worker) ==> Deletable(worker)
      modifies this`worker
      ensures !Scheduled(old(worker)) ==> ok && worker == old(worker)
      ensures Scheduled(old(worker)) ==> Deletable(worker) && Moves(old(worker), worker)
      ensures Scheduled(old(worker)) && ok ==> NoFiles(worker) && IngressHeldAfter(old(worker), worker, vpn)
      ensures Scheduled(old(worker)) ==> FilesKept(old(worker), worker)
      ensures Scheduled(old(worker)) ==> ok == (podDeleted && cleaned)
      ensures Scheduled(old(worker)) && !podDeleted ==> worker == old(worker)
      ensures Scheduled(old(worker)) && !cleaned ==> TargetFiles(worker) == TargetFiles(old(worker))
    {
      if !Scheduled(worker) { return true; }
      ok := Stop(podDeleted);
      ghost var w1 := worker;
      if ok {
        ok := HostCleanup(cleaned, old(worker));
        FilesKeptOn(old(worker), w1, worker);
      }
    }

    method Stop(podDeleted: bool) returns (ok: bool)
      requires Deletable(worker)
      modifies this`worker
      ensures Deletable(worker) && Moves(old(worker), worker)
      ensures ok == podDeleted && (ok ==> IngressHeldAfter(old(worker), worker, vpn)) && FilesGoOn(old(worker), worker)
      ensures (!ok ==> worker == old(worker)) && TargetFiles(worker) == TargetFiles(old(worker))
      ensures ok ==>
        var more := HeldPort(old(worker), API_SERVER) + if vpn then HeldPort(old(worker), WIREGUARD) else [];
        TargetTable(worker).freed == TargetTable(old(worker)).freed + more
    {
      IngressReleases(worker, vpn);
      MovesReflexive(worker);
      SameFilesKept(worker, worker);
      FreedIsLast(worker, API_SERVER);
      FreedInOrder(worker, API_SERVER, WIREGUARD);
      IngressFiles(worker);
      ok := podDeleted;
      if ok {
        worker := FreeIn(worker, API_SERVER);
        if vpn { worker := FreeIn(worker, WIREGUARD); }
      }
    }

    method HostCleanup(cleaned: bool, ghost start: Worker) returns (ok: bool)
      requires Deletable(worker) && Moves(start, worker)
      modifies this`worker
      ensures Deletable(worker) && Moves(start, worker)
      ensures ok == cleaned && (ok ==> NoFiles(worker)) && FilesGoOn(old(worker), worker)
      ensures !ok ==> worker == old(worker)
      ensures forall n :: IsPortName(n) ==> Released(worker, n) == Released(old(worker), n)
    {
      ok := cleaned;
      SameFilesKept(worker, worker);
      if ok {
        ForgetMoves(worker);
        CleanedFiles(worker);
        MovesOn(start, worker, ForgetIn(worker));
        worker := ForgetIn(worker);
      }
    }
  }
}
