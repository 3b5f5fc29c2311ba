/** A deletion on the copies of a worker is a run of the protocol. */
module DeletionRuns {
  import opened Components
  import opened Protocol
  import opened DeletionSteps

  /** The changes a deletion makes: it requests ports, frees those of the target, and drops the file record. */
  predicate IsDeletionStep(e: Event, k: nat) {
    (e.RequestPort? || e.FreePort? || e.ChangeFiles?) && e.worker == k
  }

  /** Such steps alone take worker `k` to these copies, and change nothing else. */
  ghost predicate Reaches(s: State, k: nat, w: Worker) {
    exists events :: IsDeletionRun(s, k, w, events)
  }

  ghost predicate IsDeletionRun(s: State, k: nat, w: Worker, events: seq<Event>) {
    (forall e :: e in events ==> IsDeletionStep(e, k)) && Execute(s, events) == SetWorker(s, k, w)
  }

  lemma {:induction false} ExecuteJoin(s: State, a: seq<Event>, b: seq<Event>)
    ensures Execute(s, a + b) == Execute(Execute(s, a), b)
    decreases |b|
  {
    if b == [] {
      assert a + b == a;
    } else {
      ExecuteJoin(s, a, b[..|b| - 1]);
      assert (a + b)[..|a + b| - 1] == a + b[..|b| - 1];
    }
  }

  lemma {:induction false} ReachesOn(s: State, k: nat, w1: Worker, w2: Worker)
    requires k in s.workers && Reaches(s, k, w1) && Reaches(SetWorker(s, k, w1), k, w2)
    ensures Reaches(s, k, w2)
  {
    var a :| IsDeletionRun(s, k, w1, a);
    var b :| IsDeletionRun(SetWorker(s, k, w1), k, w2, b);
    ExecuteJoin(s, a, b);
    assert SetWorker(SetWorker(s, k, w1), k, w2) == SetWorker(s, k, w2);
    assert IsDeletionRun(s, k, w2, a + b);
  }

  lemma {:induction false} ReachesSame(s: State, k: nat)
    requires k in s.workers
    ensures Reaches(s, k, s.workers[k])
  {
    assert SetWorker(s, k, s.workers[k]) == s;
    assert IsDeletionRun(s, k, s.workers[k], []);
  }

  lemma {:induction false} ReachesByStep(s: State, k: nat, w: Worker, e: Event)
    requires k in s.workers && IsDeletionStep(e, k) && Apply(s, e) == SetWorker(s, k, w)
    ensures Reaches(s, k, w)
  {
    assert [e][..0] == [];
    assert Execute(s, [e]) == Apply(s, e);
    assert IsDeletionRun(s, k, w, [e]);
  }

  /** The copies of a worker that reconciles the deletion of a control plane. */
  predicate Deleting(w: Worker) {
    && w.round == Work && w.stage == Local && Scheduled(w)
    && w.components[w.target].deleted && w.components[w.target].role == ControlPlane
  }

  lemma {:induction false} StillDeleting(w: Worker, w': Worker)
    requires Deleting(w) && Moves(w, w') && Scheduled(w')
    ensures Deleting(w')
  {
    assert SameAt(w.components, w'.components, w.target);
  }

  lemma {:induction false} AskOneReaches(s: State, k: nat, id: ComponentId)
    requires k in s.workers && Deleting(s.workers[k])
    ensures Reaches(s, k, AskOne(s.workers[k], id))
  {
    if IsLive(s.workers[k], id) {
      ReachesByStep(s, k, AskOne(s.workers[k], id), RequestPort(k, id, ETCD_CLIENT));
    } else {
      ReachesSame(s, k);
    }
  }

  lemma {:induction false} AskAllReaches(s: State, k: nat, order: seq<ComponentId>)
    requires k in s.workers && Deleting(s.workers[k]) && Deletable(s.workers[k])
    ensures Reaches(s, k, AskAll(s.workers[k], order))
    decreases |order|
  {
    var w := s.workers[k];
    if order == [] {
      ReachesSame(s, k);
    } else {
      var w1 := AskOne(w, order[0]);
      AskOneReaches(s, k, order[0]);
      AskOneAlong(w, order[0]);
      StillDeletable(w, w1);
      StillDeleting(w, w1);
      AskAllReaches(SetWorker(s, k, w1), k, order[1..]);
      ReachesOn(s, k, w1, AskAll(w, order));
    }
  }

  lemma {:induction false} FreedReaches(s: State, k: nat, name: string)
    requires k in s.workers && Deleting(s.workers[k]) && name in PortNames(ControlPlane, s.workers[k].vpn)
    ensures Reaches(s, k, Freed(s.workers[k], name))
  {
    ReachesByStep(s, k, Freed(s.workers[k], name), FreePort(k, name));
  }

  lemma {:induction false} PeerPortReaches(s: State, k: nat)
    requires k in s.workers && Deleting(s.workers[k])
    ensures Reaches(s, k, WithPeerPort(s.workers[k]))
  {
    ReachesByStep(s, k, WithPeerPort(s.workers[k]), RequestPort(k, s.workers[k].target, ETCD_PEER));
  }

  lemma {:induction false} CleanedUpReaches(s: State, k: nat)
    requires k in s.workers && Deleting(s.workers[k])
    ensures Reaches(s, k, CleanedUp(s.workers[k]))
  {
    var w := s.workers[k];
    var g := w.components[w.target].hypervisor;
    ReachesByStep(s, k, CleanedUp(w), ChangeFiles(k, g, ForgetIn(w).hypervisors[g].files));
  }

  lemma {:induction false} FreedOn(w: Worker, name: string)
    requires Deleting(w) && Deletable(w) && IsPortName(name)
    ensures Deleting(Freed(w, name)) && Deletable(Freed(w, name))
  {
    FreedIsReleased(w, name);
    StillDeleting(w, Freed(w, name));
  }

  lemma {:induction false} LeftAtReaches(s: State, k: nat, order: seq<ComponentId>, x: Worker)
    requires k in s.workers && Deleting(s.workers[k]) && Deletable(s.workers[k]) && LeftAt(s.workers[k], order, x)
    ensures Reaches(s, k, x) && Deleting(x) && Deletable(x)
  {
    var w := s.workers[k];
    var w1 := Freed(w, API_SERVER);
    FreedReaches(s, k, API_SERVER);
    FreedOn(w, API_SERVER);
    if x == w {
      ReachesSame(s, k);
    } else if x != w1 {
      var base := AskAll(w1, order);
      AskAllAlong(w1, order);
      StillDeletable(w1, base);
      StillDeleting(w1, base);
      AskAllReaches(SetWorker(s, k, w1), k, order);
      ReachesOn(s, k, w1, base);
      if x != base {
        PeerPortReaches(SetWorker(s, k, base), k);
        PeerRequestAlong(base);
        StillDeleting(base, x);
        ReachesOn(s, k, base, x);
      }
    }
  }

  lemma {:induction false} EtcdStoppedReaches(s: State, k: nat)
    requires k in s.workers && Deleting(s.workers[k]) && Deletable(s.workers[k])
    ensures Reaches(s, k, EtcdStopped(s.workers[k])) && Deleting(EtcdStopped(s.workers[k]))
  {
    var w := s.workers[k];
    var w1 := Freed(w, ETCD_PEER);
    FreedReaches(s, k, ETCD_PEER);
    FreedOn(w, ETCD_PEER);
    FreedReaches(SetWorker(s, k, w1), k, ETCD_CLIENT);
    FreedOn(w1, ETCD_CLIENT);
    ReachesOn(s, k, w1, EtcdStopped(w));
  }

  /** Wherever a deletion comes to, successful or not, worker `k` can get there in the protocol by requests, frees and the
      change of its file record alone. */
  lemma {:induction false} DeletionIsRun(s: State, k: nat, order: seq<ComponentId>, w: Worker)
    requires k in s.workers && Deleting(s.workers[k]) && Deletable(s.workers[k]) && CameTo(s.workers[k], order, w)
    ensures Reaches(s, k, w)
  {
    var x :| LeftAt(s.workers[k], order, x) && (w == x || w == EtcdStopped(x) || w == CleanedUp(EtcdStopped(x)));
    LeftAtReaches(s, k, order, x);
    if w != x {
      var y := EtcdStopped(x);
      EtcdStoppedReaches(SetWorker(s, k, x), k);
      ReachesOn(s, k, x, y);
      if w != y {
        CleanedUpReaches(SetWorker(s, k, y), k);
        ReachesOn(s, k, y, w);
      }
    }
  }
}
