/** The cluster controller: brings the number of control planes to the desired one and the number of ingresses to one. */
module Replicas {
  import opened Components

  datatype Replica = Replica(role: Role, deleted: bool)

  /** The answer to one call of the API server: a call that fails may have been carried out all the same. */
  datatype Outcome = Outcome(ok: bool, applied: bool, newName: string)

  datatype Result = Finished | Requeued | Panicked

  type Listing = map<string, Replica>

  /** The components of a role that are not being deleted. */
  function Undeleted(components: Listing, role: Role): set<string> {
    set n | n in components && components[n].role == role && !components[n].deleted
  }

  function Count(components: Listing, role: Role): nat {
    |Undeleted(components, role)|
  }

  function Abs(n: int): nat {
    if n < 0 then -n else n
  }

  function Distance(components: Listing, desired: int): nat {
    Abs(Count(components, ControlPlane) - desired) + Abs(Count(components, ControlPlaneIngress) - 1)
  }

  /** The API server carries out every call from here on, and gives every new component a name of its own. */
  ghost predicate AllGoWell(components: Listing, outcomes: nat -> Outcome, calls: nat) {
    && (forall k :: k >= calls ==> outcomes(k).ok && outcomes(k).newName !in components)
    && (forall j, k :: calls <= j < k ==> outcomes(j).newName != outcomes(k).newName)
  }

  ghost predicate OthersSame(x: Listing, y: Listing, role: Role) {
    forall r :: r != role ==> Undeleted(y, r) == Undeleted(x, r)
  }

  /** Every component at most once, and exactly those of a role not being deleted. */
  ghost predicate ListsAll(names: seq<string>, all: set<string>) {
    && (forall i, j :: 0 <= i < j < |names| ==> names[i] != names[j])
    && (forall n :: n in names <==> n in all)
  }

  lemma {:induction false} ListsAllSize(names: seq<string>, all: set<string>)
    requires ListsAll(names, all)
    ensures |names| == |all|
    decreases |names|
  {
    if names == [] {
      assert all == {};
    } else {
      var rest := names[1..];
      forall n | n in all - {names[0]} ensures n in rest {
        var i :| 0 <= i < |names| && names[i] == n;
        assert rest[i - 1] == n;
      }
      forall n | n in rest ensures n in all - {names[0]} {
        var i :| 0 <= i < |rest| && rest[i] == n;
        assert names[i + 1] == n;
      }
      ListsAllSize(rest, all - {names[0]});
    }
  }

  lemma {:induction false} CreatedOne(x: Listing, name: string, role: Role)
    requires name !in x
    ensures var y := x[name := Replica(role, false)];
      && Undeleted(y, role) == Undeleted(x, role) + {name} && Count(y, role) == Count(x, role) + 1
      && OthersSame(x, y, role)
  {
    CreatedOthers(x, name, role);
    CreatedSame(x, name, role);
  }

  lemma {:induction false} CreatedSame(x: Listing, name: string, role: Role)
    requires name !in x
    ensures Undeleted(x[name := Replica(role, false)], role) == Undeleted(x, role) + {name}
  {
  }

  lemma {:induction false} CreatedOthers(x: Listing, name: string, role: Role)
    requires name !in x
    ensures OthersSame(x, x[name := Replica(role, false)], role)
  {
    var y := x[name := Replica(role, false)];
    forall r | r != role ensures Undeleted(y, r) == Undeleted(x, r) {
      forall n ensures n in Undeleted(y, r) <==> n in Undeleted(x, r) { }
    }
  }

  lemma {:induction false} DeletedOne(x: Listing, name: string)
    requires name in x
    ensures var y := x[name := x[name].(deleted := true)];
      && Undeleted(y, x[name].role) == Undeleted(x, x[name].role) - {name}
      && OthersSame(x, y, x[name].role)
  {
  }

  /** No component disappears, changes its role, or is no longer being deleted. */
  ghost predicate OnlyMarks(x: Listing, y: Listing) {
    forall n :: n in x ==> n in y && y[n].role == x[n].role && (x[n].deleted ==> y[n].deleted)
  }

  /** Only some of the first `k` listed components may have been marked; all else is as it was. */
  ghost predicate MarkedUpTo(x: Listing, y: Listing, names: seq<string>, k: nat) {
    x.Keys == y.Keys && forall n :: MarkedAt(x, y, names, k, n)
  }

  predicate MarkedAt(x: Listing, y: Listing, names: seq<string>, k: nat, n: string) {
    n in x && n in y ==> y[n] == x[n] || (y[n] == x[n].(deleted := true) && n in names[..if k < |names| then k else |names|])
  }

  /** Of the listed components exactly the first `k` are marked. */
  ghost predicate FirstMarked(y: Listing, names: seq<string>, k: nat) {
    forall j :: IsFirstMarked(y, names, k, j)
  }

  predicate IsFirstMarked(y: Listing, names: seq<string>, k: nat, j: int) {
    0 <= j < |names| ==> names[j] in y && (y[names[j]].deleted <==> j < k)
  }

  lemma {:induction false} NoneMarked(x: Listing, names: seq<string>, role: Role)
    requires ListsAll(names, Undeleted(x, role))
    ensures MarkedUpTo(x, x, names, 0) && FirstMarked(x, names, 0)
  {
    forall j ensures IsFirstMarked(x, names, 0, j) { assert 0 <= j < |names| ==> names[j] in names; }
  }

  lemma {:induction false} OneMarked(x: Listing, y: Listing, names: seq<string>, i: nat, all: set<string>)
    requires i < |names| && names[i] in y && ListsAll(names, all)
    requires MarkedUpTo(x, y, names, i) && FirstMarked(y, names, i)
    ensures var z := y[names[i] := y[names[i]].(deleted := true)];
      MarkedUpTo(x, y, names, i + 1) && MarkedUpTo(x, z, names, i + 1) && FirstMarked(z, names, i + 1)
  {
    var z := y[names[i] := y[names[i]].(deleted := true)];
    assert names[..i + 1] == names[..i] + [names[i]];
    var k := i + 1;
    forall n ensures MarkedAt(x, y, names, k, n) && MarkedAt(x, z, names, k, n) { assert MarkedAt(x, y, names, i, n); }
    forall j ensures IsFirstMarked(z, names, k, j) { assert IsFirstMarked(y, names, i, j); }
  }

  lemma {:induction false} MarkedMore(x: Listing, y: Listing, names: seq<string>, i: nat, k: nat)
    requires i <= k && MarkedUpTo(x, y, names, i)
    ensures MarkedUpTo(x, y, names, k) && OnlyMarks(x, y)
  {
    forall n ensures MarkedAt(x, y, names, k, n) && (n in x ==> y[n].role == x[n].role && (x[n].deleted ==> y[n].deleted)) {
      assert MarkedAt(x, y, names, i, n);
    }
  }

  class Controller {
    /** The components of the cluster, as the API server has them. */
    var components: Listing
    /** The number of calls made, the number of those that failed, and what becomes of each. */
    var calls: nat
    var failures: nat
    const outcomes: nat -> Outcome

    constructor (components: Listing, outcomes: nat -> Outcome)
      ensures this.components == components && this.outcomes == outcomes && calls == 0 && failures == 0
    {
      this.components, this.outcomes, calls, failures := components, outcomes, 0, 0;
    }

    method Create(role: Role) returns (ok: bool)
      modifies this
      ensures calls == old(calls) + 1 && OthersSame(old(components), components, role)
      ensures components == old(components) || components == old(components)[outcomes(old(calls)).newName := Replica(role, false)]
      ensures forall n :: n in old(components) ==> n in components && components[n] == old(components)[n]
      ensures old(Count(components, role)) <= Count(components, role) <= old(Count(components, role)) + 1
      ensures ok ==> Count(components, role) == old(Count(components, role)) + 1
      ensures ok <==> outcomes(old(calls)).ok && outcomes(old(calls)).newName !in old(components)
      ensures failures == old(failures) + if ok then 0 else 1
      ensures old(AllGoWell(components, outcomes, calls)) ==> AllGoWell(components, outcomes, calls) && failures == old(failures)
    {
      var outcome := outcomes(calls);
      calls := calls + 1;
      ok := outcome.ok && outcome.newName !in components;
      if !ok { failures := failures + 1; }
      if outcome.newName !in components && (outcome.ok || outcome.applied) {
        CreatedOne(components, outcome.newName, role);
        components := components[outcome.newName := Replica(role, false)];
      }
    }

    /** Deleting sets the deletion timestamp; the component stays until its finalizer is gone. */
    method Delete(name: string) returns (ok: bool)
      requires name in components
      modifies this
      ensures calls == old(calls) + 1 && components.Keys == old(components).Keys && ok == outcomes(old(calls)).ok
      ensures components == old(components) || components == old(components)[name := old(components)[name].(deleted := true)]
      ensures ok ==> components == old(components)[name := old(components)[name].(deleted := true)]
      ensures failures == old(failures) + if ok then 0 else 1
      ensures old(AllGoWell(components, outcomes, calls)) ==> AllGoWell(components, outcomes, calls) && failures == old(failures)
    {
      var outcome := outcomes(calls);
      calls := calls + 1;
      if !outcome.ok { failures := failures + 1; }
      if outcome.ok || outcome.applied { components := components[name := components[name].(deleted := true)]; }
      return outcome.ok;
    }

    /** The components of a role that are not being deleted, in no particular order. */
    method List(role: Role) returns (names: seq<string>)
      ensures ListsAll(names, Undeleted(components, role)) && |names| == Count(components, role)
    {
      names := [];
      var left := Undeleted(components, role);
      while left != {}
        invariant left <= Undeleted(components, role)
        invariant ListsAll(names, Undeleted(components, role) - left)
        decreases left
      {
        var name :| name in left;
        names := names + [name];
        left := left - {name};
      }
      assert Undeleted(components, role) - left == Undeleted(components, role);
      ListsAllSize(names, Undeleted(components, role));
    }

    method CreateMissing(role: Role, missing: nat) returns (ok: bool)
      modifies this
      ensures old(AllGoWell(components, outcomes, calls)) ==> AllGoWell(components, outcomes, calls) && failures == old(failures)
      ensures OthersSame(old(components), components, role)
      ensures forall n :: n in old(components) ==> n in components && components[n] == old(components)[n]
      ensures old(Count(components, role)) <= Count(components, role) <= old(Count(components, role)) + missing
      ensures ok ==> Count(components, role) == old(Count(components, role)) + missing
      ensures ok <==> failures == old(failures)
      ensures old(failures) <= failures <= old(failures) + 1
    {
      for i := 0 to missing
        invariant failures == old(failures)
        invariant old(AllGoWell(components, outcomes, calls)) ==> AllGoWell(components, outcomes, calls)
        invariant OthersSame(old(components), components, role)
        invariant forall n :: n in old(components) ==> n in components && components[n] == old(components)[n]
        invariant Count(components, role) == old(Count(components, role)) + i
      {
        ok := Create(role);
        if !ok { return; }
      }
      return true;
    }

    /** Deletes the first of the listed components; asking for more than there are panics, once all are deleted. */
    method DeleteExcess(role: Role, names: seq<string>, excess: nat) returns (result: Result)
      requires ListsAll(names, Undeleted(components, role)) && |names| == Count(components, role)
      modifies this
      ensures old(AllGoWell(components, outcomes, calls)) ==> AllGoWell(components, outcomes, calls) && failures == old(failures)
      ensures OthersSame(old(components), components, role)
      ensures excess == 0 ==> result == Finished && components == old(components) && calls == old(calls)
      ensures MarkedUpTo(old(components), components, names, excess) && OnlyMarks(old(components), components)
      ensures result == Finished ==> FirstMarked(components, names, excess)
      ensures |names| - excess <= Count(components, role) <= |names|
      ensures result == Finished ==> Count(components, role) == |names| - excess
      ensures result == Panicked ==> excess > |names| && Count(components, role) == 0
      ensures result == Requeued <==> failures > old(failures)
      ensures failures == old(failures) ==> result == if excess > |names| then Panicked else Finished
      ensures old(failures) <= failures <= old(failures) + 1
    {
      result := Finished;
      NoneMarked(components, names, role);
      for i := 0 to excess
        invariant i <= |names| && failures == old(failures)
        invariant old(AllGoWell(components, outcomes, calls)) ==> AllGoWell(components, outcomes, calls)
        invariant i == 0 ==> components == old(components) && calls == old(calls)
        invariant OthersSame(old(components), components, role)
        invariant MarkedUpTo(old(components), components, names, i) && FirstMarked(components, names, i)
        invariant ListsAll(names[i..], Undeleted(components, role))
        invariant Count(components, role) == |names| - i
      {
        MarkedMore(old(components), components, names, i, excess);
        if i == |names| { return Panicked; }
        assert names[i] in names[i..];
        OneMarked(old(components), components, names, i, old(Undeleted(components, role)));
        DeletedOne(components, names[i]);
        NextListed(names, i, Undeleted(components, role));
        var ok := Delete(names[i]);
        MarkedMore(old(components), components, names, i + 1, excess);
        if !ok { return Requeued; }
      }
      MarkedMore(old(components), components, names, excess, excess);
    }

    /** One pass over a cluster that is not being deleted. It finishes exactly when no call fails, and then the numbers are
        as desired, and from then on it makes no call; it ends with the first call that fails, and cut short anywhere it is no
        further from its goal than before. A negative number of replicas deletes every control plane and then panics. */
    method Reconcile(desired: int) returns (result: Result)
      modifies this
      ensures old(AllGoWell(components, outcomes, calls)) ==> AllGoWell(components, outcomes, calls) && failures == old(failures)
      ensures result == Finished ==> Count(components, ControlPlane) == desired && Count(components, ControlPlaneIngress) == 1
      ensures Distance(components, desired) <= old(Distance(components, desired))
      ensures old(Distance(components, desired)) == 0 ==>
        result == Finished && components == old(components) && calls == old(calls)
      ensures result == Panicked ==> desired < 0 && Count(components, ControlPlane) == 0
      ensures failures == old(failures) ==> result == if desired < 0 then Panicked else Finished
      ensures result == Requeued <==> failures > old(failures)
      ensures old(failures) <= failures <= old(failures) + 1
      ensures Undeleted(components, UnknownRole) == old(Undeleted(components, UnknownRole))
      ensures OnlyMarks(old(components), components)
    {
      var planes := List(ControlPlane);
      var ingresses := List(ControlPlaneIngress);
      if desired > |planes| {
        var ok := CreateMissing(ControlPlane, desired - |planes|);
        if !ok { return Requeued; }
      } else {
        result := DeleteExcess(ControlPlane, planes, |planes| - desired);
        if result != Finished { return; }
      }
      assert ListsAll(ingresses, Undeleted(components, ControlPlaneIngress));
      result := ReconcileIngress(ingresses);
    }

    /** Any number of passes, whatever fails in them. Fewer failed calls than passes are enough to get there. */
    method Passes(desired: int, n: nat) returns (finished: bool)
      modifies this
      ensures old(AllGoWell(components, outcomes, calls)) ==> AllGoWell(components, outcomes, calls) && failures == old(failures)
      ensures Distance(components, desired) <= old(Distance(components, desired))
      ensures finished ==> Distance(components, desired) == 0
      ensures desired >= 0 && n > 0 && failures == old(failures) ==> finished
      ensures failures >= old(failures)
      ensures desired >= 0 && failures - old(failures) < n ==> finished
      ensures old(Distance(components, desired)) == 0 ==> components == old(components) && calls == old(calls)
    {
      finished := false;
      for i := 0 to n
        invariant Distance(components, desired) <= old(Distance(components, desired))
        invariant finished ==> Distance(components, desired) == 0
        invariant failures >= old(failures)
        invariant old(AllGoWell(components, outcomes, calls)) ==> AllGoWell(components, outcomes, calls) && failures == old(failures)
        invariant desired >= 0 && !finished ==> failures >= old(failures) + i
        invariant old(Distance(components, desired)) == 0 ==> components == old(components) && calls == old(calls)
      {
        var result := Reconcile(desired);
        finished := finished || result == Finished;
      }
    }

    /** A pass over a cluster that is being deleted: deletes whatever there is, and creates nothing. */
    method ReconcileDeletion(names: seq<string>) returns (result: Result)
      requires forall n :: n in names <==> n in components
      modifies this
      ensures old(AllGoWell(components, outcomes, calls)) ==> AllGoWell(components, outcomes, calls) && failures == old(failures)
      ensures components.Keys == old(components).Keys && result != Panicked
      ensures forall n :: n in components ==>
        components[n].role == old(components)[n].role && (old(components)[n].deleted ==> components[n].deleted)
      ensures result == Finished ==> forall n :: n in components ==> components[n].deleted
      ensures result == Finished <==> failures == old(failures)
      ensures old(failures) <= failures <= old(failures) + 1
    {
      for i := 0 to |names|
        invariant components.Keys == old(components).Keys && failures == old(failures)
        invariant old(AllGoWell(components, outcomes, calls)) ==> AllGoWell(components, outcomes, calls)
        invariant forall n :: n in components ==>
          components[n].role == old(components)[n].role && (old(components)[n].deleted ==> components[n].deleted)
        invariant forall j :: 0 <= j < i ==> names[j] in components && components[names[j]].deleted
      {
        assert names[i] in names;
        var ok := Delete(names[i]);
        if !ok { return Requeued; }
      }
      return Finished;
    }

    method ReconcileIngress(ingresses: seq<string>) returns (result: Result)
      requires ListsAll(ingresses, Undeleted(components, ControlPlaneIngress)) && |ingresses| == Count(components, ControlPlaneIngress)
      modifies this
      ensures old(AllGoWell(components, outcomes, calls)) ==> AllGoWell(components, outcomes, calls) && failures == old(failures)
      ensures OthersSame(old(components), components, ControlPlaneIngress) && OnlyMarks(old(components), components)
      ensures result == Finished ==> Count(components, ControlPlaneIngress) == 1
      ensures result != Panicked
      ensures result == Finished <==> failures == old(failures)
      ensures old(failures) <= failures <= old(failures) + 1
      ensures Abs(Count(components, ControlPlaneIngress) - 1) <= Abs(|ingresses| - 1)
      ensures |ingresses| == 1 ==> result == Finished && components == old(components) && calls == old(calls)
    {
      if |ingresses| == 0 {
        var ok := CreateMissing(ControlPlaneIngress, 1);
        return if ok then Finished else Requeued;
      } else if |ingresses| > 1 {
        result := DeleteExcess(ControlPlaneIngress, ingresses, |ingresses| - 1);
      } else {
        return Finished;
      }
    }
  }

  lemma {:induction false} NextListed(names: seq<string>, i: nat, all: set<string>)
    requires i < |names| && ListsAll(names[i..], all)
    ensures ListsAll(names[i + 1..], all - {names[i]}) && names[i] in all && |all - {names[i]}| == |all| - 1
  {
    var tail, rest := names[i..], names[i + 1..];
    assert rest == tail[1..] && names[i] == tail[0];
    forall n | n in all - {names[i]} ensures n in rest {
      var j :| 0 <= j < |tail| && tail[j] == n;
      assert rest[j - 1] == n;
    }
    forall n | n in rest ensures n in all - {names[i]} {
      var j :| 0 <= j < |rest| && rest[j] == n;
      assert tail[j + 1] == n;
    }
  }
}
