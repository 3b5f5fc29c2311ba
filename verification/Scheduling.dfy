/** One pass of the component scheduler: its loop, and why what it does are the assignments of the protocol. */
module Scheduling {
  import opened Options
  import opened Components
  import opened Protocol

  datatype Unplaced = Unplaced(id: ComponentId, role: Role)

  /** The hypervisors to choose from: a component of unknown role is placed like the one before it. */
  function Choice(components: seq<Unplaced>, i: nat, privates: seq<string>, publics: seq<string>): seq<string>
    requires i <= |components|
  {
    if i == 0 then []
    else
      match components[i - 1].role
      case ControlPlane => privates
      case ControlPlaneIngress => publics
      case UnknownRole => Choice(components, i - 1, privates, publics)
  }

  /** A listing of the public, or of the private, hypervisors. */
  ghost predicate ListsHypervisors(list: seq<string>, hypervisors: map<string, HypervisorObject>, public: bool) {
    forall h :: h in list <==> h in hypervisors && hypervisors[h].public == public
  }

  method HypervisorsThatAre(public: bool, hypervisors: map<string, HypervisorObject>) returns (list: seq<string>)
    ensures ListsHypervisors(list, hypervisors, public)
  {
    list := [];
    var left := hypervisors.Keys;
    while left != {}
      invariant left <= hypervisors.Keys
      invariant forall h :: h in list <==> h in hypervisors && h !in left && hypervisors[h].public == public
      decreases left
    {
      var h :| h in left;
      left := left - {h};
      if hypervisors[h].public == public { list := list + [h]; }
    }
  }

  /** Places every component it can: one of known role exactly when there is a hypervisor for that role, one of unknown role
      exactly when the one before it is placed, and on the same kind of hypervisor. */
  method Place(components: seq<Unplaced>, hypervisors: map<string, HypervisorObject>, random: nat -> nat)
    returns (placed: seq<Option<string>>)
    ensures |placed| == |components|
    ensures forall i :: 0 <= i < |components| && placed[i].Some? ==>
      placed[i].value in hypervisors && Eligible(components[i].role, hypervisors[placed[i].value].public)
    ensures forall i :: 0 <= i < |components| && components[i].role != UnknownRole ==>
      (placed[i].Some? <==> exists h :: h in hypervisors && Eligible(components[i].role, hypervisors[h].public))
    ensures forall i :: 0 <= i < |components| && AllUnknown(components[..i + 1]) ==> placed[i].None?
    ensures forall i :: 0 < i < |components| && components[i].role == UnknownRole ==> PlacedAlike(placed[i - 1], placed[i], hypervisors)
  {
    var privates := HypervisorsThatAre(false, hypervisors);
    var publics := HypervisorsThatAre(true, hypervisors);
    var choice: seq<string> := [];
    placed := [];
    for i := 0 to |components|
      invariant |placed| == i
      invariant choice == Choice(components, i, privates, publics)
      invariant forall h :: h in choice ==> h in hypervisors
      invariant forall j :: 0 <= j < i ==> PlacedFrom(placed[j], Choice(components, j + 1, privates, publics))
    {
      match components[i].role {
        case ControlPlane => choice := privates;
        case ControlPlaneIngress => choice := publics;
        case UnknownRole =>
      }
      placed := placed + [if choice == [] then None else Some(choice[random(i) % |choice|])];
    }
    forall i | 0 <= i < |components| ensures PlacedByRole(components[i], placed[i], hypervisors) {
      ChoiceIsListed(components, i + 1, privates, publics, hypervisors);
      assert PlacedFrom(placed[i], Choice(components, i + 1, privates, publics));
    }
    forall i | 0 <= i < |components| && AllUnknown(components[..i + 1]) ensures placed[i].None? {
      NoChoice(components, i + 1, privates, publics);
      assert PlacedFrom(placed[i], Choice(components, i + 1, privates, publics));
    }
    forall i | 0 < i < |components| && components[i].role == UnknownRole ensures PlacedAlike(placed[i - 1], placed[i], hypervisors) {
      assert PlacedFrom(placed[i], Choice(components, i + 1, privates, publics));
      assert PlacedFrom(placed[i - 1], Choice(components, i - 1 + 1, privates, publics));
      ChoiceIsOneKind(components, i, privates, publics, hypervisors);
    }
  }

  predicate PlacedAlike(x: Option<string>, y: Option<string>, hypervisors: map<string, HypervisorObject>) {
    if x.Some? then y.Some? && x.value in hypervisors && y.value in hypervisors && hypervisors[x.value].public == hypervisors[y.value].public
    else y.None?
  }

  predicate AllUnknown(components: seq<Unplaced>) {
    forall j :: 0 <= j < |components| ==> components[j].role == UnknownRole
  }

  predicate PlacedFrom(placed: Option<string>, choice: seq<string>) {
    (placed.None? <==> choice == []) && (placed.Some? ==> placed.value in choice)
  }

  ghost predicate PlacedByRole(c: Unplaced, placed: Option<string>, hypervisors: map<string, HypervisorObject>) {
    && (placed.Some? ==> placed.value in hypervisors && Eligible(c.role, hypervisors[placed.value].public))
    && (c.role != UnknownRole ==>
          (placed.Some? <==> exists h :: h in hypervisors && Eligible(c.role, hypervisors[h].public)))
  }

  lemma {:induction false} NoChoice(components: seq<Unplaced>, i: nat, privates: seq<string>, publics: seq<string>)
    requires i <= |components| && AllUnknown(components[..i])
    ensures Choice(components, i, privates, publics) == []
  {
    if i == 0 {
    } else {
      assert components[..i][i - 1] == components[i - 1];
      assert components[..i - 1] == components[..i][..i - 1];
      NoChoice(components, i - 1, privates, publics);
    }
  }

  lemma {:induction false} ChoiceIsListed(components: seq<Unplaced>, i: nat, privates: seq<string>, publics: seq<string>,
                                          hypervisors: map<string, HypervisorObject>)
    requires 0 < i <= |components|
    requires ListsHypervisors(privates, hypervisors, false) && ListsHypervisors(publics, hypervisors, true)
    ensures var choice := Choice(components, i, privates, publics);
      && (forall h :: h in choice ==> h in hypervisors && Eligible(components[i - 1].role, hypervisors[h].public))
      && (components[i - 1].role != UnknownRole ==>
            forall h :: h in hypervisors && Eligible(components[i - 1].role, hypervisors[h].public) ==> h in choice)
  {
    if components[i - 1].role != UnknownRole || i == 1 {
    } else {
      ChoiceIsListed(components, i - 1, privates, publics, hypervisors);
    }
  }

  /** The hypervisors to choose from are all public, or all private. */
  lemma {:induction false} ChoiceIsOneKind(components: seq<Unplaced>, i: nat, privates: seq<string>, publics: seq<string>,
                                           hypervisors: map<string, HypervisorObject>)
    requires i <= |components|
    requires ListsHypervisors(privates, hypervisors, false) && ListsHypervisors(publics, hypervisors, true)
    ensures var choice := Choice(components, i, privates, publics);
      forall g, h :: g in choice && h in choice ==>
        g in hypervisors && h in hypervisors && hypervisors[g].public == hypervisors[h].public
  {
    if i == 0 || components[i - 1].role != UnknownRole {
    } else {
      ChoiceIsOneKind(components, i - 1, privates, publics, hypervisors);
    }
  }

  // ---------------------------------------------------------------------------------------------
  // The pass as a run of the protocol

  /** What the scheduler read, and where it places it. */
  ghost predicate IsPass(s: State, k: nat, components: seq<Unplaced>, placed: seq<Option<string>>) {
    && k in s.schedulers && s.schedulers[k].hypervisors.Some? && |placed| == |components|
    && (forall i, j :: 0 <= i < j < |components| ==> components[i].id != components[j].id)
    && (forall i :: 0 <= i < |components| ==>
          && components[i].id in s.schedulers[k].unscheduled
          && s.schedulers[k].unscheduled[components[i].id].role == components[i].role
          && PlacedByRole(components[i], placed[i], s.schedulers[k].hypervisors.value))
  }

  /** The update of one component: a write of the copy that was read, with the hypervisor set. */
  function Update(s: State, k: nat, id: ComponentId, placed: Option<string>): State {
    if placed.Some? && k in s.schedulers && id in s.schedulers[k].unscheduled then AssignTo(s, k, id, placed.value) else s
  }

  function Updated(s: State, k: nat, components: seq<Unplaced>, placed: seq<Option<string>>, n: nat): State
    requires n <= |components| == |placed|
  {
    if n == 0 then s else Update(Updated(s, k, components, placed, n - 1), k, components[n - 1].id, placed[n - 1])
  }

  function Assigns(k: nat, components: seq<Unplaced>, placed: seq<Option<string>>, n: nat): seq<Event>
    requires n <= |components| == |placed|
  {
    if n == 0 then []
    else Assigns(k, components, placed, n - 1)
         + if placed[n - 1].Some? then [Assign(k, components[n - 1].id, placed[n - 1].value)] else []
  }

  /** What the updates leave of the scheduler's snapshot: all that is yet to be placed. */
  lemma {:induction false} SnapshotKept(s: State, k: nat, components: seq<Unplaced>, placed: seq<Option<string>>, n: nat)
    requires IsPass(s, k, components, placed) && n <= |components|
    ensures var s' := Updated(s, k, components, placed, n);
      && k in s'.schedulers && s'.schedulers[k].hypervisors == s.schedulers[k].hypervisors
      && forall i :: n <= i < |components| ==>
           && components[i].id in s'.schedulers[k].unscheduled
           && s'.schedulers[k].unscheduled[components[i].id] == s.schedulers[k].unscheduled[components[i].id]
  {
    if n == 0 {
    } else {
      SnapshotKept(s, k, components, placed, n - 1);
      OneKept(Updated(s, k, components, placed, n - 1), k, components[n - 1].id, placed[n - 1]);
    }
  }

  lemma {:induction false} OneKept(s: State, k: nat, id: ComponentId, placed: Option<string>)
    requires k in s.schedulers
    ensures var s' := Update(s, k, id, placed);
      && k in s'.schedulers && s'.schedulers[k].hypervisors == s.schedulers[k].hypervisors
      && forall i :: i in s.schedulers[k].unscheduled && i != id ==>
           i in s'.schedulers[k].unscheduled && s'.schedulers[k].unscheduled[i] == s.schedulers[k].unscheduled[i]
  {
  }

  lemma {:induction false} UpdateIsAssign(s: State, k: nat, c: Unplaced, h: string)
    requires k in s.schedulers && c.id in s.schedulers[k].unscheduled && s.schedulers[k].unscheduled[c.id].role == c.role
    requires s.schedulers[k].hypervisors.Some? && PlacedByRole(c, Some(h), s.schedulers[k].hypervisors.value)
    ensures Update(s, k, c.id, Some(h)) == Apply(s, Assign(k, c.id, h))
  {
  }

  /** A pass is a run of the protocol: every update it makes is an assignment the protocol allows at that point. */
  lemma {:induction false} PassIsRun(s: State, k: nat, components: seq<Unplaced>, placed: seq<Option<string>>, n: nat)
    requires IsPass(s, k, components, placed) && n <= |components|
    ensures Updated(s, k, components, placed, n) == Execute(s, Assigns(k, components, placed, n))
  {
    if n == 0 {
    } else {
      PassIsRun(s, k, components, placed, n - 1);
      SnapshotKept(s, k, components, placed, n - 1);
      var before, c := Assigns(k, components, placed, n - 1), components[n - 1];
      if placed[n - 1].Some? {
        var e := Assign(k, c.id, placed[n - 1].value);
        assert (before + [e])[..|before|] == before;
        UpdateIsAssign(Updated(s, k, components, placed, n - 1), k, c, placed[n - 1].value);
      } else {
        assert before + [] == before;
      }
    }
  }

  lemma {:induction false} OtherUnchanged(s: State, k: nat, id: ComponentId, placed: Option<string>, other: ComponentId)
    requires other != id && other in s.store.components
    ensures other in Update(s, k, id, placed).store.components
    ensures Update(s, k, id, placed).store.components[other] == s.store.components[other]
  {
  }

  /** A component with the hypervisor set: nothing else of it changes but that, until it is deleted, it gets the cleanup
      finalizer besides those the scheduler read. */
  ghost predicate IsAssigned(c: ComponentObject, read: ComponentObject, c': ComponentObject, h: string) {
    && c' == c.(hypervisor := h, finalizers := c'.finalizers, version := c'.version)
    && forall f :: f in c'.finalizers <==> f in read.finalizers || (!c.deleted && f == CLEANUP_FINALIZER)
  }

  lemma {:induction false} UpdateAssigns(s: State, k: nat, id: ComponentId, h: string)
    requires k in s.schedulers && id in s.schedulers[k].unscheduled && id in s.store.components
    requires s.store.components[id].version == s.schedulers[k].unscheduled[id].version
    ensures var s' := Update(s, k, id, Some(h));
      && id in s'.store.components && s'.store.hypervisors == s.store.hypervisors
      && IsAssigned(s.store.components[id], s.schedulers[k].unscheduled[id], s'.store.components[id], h)
  {
  }

  /** A pass writes no hypervisor, and no component it did not read. */
  lemma {:induction false} PassLeavesOthers(s: State, k: nat, components: seq<Unplaced>, placed: seq<Option<string>>, n: nat, other: ComponentId)
    requires n <= |components| == |placed| && forall i :: 0 <= i < |components| ==> components[i].id != other
    ensures var s' := Updated(s, k, components, placed, n);
      && s'.store.hypervisors == s.store.hypervisors && s'.workers == s.workers
      && (other in s'.store.components <==> other in s.store.components)
      && (other in s.store.components ==> s'.store.components[other] == s.store.components[other])
  {
    if n == 0 {
    } else {
      PassLeavesOthers(s, k, components, placed, n - 1, other);
    }
  }

  /** What a whole pass does to a component it read: placed and not written since, it is assigned; otherwise it is as it was. */
  lemma {:induction false} PassPlaces(s: State, k: nat, components: seq<Unplaced>, placed: seq<Option<string>>, n: nat, i: nat)
    requires IsPass(s, k, components, placed) && n <= |components| && i < |components|
    requires components[i].id in s.store.components
    ensures var id := components[i].id; var c := s.store.components[id]; var s' := Updated(s, k, components, placed, n);
      && id in s'.store.components
      && (i < n && placed[i].Some? && c.version == s.schedulers[k].unscheduled[id].version ==>
            IsAssigned(c, s.schedulers[k].unscheduled[id], s'.store.components[id], placed[i].value))
      && (i >= n || placed[i].None? || c.version != s.schedulers[k].unscheduled[id].version ==> s'.store.components[id] == c)
  {
    if n == 0 {
    } else {
      PassPlaces(s, k, components, placed, n - 1, i);
      SnapshotKept(s, k, components, placed, n - 1);
      var before := Updated(s, k, components, placed, n - 1);
      if i != n - 1 {
        OtherUnchanged(before, k, components[n - 1].id, placed[n - 1], components[i].id);
      } else if placed[i].Some? && before.store.components[components[i].id].version == s.schedulers[k].unscheduled[components[i].id].version {
        UpdateAssigns(before, k, components[i].id, placed[i].value);
      }
    }
  }

  /** One pass: places what was read, and writes each placement. It is a run of assignments of the protocol. */
  method Reconcile(s: State, k: nat, components: seq<Unplaced>, random: nat -> nat)
    returns (s': State, placed: seq<Option<string>>)
    requires k in s.schedulers && s.schedulers[k].hypervisors.Some?
    requires forall i, j :: 0 <= i < j < |components| ==> components[i].id != components[j].id
    requires forall i :: 0 <= i < |components| ==>
      && components[i].id in s.schedulers[k].unscheduled
      && s.schedulers[k].unscheduled[components[i].id].role == components[i].role
    ensures IsPass(s, k, components, placed)
    ensures s' == Execute(s, Assigns(k, components, placed, |components|))
  {
    placed := Place(components, s.schedulers[k].hypervisors.value, random);
    s' := s;
    for i := 0 to |components|
      invariant s' == Updated(s, k, components, placed, i)
    {
      s' := Update(s', k, components[i].id, placed[i]);
    }
    PassIsRun(s, k, components, placed, |components|);
  }
}
