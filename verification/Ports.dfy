/** The host port allocator of a hypervisor, as a value: the list of allocations and the
    queue of freed ports that the hypervisor's status stores, with the two operations on them. */
module Ports {
  /** Who holds a port: cluster namespace, cluster name, and `<component>-<port name>`. */
  datatype PortKey = PortKey(clusterNamespace: string, cluster: string, component: string)

  datatype Allocation = Allocation(key: PortKey, port: int)

  datatype PortTable = PortTable(low: int, high: int, allocations: seq<Allocation>, freed: seq<int>)

  datatype Answer = Granted(port: int, table: PortTable) | NoPorts

  /** The allocations as a lookup table; later entries of the list win, as keys are unique it does not matter. */
  function Assigned(allocations: seq<Allocation>): map<PortKey, int>
  {
    if allocations == [] then map[]
    else Assigned(allocations[..|allocations| - 1])[allocations[|allocations| - 1].key := allocations[|allocations| - 1].port]
  }

  function Held(t: PortTable): map<PortKey, int> {
    Assigned(t.allocations)
  }

  /** `RequestPort`: the port already held, else the oldest freed port, else the next fresh one. */
  function Request(t: PortTable, key: PortKey): Answer
  {
    if key in Held(t) then Granted(Held(t)[key], t)
    else if |t.freed| > 0 then
      Granted(t.freed[0], t.(allocations := t.allocations + [Allocation(key, t.freed[0])], freed := t.freed[1..]))
    else
      var next := t.low + |t.allocations|;
      if next > t.high then NoPorts
      else Granted(next, t.(allocations := t.allocations + [Allocation(key, next)]))
  }

  /** The entries of every other key, in order. */
  function Without(allocations: seq<Allocation>, key: PortKey): seq<Allocation>
  {
    if allocations == [] then []
    else
      var last := allocations[|allocations| - 1];
      var rest := Without(allocations[..|allocations| - 1], key);
      if last.key == key then rest else rest + [last]
  }

  /** `FreePort`: drops the entry of the key and queues its port; nothing happens for a key without port. */
  function Free(t: PortTable, key: PortKey): PortTable
  {
    if key in Held(t) then t.(allocations := Without(t.allocations, key), freed := t.freed + [Held(t)[key]])
    else t
  }

  // ---------------------------------------------------------------------------------------------
  // The invariant

  function PortsOf(allocations: seq<Allocation>): (ports: multiset<int>)
  {
    if allocations == [] then multiset{}
    else PortsOf(allocations[..|allocations| - 1]) + multiset{allocations[|allocations| - 1].port}
  }

  /** Every port the table has ever handed out: allocated or waiting in the freed queue. */
  function Owned(t: PortTable): multiset<int> {
    PortsOf(t.allocations) + multiset(t.freed)
  }

  /** The ports low, low + 1, ..., low + n - 1, once each. */
  function Interval(low: int, n: nat): multiset<int>
  {
    if n == 0 then multiset{} else Interval(low, n - 1) + multiset{low + n - 1}
  }

  function Capacity(t: PortTable): nat {
    if t.low <= t.high then t.high - t.low + 1 else 0
  }

  ghost predicate KeysDiffer(allocations: seq<Allocation>, i: int, j: int) {
    0 <= i < j < |allocations| ==> allocations[i].key != allocations[j].key
  }

  ghost predicate UniqueKeys(allocations: seq<Allocation>) {
    forall i, j :: KeysDiffer(allocations, i, j)
  }

  /** Port `x` is owned once if it is one of the first n ports of the range, where n ports are owned in all, and not at
      all otherwise. */
  ghost predicate OwnedRight(t: PortTable, x: int) {
    Owned(t)[x] == if t.low <= x < t.low + |t.allocations| + |t.freed| then 1 else 0
  }

  /** Allocated and freed ports together are a permutation of an initial segment of the range, and keys are unique. */
  ghost predicate Valid(t: PortTable) {
    && UniqueKeys(t.allocations)
    && |t.allocations| + |t.freed| <= Capacity(t)
    && forall x :: OwnedRight(t, x)
  }

  lemma {:induction false} ValidIsPermutation(t: PortTable)
    requires Valid(t)
    ensures Owned(t) == Interval(t.low, |t.allocations| + |t.freed|)
  {
    forall x ensures Owned(t)[x] == Interval(t.low, |t.allocations| + |t.freed|)[x] {
      assert OwnedRight(t, x);
      IntervalCount(t.low, |t.allocations| + |t.freed|, x);
    }
  }

  function Empty(low: int, high: int): PortTable {
    PortTable(low, high, [], [])
  }

  lemma {:induction false} IntervalCount(low: int, n: nat, x: int)
    ensures Interval(low, n)[x] == if low <= x < low + n then 1 else 0
  {
    if n == 0 {
    } else {
      IntervalCount(low, n - 1, x);
    }
  }

  lemma {:induction false} AssignedIsListed(allocations: seq<Allocation>, key: PortKey)
    ensures key in Assigned(allocations) ==> Allocation(key, Assigned(allocations)[key]) in allocations
    ensures key !in Assigned(allocations) <==> forall i :: 0 <= i < |allocations| ==> allocations[i].key != key
  {
    if allocations == [] {
    } else {
      AssignedIsListed(allocations[..|allocations| - 1], key);
    }
  }

  lemma {:induction false} PrefixUnique(allocations: seq<Allocation>)
    requires UniqueKeys(allocations) && allocations != []
    ensures UniqueKeys(allocations[..|allocations| - 1])
  {
    var init := allocations[..|allocations| - 1];
    forall i, j ensures KeysDiffer(init, i, j) { assert KeysDiffer(allocations, i, j); }
  }

  lemma {:induction false} LastIsUnique(allocations: seq<Allocation>, a: Allocation)
    requires UniqueKeys(allocations) && allocations != [] && a in allocations[..|allocations| - 1]
    ensures a.key != allocations[|allocations| - 1].key
  {
    var i :| 0 <= i < |allocations| - 1 && allocations[i] == a;
    assert KeysDiffer(allocations, i, |allocations| - 1);
  }

  lemma {:induction false} ListedIsAssigned(allocations: seq<Allocation>, i: nat)
    requires UniqueKeys(allocations) && i < |allocations|
    ensures allocations[i].key in Assigned(allocations)
    ensures Assigned(allocations)[allocations[i].key] == allocations[i].port
  {
    if i == |allocations| - 1 {
    } else {
      PrefixUnique(allocations);
      ListedIsAssigned(allocations[..|allocations| - 1], i);
      assert KeysDiffer(allocations, i, |allocations| - 1);
    }
  }

  lemma {:induction false} ListedIsOwned(allocations: seq<Allocation>, i: nat)
    requires i < |allocations|
    ensures allocations[i].port in PortsOf(allocations)
  {
    if i == |allocations| - 1 {
    } else {
      ListedIsOwned(allocations[..|allocations| - 1], i);
    }
  }

  lemma {:induction false} PortsOfAppend(allocations: seq<Allocation>, a: Allocation)
    ensures PortsOf(allocations + [a]) == PortsOf(allocations) + multiset{a.port}
    ensures Assigned(allocations + [a]) == Assigned(allocations)[a.key := a.port]
  {
    assert (allocations + [a])[..|allocations|] == allocations;
  }

  lemma {:induction false} WithoutMembers(allocations: seq<Allocation>, key: PortKey)
    ensures forall a :: a in Without(allocations, key) ==> a in allocations
  {
    if allocations == [] {
    } else {
      WithoutMembers(allocations[..|allocations| - 1], key);
    }
  }

  lemma {:induction false} AppendDiffers(allocations: seq<Allocation>, a: Allocation)
    requires UniqueKeys(allocations) && forall b :: b in allocations ==> b.key != a.key
    ensures UniqueKeys(allocations + [a])
  {
    forall i, j ensures KeysDiffer(allocations + [a], i, j) { assert KeysDiffer(allocations, i, j); }
  }

  lemma {:induction false} WithoutUnique(allocations: seq<Allocation>, key: PortKey)
    requires UniqueKeys(allocations)
    ensures UniqueKeys(Without(allocations, key))
  {
    if allocations == [] {
    } else {
      var init, last := allocations[..|allocations| - 1], allocations[|allocations| - 1];
      PrefixUnique(allocations);
      WithoutUnique(init, key);
      WithoutMembers(init, key);
      forall b | b in Without(init, key) ensures b.key != last.key { LastIsUnique(allocations, b); }
      AppendDiffers(Without(init, key), last);
    }
  }

  lemma {:induction false} WithoutAssigned(allocations: seq<Allocation>, key: PortKey)
    ensures Assigned(Without(allocations, key)) == Assigned(allocations) - {key}
  {
    if allocations == [] {
    } else {
      var init, last := allocations[..|allocations| - 1], allocations[|allocations| - 1];
      WithoutAssigned(init, key);
      if last.key != key { PortsOfAppend(Without(init, key), last); }
    }
  }

  lemma {:induction false} WithoutNone(allocations: seq<Allocation>, key: PortKey)
    requires key !in Assigned(allocations)
    ensures Without(allocations, key) == allocations
  {
    if allocations == [] {
    } else {
      WithoutNone(allocations[..|allocations| - 1], key);
      assert allocations == allocations[..|allocations| - 1] + [allocations[|allocations| - 1]];
    }
  }

  /** Dropping a key that is listed once removes exactly its port. */
  lemma {:induction false} WithoutOne(allocations: seq<Allocation>, key: PortKey)
    requires UniqueKeys(allocations) && key in Assigned(allocations)
    ensures |Without(allocations, key)| == |allocations| - 1
    ensures PortsOf(Without(allocations, key)) + multiset{Assigned(allocations)[key]} == PortsOf(allocations)
  {
    var init, last := allocations[..|allocations| - 1], allocations[|allocations| - 1];
    PrefixUnique(allocations);
    AssignedIsListed(init, key);
    if last.key == key {
      if key in Assigned(init) { LastIsUnique(allocations, Allocation(key, Assigned(init)[key])); }
      WithoutNone(init, key);
    } else {
      WithoutOne(init, key);
      PortsOfAppend(Without(init, key), last);
    }
  }

  // ---------------------------------------------------------------------------------------------
  // What one operation does, without naming the list representation

  lemma {:induction false} OwnedSplit(t: PortTable)
    requires t.freed != []
    ensures multiset(t.freed) == multiset(t.freed[1..]) + multiset{t.freed[0]}
  {
    assert t.freed == [t.freed[0]] + t.freed[1..];
  }

  /** A grant changes the assignment of the requested key only; a key that holds a port gets that port back. */
  lemma {:induction false} RequestEffect(t: PortTable, key: PortKey)
    ensures var r := Request(t, key);
      && (key in Held(t) ==> r == Granted(Held(t)[key], t))
      && (r.Granted? ==> Held(r.table) == Held(t)[key := r.port])
      && (r.Granted? ==> r.table.low == t.low && r.table.high == t.high)
  {
    var r := Request(t, key);
    if r.Granted? && key !in Held(t) { PortsOfAppend(t.allocations, Allocation(key, r.port)); }
  }

  lemma {:induction false} HeldIsOwned(t: PortTable, key: PortKey)
    requires key in Held(t)
    ensures Held(t)[key] in PortsOf(t.allocations)
  {
    AssignedIsListed(t.allocations, key);
    var i :| 0 <= i < |t.allocations| && t.allocations[i] == Allocation(key, Held(t)[key]);
    ListedIsOwned(t.allocations, i);
  }

  /** A port of the owned segment lies in the range and is owned once. */
  lemma {:induction false} OwnedOnce(t: PortTable, port: int)
    requires Valid(t)
    ensures Owned(t)[port] == PortsOf(t.allocations)[port] + multiset(t.freed)[port] <= 1
    ensures port in Owned(t) <==> t.low <= port < t.low + |t.allocations| + |t.freed|
    ensures port in Owned(t) ==> t.low <= port <= t.high
  {
    assert OwnedRight(t, port);
  }

  lemma {:induction false} AppendUnique(allocations: seq<Allocation>, a: Allocation)
    requires UniqueKeys(allocations) && a.key !in Assigned(allocations)
    ensures UniqueKeys(allocations + [a])
  {
    AssignedIsListed(allocations, a.key);
    AppendDiffers(allocations, a);
  }

  lemma {:induction false} ReuseKeepsValid(t: PortTable, key: PortKey)
    requires Valid(t) && key !in Held(t) && t.freed != []
    ensures Valid(Request(t, key).table) && Owned(Request(t, key).table) == Owned(t)
    ensures t.low <= t.freed[0] <= t.high && t.freed[0] !in PortsOf(t.allocations)
  {
    var port := t.freed[0];
    OwnedSplit(t);
    OwnedOnce(t, port);
    AppendUnique(t.allocations, Allocation(key, port));
    PortsOfAppend(t.allocations, Allocation(key, port));
    forall x ensures OwnedRight(Request(t, key).table, x) { assert OwnedRight(t, x); }
  }

  /** With no freed port waiting, the next port in line is owned by nobody. */
  lemma {:induction false} NextIsUnowned(t: PortTable)
    requires Valid(t) && t.freed == []
    ensures t.low + |t.allocations| !in Owned(t)
  {
    OwnedOnce(t, t.low + |t.allocations|);
  }

  lemma {:induction false} ExtendOwned(t: PortTable, a: Allocation)
    ensures Owned(t.(allocations := t.allocations + [a])) == Owned(t) + multiset{a.port}
  {
    PortsOfAppend(t.allocations, a);
  }

  lemma {:induction false} ExtendKeepsValid(t: PortTable, key: PortKey)
    requires Valid(t) && key !in Held(t) && t.freed == [] && t.low + |t.allocations| <= t.high
    ensures Valid(Request(t, key).table) && Owned(t) <= Owned(Request(t, key).table)
    ensures t.low + |t.allocations| !in PortsOf(t.allocations)
  {
    var a := Allocation(key, t.low + |t.allocations|);
    NextIsUnowned(t);
    AppendUnique(t.allocations, a);
    ExtendOwned(t, a);
    assert Request(t, key).table == t.(allocations := t.allocations + [a]);
    forall x ensures OwnedRight(Request(t, key).table, x) { assert OwnedRight(t, x); }
  }

  /** A request on a valid table fails exactly when the key has no port and every port of the range is
      allocated. A grant keeps the invariant, loses no port, and grants a port of the range; a new grant is a
      port that no key held. */
  lemma {:induction false} RequestKeepsValid(t: PortTable, key: PortKey)
    requires Valid(t)
    ensures var r := Request(t, key);
      && (r.NoPorts? <==> key !in Held(t) && |t.allocations| == Capacity(t))
      && (r.Granted? ==> Valid(r.table) && t.low <= r.port <= t.high && Owned(t) <= Owned(r.table))
      && (r.Granted? && key !in Held(t) ==> r.port !in PortsOf(t.allocations))
  {
    if key in Held(t) {
      HeldIsOwned(t, key);
      OwnedOnce(t, Held(t)[key]);
    } else if t.freed != [] {
      ReuseKeepsValid(t, key);
    } else if t.low + |t.allocations| <= t.high {
      ExtendKeepsValid(t, key);
    }
  }

  lemma {:induction false} FreeKeepsOwned(t: PortTable, key: PortKey)
    requires UniqueKeys(t.allocations)
    ensures Owned(Free(t, key)) == Owned(t)
    ensures |Free(t, key).allocations| + |Free(t, key).freed| == |t.allocations| + |t.freed|
  {
    if key in Held(t) { WithoutOne(t.allocations, key); }
  }

  /** Freeing forgets exactly the freed key, keeps the invariant and loses no port. */
  lemma {:induction false} FreeKeepsValid(t: PortTable, key: PortKey)
    requires Valid(t)
    ensures Valid(Free(t, key))
    ensures Held(Free(t, key)) == Held(t) - {key}
    ensures Owned(Free(t, key)) == Owned(t)
    ensures Free(t, key).low == t.low && Free(t, key).high == t.high
  {
    var t' := Free(t, key);
    FreeKeepsOwned(t, key);
    WithoutUnique(t.allocations, key);
    WithoutAssigned(t.allocations, key);
    forall x ensures OwnedRight(t', x) { assert OwnedRight(t, x); }
  }

  /** Two keys never hold the same port. */
  lemma {:induction false} HeldInjective(t: PortTable, k1: PortKey, k2: PortKey)
    requires Valid(t) && k1 in Held(t) && k2 in Held(t) && Held(t)[k1] == Held(t)[k2]
    ensures k1 == k2
  {
    if k1 != k2 {
      WithoutOne(t.allocations, k1);
      WithoutAssigned(t.allocations, k1);
      HeldIsOwned(t.(allocations := Without(t.allocations, k1)), k2);
      OwnedOnce(t, Held(t)[k1]);
      assert false;
    }
  }

  /** A held port lies in the range. */
  lemma {:induction false} HeldInRange(t: PortTable, key: PortKey)
    requires Valid(t) && key in Held(t)
    ensures t.low <= Held(t)[key] <= t.high
  {
    RequestKeepsValid(t, key);
  }

  // ---------------------------------------------------------------------------------------------
  // Whole runs

  datatype Op = RequestOp(key: PortKey) | FreeOp(key: PortKey)

  function Step(t: PortTable, op: Op): PortTable {
    match op
    case RequestOp(key) => (match Request(t, key) case Granted(_, t') => t' case NoPorts => t)
    case FreeOp(key) => Free(t, key)
  }

  function Run(t: PortTable, ops: seq<Op>): PortTable {
    if ops == [] then t else Step(Run(t, ops[..|ops| - 1]), ops[|ops| - 1])
  }

  lemma {:induction false} StepKeepsValid(t: PortTable, op: Op)
    requires Valid(t)
    ensures Valid(Step(t, op)) && Step(t, op).low == t.low && Step(t, op).high == t.high
    ensures Owned(t) <= Owned(Step(t, op))
  {
    match op
    case RequestOp(key) => RequestKeepsValid(t, key); RequestEffect(t, key);
    case FreeOp(key) => FreeKeepsValid(t, key);
  }

  lemma {:induction false} RunFromValid(t: PortTable, ops: seq<Op>)
    requires Valid(t)
    ensures var t' := Run(t, ops);
      Valid(t') && t'.low == t.low && t'.high == t.high && Owned(t) <= Owned(t')
  {
    if ops == [] {
    } else {
      RunFromValid(t, ops[..|ops| - 1]);
      StepKeepsValid(Run(t, ops[..|ops| - 1]), ops[|ops| - 1]);
    }
  }

  lemma {:induction false} EmptyIsValid(low: int, high: int)
    ensures Valid(Empty(low, high))
  {
  }

  /** After any sequence of requests and frees the ports owned are a permutation of low, ..., low + n - 1 inside
      the range, keys are unique, and when no freed port waits, low + |allocations| is owned by nobody. */
  lemma {:induction false} RunKeepsValid(low: int, high: int, ops: seq<Op>)
    ensures Valid(Run(Empty(low, high), ops))
    ensures Run(Empty(low, high), ops).low == low && Run(Empty(low, high), ops).high == high
    ensures var t := Run(Empty(low, high), ops); t.freed == [] ==> low + |t.allocations| !in Owned(t)
  {
    var t := Empty(low, high);
    EmptyIsValid(low, high);
    RunFromValid(t, ops);
    if Run(t, ops).freed == [] { NextIsUnowned(Run(t, ops)); }
  }

  /** A key keeps its port until that key is freed, whatever the other keys do. */
  lemma {:induction false} RunKeepsPort(t: PortTable, ops: seq<Op>, key: PortKey)
    requires Valid(t) && key in Held(t)
    requires FreeOp(key) !in ops
    ensures Valid(Run(t, ops)) && key in Held(Run(t, ops)) && Held(Run(t, ops))[key] == Held(t)[key]
  {
    if ops == [] {
    } else {
      var init, op := ops[..|ops| - 1], ops[|ops| - 1];
      assert op in ops;
      RunKeepsPort(t, init, key);
      StepKeepsValid(Run(t, init), op);
      match op
      case RequestOp(k) => RequestEffect(Run(t, init), k);
      case FreeOp(k) => FreeKeepsValid(Run(t, init), k);
    }
  }

  function Requests(keys: seq<PortKey>): seq<Op> {
    seq(|keys|, i requires 0 <= i < |keys| => RequestOp(keys[i]))
  }

  ghost predicate Distinct(keys: seq<PortKey>) {
    forall i, j :: 0 <= i < j < |keys| ==> keys[i] != keys[j]
  }

  lemma {:induction false} GrantWhileRoom(t: PortTable, key: PortKey)
    requires Valid(t) && key !in Held(t) && |t.allocations| < Capacity(t)
    ensures var t' := Step(t, RequestOp(key));
      && Valid(t') && t'.low == t.low && t'.high == t.high && |t'.allocations| == |t.allocations| + 1
      && Held(t').Keys == Held(t).Keys + {key}
  {
    RequestEffect(t, key);
    RequestKeepsValid(t, key);
  }

  lemma {:induction false} LastRequest(t: PortTable, keys: seq<PortKey>)
    requires keys != []
    ensures Run(t, Requests(keys)) == Step(Run(t, Requests(keys[..|keys| - 1])), RequestOp(keys[|keys| - 1]))
  {
    assert Requests(keys)[..|keys| - 1] == Requests(keys[..|keys| - 1]);
  }

  lemma {:induction false} LastKey(keys: seq<PortKey>)
    requires keys != [] && Distinct(keys)
    ensures var init, key := keys[..|keys| - 1], keys[|keys| - 1];
      Distinct(init) && key !in init && (set k | k in keys) == (set k | k in init) + {key}
  {
    assert keys == keys[..|keys| - 1] + [keys[|keys| - 1]];
  }

  /** Once everything is freed, the full capacity can be handed out again: any `Capacity` distinct keys, or fewer,
      all get a port. With HeldInjective these are different ports, so none of the range is lost. */
  lemma {:induction false} FullCapacityAgain(t: PortTable, keys: seq<PortKey>)
    requires Valid(t) && t.allocations == [] && Distinct(keys) && |keys| <= Capacity(t)
    ensures var t' := Run(t, Requests(keys));
      && Valid(t') && t'.low == t.low && t'.high == t.high && |t'.allocations| == |keys|
      && Held(t').Keys == set k | k in keys
  {
    if keys == [] {
    } else {
      var init, key := keys[..|keys| - 1], keys[|keys| - 1];
      FullCapacityAgain(t, init);
      LastRequest(t, keys);
      LastKey(keys);
      GrantWhileRoom(Run(t, Requests(init)), key);
    }
  }
}
