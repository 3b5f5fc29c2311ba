/** Freed ports are granted again in the order they were freed. */
module PortQueues {
  import opened Ports

  /** The port an operation frees. */
  function FreedBy(t: PortTable, op: Op): seq<int> {
    if op.FreeOp? && op.key in Held(t) then [Held(t)[op.key]] else []
  }

  /** The port an operation grants to a new key though it was owned before. */
  function ReusedBy(t: PortTable, op: Op): seq<int> {
    var answer := Request(t, op.key);
    if op.RequestOp? && op.key !in Held(t) && answer.Granted? && answer.port in Owned(t) then [answer.port] else []
  }

  /** The ports freed in a run, oldest first. */
  function FreedPorts(t: PortTable, ops: seq<Op>): seq<int> {
    if ops == [] then []
    else FreedPorts(t, ops[..|ops| - 1]) + FreedBy(Run(t, ops[..|ops| - 1]), ops[|ops| - 1])
  }

  /** The ports granted again in a run, oldest grant first. */
  function ReusedPorts(t: PortTable, ops: seq<Op>): seq<int> {
    if ops == [] then []
    else ReusedPorts(t, ops[..|ops| - 1]) + ReusedBy(Run(t, ops[..|ops| - 1]), ops[|ops| - 1])
  }

  lemma {:induction false} GrantMovesQueue(t: PortTable, key: PortKey)
    requires Valid(t) && key !in Held(t) && Request(t, key).Granted?
    ensures var r := Request(t, key);
      if r.port in Owned(t) then t.freed == [r.port] + r.table.freed else t.freed == [] && r.table.freed == []
  {
    if t.freed == [] {
      NextIsUnowned(t);
    } else {
      OwnedSplit(t);
      assert t.freed == [t.freed[0]] + t.freed[1..];
    }
  }

  lemma {:induction false} FreeMovesQueue(t: PortTable, key: PortKey)
    ensures Free(t, key).freed == t.freed + if key in Held(t) then [Held(t)[key]] else []
  {
  }

  lemma {:induction false} QueueOfStep(t: PortTable, op: Op)
    requires Valid(t)
    ensures t.freed + FreedBy(t, op) == ReusedBy(t, op) + Step(t, op).freed
  {
    match op
    case RequestOp(key) =>
      RequestEffect(t, key);
      if key !in Held(t) && Request(t, key).Granted? { GrantMovesQueue(t, key); }
    case FreeOp(key) => FreeMovesQueue(t, key);
  }

  lemma {:induction false} QueuesJoin(a: seq<int>, f: seq<int>, r: seq<int>, b: seq<int>, f': seq<int>, r': seq<int>, c: seq<int>)
    requires a + f == r + b && b + f' == r' + c
    ensures a + (f + f') == (r + r') + c
  {
    assert a + (f + f') == (r + b) + f' == r + (b + f');
  }

  /** First freed, first granted, over any run: what waited and what was freed since is, in order, what was granted again
      and then what is still waiting. */
  lemma {:induction false} QueueOfRun(t: PortTable, ops: seq<Op>)
    requires Valid(t)
    ensures t.freed + FreedPorts(t, ops) == ReusedPorts(t, ops) + Run(t, ops).freed
  {
    if ops == [] {
    } else {
      var init, op := ops[..|ops| - 1], ops[|ops| - 1];
      var before := Run(t, init);
      QueueOfRun(t, init);
      RunFromValid(t, init);
      QueueOfStep(before, op);
      QueuesJoin(t.freed, FreedPorts(t, init), ReusedPorts(t, init), before.freed,
                 FreedBy(before, op), ReusedBy(before, op), Run(t, ops).freed);
    }
  }

  function Frees(keys: seq<PortKey>): seq<Op> {
    seq(|keys|, i requires 0 <= i < |keys| => FreeOp(keys[i]))
  }

  /** The ports these keys hold, in their order. */
  function PortsHeld(t: PortTable, keys: seq<PortKey>): seq<int>
    requires forall k :: k in keys ==> k in Held(t)
  {
    seq(|keys|, i requires 0 <= i < |keys| => assert keys[i] in keys; Held(t)[keys[i]])
  }

  lemma {:induction false} LastFree(t: PortTable, keys: seq<PortKey>)
    requires keys != []
    ensures Run(t, Frees(keys)) == Free(Run(t, Frees(keys[..|keys| - 1])), keys[|keys| - 1])
  {
    assert Frees(keys)[..|keys| - 1] == Frees(keys[..|keys| - 1]);
  }

  lemma {:induction false} ValidAfterFrees(t: PortTable, keys: seq<PortKey>)
    requires Valid(t)
    ensures Valid(Run(t, Frees(keys)))
  {
    RunFromValid(t, Frees(keys));
  }

  lemma {:induction false} HeldAfterFrees(t: PortTable, keys: seq<PortKey>, k: PortKey)
    requires Valid(t)
    ensures var held := Held(Run(t, Frees(keys)));
      (k in held <==> k in Held(t) && k !in keys) && (k in held ==> held[k] == Held(t)[k])
  {
    if keys == [] {
      assert Frees(keys) == [];
    } else {
      var init, key := keys[..|keys| - 1], keys[|keys| - 1];
      assert keys == init + [key];
      HeldAfterFrees(t, init, k);
      ValidAfterFrees(t, init);
      LastFree(t, keys);
      FreeKeepsValid(Run(t, Frees(init)), key);
    }
  }

  lemma {:induction false} QueueAfterFrees(t: PortTable, keys: seq<PortKey>)
    requires Valid(t) && Distinct(keys) && forall k :: k in keys ==> k in Held(t)
    ensures Run(t, Frees(keys)).freed == t.freed + PortsHeld(t, keys)
  {
    if keys == [] {
      assert Frees(keys) == [] && PortsHeld(t, keys) == [];
    } else {
      var init, key := keys[..|keys| - 1], keys[|keys| - 1];
      assert key in keys && key !in init;
      QueueAfterFrees(t, init);
      HeldAfterFrees(t, init, key);
      LastFree(t, keys);
      FreeMovesQueue(Run(t, Frees(init)), key);
      assert PortsHeld(t, keys) == PortsHeld(t, init) + [Held(t)[key]];
    }
  }

  lemma {:induction false} NextOfQueue(t: PortTable, key: PortKey)
    requires Valid(t) && key !in Held(t) && t.freed != []
    ensures Request(t, key).Granted? && Request(t, key).port == t.freed[0] && Request(t, key).table.freed == t.freed[1..]
    ensures Valid(Step(t, RequestOp(key))) && Held(Step(t, RequestOp(key))).Keys == Held(t).Keys + {key}
  {
    RequestEffect(t, key);
    RequestKeepsValid(t, key);
  }

  lemma {:induction false} AfterRequests(t: PortTable, keys: seq<PortKey>)
    requires Valid(t) && Distinct(keys) && |keys| <= |t.freed| && forall k :: k in keys ==> k !in Held(t)
    ensures var t' := Run(t, Requests(keys));
      && Valid(t') && Held(t').Keys == Held(t).Keys + (set k | k in keys) && t'.freed == t.freed[|keys|..]
  {
    if keys == [] {
    } else {
      var init, key := keys[..|keys| - 1], keys[|keys| - 1];
      assert key in keys;
      LastKey(keys);
      AfterRequests(t, init);
      LastRequest(t, keys);
      NextOfQueue(Run(t, Requests(init)), key);
    }
  }

  /** Ports freed one after the other go, in that order, to the next keys that ask, after the ports that waited before. */
  lemma {:induction false} FirstFreedFirstGranted(t: PortTable, frees: seq<PortKey>, news: seq<PortKey>, i: nat)
    requires Valid(t) && Distinct(frees) && Distinct(news) && forall k :: k in frees ==> k in Held(t)
    requires forall k :: k in news ==> k in frees || k !in Held(t)
    requires i < |news| && i < |t.freed| + |frees|
    ensures var before := Run(Run(t, Frees(frees)), Requests(news[..i]));
      && Request(before, news[i]).Granted?
      && Request(before, news[i]).port == (t.freed + PortsHeld(t, frees))[i]
  {
    var t1 := Run(t, Frees(frees));
    ValidAfterFrees(t, frees);
    QueueAfterFrees(t, frees);
    assert news[i] in news && news[i] !in news[..i];
    forall k | k in news ensures k !in Held(t1) { HeldAfterFrees(t, frees, k); }
    forall k | k in news[..i] ensures k in news { }
    AfterRequests(t1, news[..i]);
    NextOfQueue(Run(t1, Requests(news[..i])), news[i]);
  }
}
