/** Lists of conditions, and the history their times record. */
module Conditions {
  import opened Options

  datatype Condition = Condition(kind: string, status: string, lastTransition: int, lastSet: int, reason: string, message: string)

  /** What `SetCondition` keeps of an entry: all of one of another type; one of this type that has the status already
      loses its reason and message. */
  function KeptOf(c: Condition, kind: string, status: string, now: int): seq<Condition> {
    if c.kind != kind then [c]
    else if c.status == status then [Condition(c.kind, c.status, c.lastTransition, now, "", "")]
    else []
  }

  function Kept(list: seq<Condition>, kind: string, status: string, now: int): seq<Condition> {
    if list == [] then [] else KeptOf(list[0], kind, status, now) + Kept(list[1..], kind, status, now)
  }

  predicate Has(list: seq<Condition>, kind: string, status: string) {
    exists i :: 0 <= i < |list| && list[i].kind == kind && list[i].status == status
  }

  function Set(list: seq<Condition>, kind: string, status: string, now: int): seq<Condition> {
    Kept(list, kind, status, now)
    + if Has(list, kind, status) then [] else [Condition(kind, status, now, now, "", "")]
  }

  /** The entries of other types. */
  function Drop(list: seq<Condition>, kind: string): seq<Condition> {
    if list == [] then [] else (if list[0].kind != kind then [list[0]] else []) + Drop(list[1..], kind)
  }

  /** The first entry of a type. */
  function Find(list: seq<Condition>, kind: string): Option<Condition> {
    if list == [] then None else if list[0].kind == kind then Some(list[0]) else Find(list[1..], kind)
  }

  class ConditionList {
    var list: seq<Condition>

    constructor (list: seq<Condition>)
      ensures this.list == list
    {
      this.list := list;
    }

    method IsCondition(kind: string, status: string) returns (holds: bool)
      ensures holds <==> Find(list, kind).Some? && Find(list, kind).value.status == status
    {
      for i := 0 to |list|
        invariant Find(list[i..], kind) == Find(list, kind)
      {
        assert list[i..][1..] == list[i + 1..];
        if list[i].kind == kind { return list[i].status == status; }
      }
      return false;
    }

    method DropCondition(kind: string)
      modifies this
      ensures list == Drop(old(list), kind)
    {
      var kept := [];
      for i := 0 to |list|
        invariant list == old(list)
        invariant kept + Drop(list[i..], kind) == Drop(list, kind)
      {
        assert list[i..][1..] == list[i + 1..];
        if list[i].kind != kind { kept := kept + [list[i]]; }
      }
      list := kept;
    }

    method SetCondition(kind: string, status: string, now: int)
      modifies this
      ensures list == Set(old(list), kind, status, now)
    {
      var conditions := list;
      var transitioning, kept := true, [];
      for i := 0 to |conditions|
        invariant kept + Kept(conditions[i..], kind, status, now) == Kept(conditions, kind, status, now)
        invariant transitioning <==> !Has(conditions[..i], kind, status)
      {
        var c := conditions[i];
        assert conditions[..i + 1] == conditions[..i] + [c];
        HasMore(conditions[..i], c, kind, status);
        KeptNext(conditions, i, kept, kind, status, now);
        if c.kind == kind && c.status == status { transitioning := false; }
        kept := kept + KeptOf(c, kind, status, now);
      }
      assert conditions[..|conditions|] == conditions;
      list := if transitioning then kept + [Condition(kind, status, now, now, "", "")] else kept;
    }
  }

  lemma {:induction false} KeptNext(list: seq<Condition>, i: nat, kept: seq<Condition>, kind: string, status: string, now: int)
    requires i < |list|
    ensures kept + Kept(list[i..], kind, status, now) == (kept + KeptOf(list[i], kind, status, now)) + Kept(list[i + 1..], kind, status, now)
  {
    assert list[i..][1..] == list[i + 1..];
  }

  lemma {:induction false} HasMore(list: seq<Condition>, c: Condition, kind: string, status: string)
    ensures Has(list + [c], kind, status) <==> Has(list, kind, status) || (c.kind == kind && c.status == status)
  {
    var longer := list + [c];
    if Has(list, kind, status) {
      var i :| 0 <= i < |list| && list[i].kind == kind && list[i].status == status;
      assert longer[i] == list[i];
    }
    assert longer[|list|] == c;
  }

  // ---------------------------------------------------------------------------------------------
  // One call

  /** At most one entry of a type. */
  ghost predicate AtMostOne(list: seq<Condition>, kind: string) {
    forall i, j :: 0 <= i < j < |list| ==> list[i].kind != kind || list[j].kind != kind
  }

  lemma {:induction false} AtMostOneTail(list: seq<Condition>, kind: string)
    requires list != [] && AtMostOne(list, kind)
    ensures AtMostOne(list[1..], kind)
    ensures list[0].kind == kind ==> Find(list[1..], kind) == None
  {
    if list[0].kind == kind { NoneFound(list[1..], kind); }
  }

  lemma {:induction false} NoneFound(list: seq<Condition>, kind: string)
    ensures Find(list, kind) == None <==> forall i :: 0 <= i < |list| ==> list[i].kind != kind
  {
    if list == [] {
    } else {
      NoneFound(list[1..], kind);
      assert forall i :: 0 < i < |list| ==> list[i] == list[1..][i - 1];
    }
  }

  lemma {:induction false} FindJoin(a: seq<Condition>, b: seq<Condition>, kind: string)
    ensures Find(a + b, kind) == if Find(a, kind).Some? then Find(a, kind) else Find(b, kind)
  {
    if a == [] {
      assert a + b == b;
    } else {
      assert (a + b)[1..] == a[1..] + b;
      FindJoin(a[1..], b, kind);
    }
  }

  lemma {:induction false} HasIsFound(list: seq<Condition>, kind: string, status: string)
    requires AtMostOne(list, kind)
    ensures Has(list, kind, status) <==> Find(list, kind).Some? && Find(list, kind).value.status == status
  {
    if list == [] {
    } else {
      AtMostOneTail(list, kind);
      HasIsFound(list[1..], kind, status);
      HasHead(list, kind, status);
    }
  }

  lemma {:induction false} HasHead(list: seq<Condition>, kind: string, status: string)
    requires list != []
    ensures Has(list, kind, status) <==> (list[0].kind == kind && list[0].status == status) || Has(list[1..], kind, status)
  {
    if Has(list[1..], kind, status) {
      var i :| 0 <= i < |list| - 1 && list[1..][i].kind == kind && list[1..][i].status == status;
      assert list[i + 1] == list[1..][i];
    }
    if Has(list, kind, status) {
      var i :| 0 <= i < |list| && list[i].kind == kind && list[i].status == status;
      assert i > 0 ==> list[1..][i - 1] == list[i];
    }
  }

  /** What setting a type leaves to be found, of this type and of others. */
  lemma {:induction false} KeptFound(list: seq<Condition>, kind: string, status: string, now: int, other: string)
    requires AtMostOne(list, kind)
    ensures Find(Kept(list, kind, status, now), other) ==
      var c := Find(list, other);
      if other != kind || c.None? then c
      else if c.value.status != status then None
      else Some(Condition(kind, status, c.value.lastTransition, now, "", ""))
  {
    if list == [] {
    } else {
      AtMostOneTail(list, kind);
      KeptFound(list[1..], kind, status, now, other);
      FindJoin(KeptOf(list[0], kind, status, now), Kept(list[1..], kind, status, now), other);
    }
  }

  lemma {:induction false} SetFound(list: seq<Condition>, kind: string, status: string, now: int, other: string)
    requires AtMostOne(list, kind)
    ensures Find(Set(list, kind, status, now), other) ==
      var c := Find(list, other);
      if other != kind then c
      else if c.Some? && c.value.status == status then Some(Condition(kind, status, c.value.lastTransition, now, "", ""))
      else Some(Condition(kind, status, now, now, "", ""))
  {
    KeptFound(list, kind, status, now, other);
    HasIsFound(list, kind, status);
    var more := if Has(list, kind, status) then [] else [Condition(kind, status, now, now, "", "")];
    FindJoin(Kept(list, kind, status, now), more, other);
  }

  lemma {:induction false} DropFound(list: seq<Condition>, kind: string, other: string)
    ensures Find(Drop(list, kind), other) == if other == kind then None else Find(list, other)
  {
    if list == [] {
    } else {
      DropFound(list[1..], kind, other);
      FindJoin(if list[0].kind != kind then [list[0]] else [], Drop(list[1..], kind), other);
    }
  }

  // ---------------------------------------------------------------------------------------------
  // Histories

  datatype Call = Setting(kind: string, status: string, now: int) | Dropping(kind: string)

  function Apply(list: seq<Condition>, call: Call): seq<Condition> {
    match call
    case Setting(kind, status, now) => Set(list, kind, status, now)
    case Dropping(kind) => Drop(list, kind)
  }

  function Run(list: seq<Condition>, calls: seq<Call>): seq<Condition> {
    if calls == [] then list else Apply(Run(list, calls[..|calls| - 1]), calls[|calls| - 1])
  }

  lemma {:induction false} AtMostOneJoin(a: seq<Condition>, b: seq<Condition>, kind: string)
    requires AtMostOne(a, kind) && AtMostOne(b, kind) && (Find(a, kind) == None || Find(b, kind) == None)
    ensures AtMostOne(a + b, kind)
  {
    NoneFound(a, kind);
    NoneFound(b, kind);
  }

  lemma {:induction false} KeptAtMostOne(list: seq<Condition>, kind: string, status: string, now: int, other: string)
    requires AtMostOne(list, other) && AtMostOne(list, kind)
    ensures AtMostOne(Kept(list, kind, status, now), other)
  {
    if list == [] {
    } else {
      AtMostOneTail(list, other);
      AtMostOneTail(list, kind);
      KeptAtMostOne(list[1..], kind, status, now, other);
      KeptFound(list[1..], kind, status, now, other);
      AtMostOneJoin(KeptOf(list[0], kind, status, now), Kept(list[1..], kind, status, now), other);
    }
  }

  lemma {:induction false} DropAtMostOne(list: seq<Condition>, kind: string, other: string)
    requires AtMostOne(list, other)
    ensures AtMostOne(Drop(list, kind), other)
  {
    if list == [] {
    } else {
      AtMostOneTail(list, other);
      DropAtMostOne(list[1..], kind, other);
      DropFound(list[1..], kind, other);
      AtMostOneJoin(if list[0].kind != kind then [list[0]] else [], Drop(list[1..], kind), other);
    }
  }

  ghost predicate Unique(list: seq<Condition>) {
    forall kind :: AtMostOne(list, kind)
  }

  /** A call keeps at most one entry per type. */
  lemma {:induction false} ApplyUnique(list: seq<Condition>, call: Call)
    requires Unique(list)
    ensures Unique(Apply(list, call))
  {
    forall other ensures AtMostOne(Apply(list, call), other) {
      match call
      case Setting(kind, status, now) =>
        KeptAtMostOne(list, kind, status, now, other);
        KeptFound(list, kind, status, now, other);
        HasIsFound(list, kind, status);
        var more := if Has(list, kind, status) then [] else [Condition(kind, status, now, now, "", "")];
        AtMostOneJoin(Kept(list, kind, status, now), more, other);
      case Dropping(kind) => DropAtMostOne(list, kind, other);
    }
  }

  lemma {:induction false} RunUnique(list: seq<Condition>, calls: seq<Call>)
    requires Unique(list)
    ensures Unique(Run(list, calls))
  {
    if calls == [] {
    } else {
      RunUnique(list, calls[..|calls| - 1]);
      ApplyUnique(Run(list, calls[..|calls| - 1]), calls[|calls| - 1]);
    }
  }

  /** The calls `lo` up to `hi` set this type to this status, or are about other types. */
  predicate Unbroken(calls: seq<Call>, kind: string, status: string, lo: nat, hi: nat)
    requires lo <= hi <= |calls|
  {
    forall k :: lo <= k < hi && calls[k].kind == kind ==> calls[k].Setting? && calls[k].status == status
  }

  predicate Silent(calls: seq<Call>, kind: string, lo: nat, hi: nat)
    requires lo <= hi <= |calls|
  {
    forall k :: lo <= k < hi ==> calls[k].kind != kind
  }

  /** What a call leaves to be found. */
  lemma {:induction false} ApplyFound(list: seq<Condition>, call: Call, kind: string)
    requires Unique(list)
    ensures call.kind != kind ==> Find(Apply(list, call), kind) == Find(list, kind)
    ensures call == Dropping(kind) ==> Find(Apply(list, call), kind) == None
    ensures call.Setting? && call.kind == kind ==>
      var c := Find(list, kind);
      Find(Apply(list, call), kind) == Some(Condition(kind, call.status,
        if c.Some? && c.value.status == call.status then c.value.lastTransition else call.now, call.now, "", ""))
  {
    assert AtMostOne(list, call.kind);
    match call
    case Setting(k, status, now) => SetFound(list, k, status, now, kind);
    case Dropping(k) => DropFound(list, k, kind);
  }

  lemma {:induction false} RunStep(list: seq<Condition>, calls: seq<Call>, n: nat)
    requires n < |calls|
    ensures Run(list, calls[..n + 1]) == Apply(Run(list, calls[..n]), calls[n])
  {
    assert calls[..n + 1][..n] == calls[..n];
  }

  /** Calls about other types leave the entry alone. */
  lemma {:induction false} SilentRun(list: seq<Condition>, calls: seq<Call>, kind: string, lo: nat, hi: nat)
    requires Unique(list) && lo <= hi <= |calls| && Silent(calls, kind, lo, hi)
    ensures Find(Run(list, calls[..hi]), kind) == Find(Run(list, calls[..lo]), kind)
    decreases hi
  {
    if lo == hi {
    } else {
      SilentRun(list, calls, kind, lo, hi - 1);
      RunStep(list, calls, hi - 1);
      RunUnique(list, calls[..hi - 1]);
      ApplyFound(Run(list, calls[..hi - 1]), calls[hi - 1], kind);
    }
  }

  /** Through an unbroken run the entry keeps its status and the time of its last transition. */
  lemma {:induction false} UnbrokenRun(list: seq<Condition>, calls: seq<Call>, kind: string, status: string, lo: nat, hi: nat)
    requires Unique(list) && lo <= hi <= |calls| && Unbroken(calls, kind, status, lo, hi)
    requires var c := Find(Run(list, calls[..lo]), kind); c.Some? && c.value.status == status
    ensures var c, c' := Find(Run(list, calls[..lo]), kind), Find(Run(list, calls[..hi]), kind);
      c'.Some? && c'.value.status == status && c'.value.lastTransition == c.value.lastTransition
    decreases hi
  {
    if lo == hi {
    } else {
      UnbrokenRun(list, calls, kind, status, lo, hi - 1);
      RunStep(list, calls, hi - 1);
      RunUnique(list, calls[..hi - 1]);
      ApplyFound(Run(list, calls[..hi - 1]), calls[hi - 1], kind);
    }
  }

  /** The entry of a type last set by call `last`: its status is the one set last, it was last set then, and its last
      transition is the call that began the unbroken run of equal statuses, or, if the run goes back to the entry the list
      began with, the transition of that entry. */
  lemma {:induction false} HistoryOfSet(list: seq<Condition>, calls: seq<Call>, kind: string, first: nat, last: nat)
    requires Unique(list) && first <= last < |calls|
    requires calls[last].Setting? && calls[last].kind == kind && Silent(calls, kind, last + 1, |calls|)
    requires Unbroken(calls, kind, calls[last].status, first, last) && calls[first].kind == kind
    ensures calls[first].Setting?
    ensures Find(Run(list, calls), kind) ==
      Some(Condition(kind, calls[last].status, Began(list, calls, kind, first), calls[last].now, "", ""))
  {
    UpToLast(list, calls, kind, first, last);
    SilentRun(list, calls, kind, last + 1, |calls|);
    assert calls[..|calls|] == calls;
  }

  /** When the run begun by call `first` began. */
  function Began(list: seq<Condition>, calls: seq<Call>, kind: string, first: nat): int
    requires first < |calls| && calls[first].Setting?
  {
    var before := Find(Run(list, calls[..first]), kind);
    if before.Some? && before.value.status == calls[first].status then before.value.lastTransition else calls[first].now
  }

  lemma {:induction false} UpToLast(list: seq<Condition>, calls: seq<Call>, kind: string, first: nat, last: nat)
    requires Unique(list) && first <= last < |calls| && calls[first].kind == kind && calls[last].kind == kind
    requires calls[last].Setting? && Unbroken(calls, kind, calls[last].status, first, last)
    ensures calls[first].Setting? && calls[first].status == calls[last].status
    ensures Find(Run(list, calls[..last + 1]), kind) ==
      Some(Condition(kind, calls[last].status, Began(list, calls, kind, first), calls[last].now, "", ""))
  {
    SetAt(list, calls, kind, first);
    if first < last {
      UnbrokenRun(list, calls, kind, calls[last].status, first + 1, last);
      SetAt(list, calls, kind, last);
    }
  }

  lemma {:induction false} SetAt(list: seq<Condition>, calls: seq<Call>, kind: string, n: nat)
    requires Unique(list) && n < |calls| && calls[n].Setting? && calls[n].kind == kind
    ensures var c := Find(Run(list, calls[..n]), kind);
      Find(Run(list, calls[..n + 1]), kind) == Some(Condition(kind, calls[n].status,
        if c.Some? && c.value.status == calls[n].status then c.value.lastTransition else calls[n].now, calls[n].now, "", ""))
  {
    RunUnique(list, calls[..n]);
    RunStep(list, calls, n);
    ApplyFound(Run(list, calls[..n]), calls[n], kind);
  }

  /** Where the unbroken run begins: no status of its own was there just before its first call. */
  lemma {:induction false} RunBegins(list: seq<Condition>, calls: seq<Call>, kind: string, status: string, first: nat)
    requires Unique(list) && first <= |calls|
    requires
      || (Silent(calls, kind, 0, first) && !Has(list, kind, status))
      || exists k :: 0 <= k < first && calls[k].kind == kind && Silent(calls, kind, k + 1, first)
                     && (calls[k].Setting? ==> calls[k].status != status)
    ensures var before := Find(Run(list, calls[..first]), kind); before.None? || before.value.status != status
    ensures first < |calls| && calls[first].Setting? && calls[first].status == status ==>
      Began(list, calls, kind, first) == calls[first].now
  {
    if Silent(calls, kind, 0, first) && !Has(list, kind, status) {
      SilentRun(list, calls, kind, 0, first);
      assert calls[..0] == [];
      assert AtMostOne(list, kind);
      HasIsFound(list, kind, status);
    } else {
      var k :| 0 <= k < first && calls[k].kind == kind && Silent(calls, kind, k + 1, first)
               && (calls[k].Setting? ==> calls[k].status != status);
      RunUnique(list, calls[..k]);
      RunStep(list, calls, k);
      ApplyFound(Run(list, calls[..k]), calls[k], kind);
      SilentRun(list, calls, kind, k + 1, first);
    }
  }

  /** Where it goes back to the entry the list began with. */
  lemma {:induction false} RunGoesBack(list: seq<Condition>, calls: seq<Call>, kind: string, first: nat)
    requires Unique(list) && first < |calls| && calls[first].Setting? && Silent(calls, kind, 0, first)
    requires Find(list, kind).Some? && Find(list, kind).value.status == calls[first].status
    ensures Began(list, calls, kind, first) == Find(list, kind).value.lastTransition
  {
    SilentRun(list, calls, kind, 0, first);
    assert calls[..0] == [];
  }

  /** A type last dropped has no entry. */
  lemma {:induction false} HistoryOfDrop(list: seq<Condition>, calls: seq<Call>, kind: string, last: nat)
    requires Unique(list) && last < |calls| && calls[last] == Dropping(kind) && Silent(calls, kind, last + 1, |calls|)
    ensures Find(Run(list, calls), kind) == None
  {
    RunUnique(list, calls[..last]);
    RunStep(list, calls, last);
    ApplyFound(Run(list, calls[..last]), calls[last], kind);
    SilentRun(list, calls, kind, last + 1, |calls|);
    assert calls[..|calls|] == calls;
  }

  // ---------------------------------------------------------------------------------------------
  // Other types

  /** The entries of types outside a set, in order. */
  function Outside(list: seq<Condition>, kinds: set<string>): seq<Condition> {
    if list == [] then [] else (if list[0].kind !in kinds then [list[0]] else []) + Outside(list[1..], kinds)
  }

  lemma {:induction false} OutsideJoin(a: seq<Condition>, b: seq<Condition>, kinds: set<string>)
    ensures Outside(a + b, kinds) == Outside(a, kinds) + Outside(b, kinds)
  {
    if a == [] {
      assert a + b == b;
    } else {
      assert (a + b)[1..] == a[1..] + b;
      OutsideJoin(a[1..], b, kinds);
    }
  }

  lemma {:induction false} ApplyOutside(list: seq<Condition>, call: Call, kinds: set<string>)
    requires call.kind in kinds
    ensures Outside(Apply(list, call), kinds) == Outside(list, kinds)
  {
    match call
    case Setting(kind, status, now) =>
      KeptOutside(list, kind, status, now, kinds);
      OutsideJoin(Kept(list, kind, status, now),
                  if Has(list, kind, status) then [] else [Condition(kind, status, now, now, "", "")], kinds);
    case Dropping(kind) => DropOutside(list, kind, kinds);
  }

  lemma {:induction false} KeptOutside(list: seq<Condition>, kind: string, status: string, now: int, kinds: set<string>)
    requires kind in kinds
    ensures Outside(Kept(list, kind, status, now), kinds) == Outside(list, kinds)
  {
    if list == [] {
    } else {
      KeptOutside(list[1..], kind, status, now, kinds);
      OutsideJoin(KeptOf(list[0], kind, status, now), Kept(list[1..], kind, status, now), kinds);
    }
  }

  lemma {:induction false} DropOutside(list: seq<Condition>, kind: string, kinds: set<string>)
    requires kind in kinds
    ensures Outside(Drop(list, kind), kinds) == Outside(list, kinds)
  {
    if list == [] {
    } else {
      DropOutside(list[1..], kind, kinds);
      OutsideJoin(if list[0].kind != kind then [list[0]] else [], Drop(list[1..], kind), kinds);
    }
  }

  /** The types no call is about keep their entries, reasons and messages included, in their order. */
  lemma {:induction false} OthersUntouched(list: seq<Condition>, calls: seq<Call>, kinds: set<string>)
    requires forall k :: 0 <= k < |calls| ==> calls[k].kind in kinds
    ensures Outside(Run(list, calls), kinds) == Outside(list, kinds)
  {
    if calls == [] {
    } else {
      OthersUntouched(list, calls[..|calls| - 1], kinds);
      ApplyOutside(Run(list, calls[..|calls| - 1]), calls[|calls| - 1], kinds);
    }
  }

  // ---------------------------------------------------------------------------------------------
  // The order of the entries

  /** The types of the entries, in order. */
  function Kinds(list: seq<Condition>): seq<string> {
    if list == [] then [] else [list[0].kind] + Kinds(list[1..])
  }

  /** The list without one type. */
  function KindsBut(list: seq<Condition>, kind: string): seq<string> {
    if list == [] then [] else (if list[0].kind == kind then [] else [list[0].kind]) + KindsBut(list[1..], kind)
  }

  lemma {:induction false} KindsJoin(a: seq<Condition>, b: seq<Condition>)
    ensures Kinds(a + b) == Kinds(a) + Kinds(b)
  {
    if a == [] {
      assert a + b == b;
    } else {
      assert (a + b)[1..] == a[1..] + b;
      KindsJoin(a[1..], b);
    }
  }

  lemma {:induction false} KindsWithout(list: seq<Condition>, kind: string)
    requires Find(list, kind) == None
    ensures KindsBut(list, kind) == Kinds(list)
  {
    if list == [] {
    } else {
      KindsWithout(list[1..], kind);
    }
  }

  lemma {:induction false} KeptKinds(list: seq<Condition>, kind: string, status: string, now: int)
    requires AtMostOne(list, kind)
    ensures Kinds(Kept(list, kind, status, now)) == if Has(list, kind, status) then Kinds(list) else KindsBut(list, kind)
  {
    if list == [] {
    } else {
      var rest := list[1..];
      AtMostOneTail(list, kind);
      KeptKinds(rest, kind, status, now);
      HasHead(list, kind, status);
      KindsJoin(KeptOf(list[0], kind, status, now), Kept(rest, kind, status, now));
      if list[0].kind == kind {
        HasIsFound(rest, kind, status);
        KindsWithout(rest, kind);
        assert Kinds(KeptOf(list[0], kind, status, now)) == if list[0].status == status then [kind] else [];
      } else {
        assert Kinds([list[0]]) == [list[0].kind];
      }
    }
  }

  /** Setting a type to the status it has leaves every entry in its place; otherwise its entry becomes the last one. */
  lemma {:induction false} SetKeepsOrder(list: seq<Condition>, kind: string, status: string, now: int)
    requires AtMostOne(list, kind)
    ensures var c := Find(list, kind);
      Kinds(Set(list, kind, status, now)) ==
        if c.Some? && c.value.status == status then Kinds(list) else KindsBut(list, kind) + [kind]
  {
    HasIsFound(list, kind, status);
    KeptKinds(list, kind, status, now);
    var more := if Has(list, kind, status) then [] else [Condition(kind, status, now, now, "", "")];
    KindsJoin(Kept(list, kind, status, now), more);
  }

  lemma {:induction false} DropKeepsOrder(list: seq<Condition>, kind: string)
    ensures Kinds(Drop(list, kind)) == KindsBut(list, kind)
  {
    if list == [] {
    } else {
      DropKeepsOrder(list[1..], kind);
      KindsJoin(if list[0].kind != kind then [list[0]] else [], Drop(list[1..], kind));
    }
  }
}
