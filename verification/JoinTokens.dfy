/** Join tokens: the bootstrap token secrets of a cluster are brought to the desired list of tokens. */
module JoinTokens {
  /** What becomes of a write that is not refused for the name it uses; a failed one may have been carried out. */
  datatype Outcome = Outcome(ok: bool, applied: bool)

  predicate IsTokenChar(c: char) {
    'a' <= c <= 'z' || '0' <= c <= '9'
  }

  /** A token is an ID of six characters, a dot, and a secret of sixteen. */
  predicate IsToken(t: string) {
    |t| == 23 && t[6] == '.' && forall i :: 0 <= i < 23 && i != 6 ==> IsTokenChar(t[i])
  }

  /** Lower case letters and digits by their code points. */
  predicate IsLowerOrDigit(c: char) {
    97 <= c as int <= 122 || 48 <= c as int <= 57
  }

  predicate AllLowerOrDigits(s: string) {
    forall c :: c in s ==> IsLowerOrDigit(c)
  }

  /** Exactly the joined IDs and secrets of the right lengths, in lower case letters and digits, are tokens. */
  lemma {:induction false} TokenExactly(t: string)
    ensures IsToken(t) <==>
      exists id, secret :: t == Token(id, secret) && |id| == 6 && |secret| == 16 && AllLowerOrDigits(id) && AllLowerOrDigits(secret)
  {
    if IsToken(t) {
      var id, secret := t[..6], t[7..];
      assert t == Token(id, secret);
      forall c | c in id ensures IsLowerOrDigit(c) { var i :| 0 <= i < 6 && id[i] == c; assert t[i] == c; }
      forall c | c in secret ensures IsLowerOrDigit(c) { var i :| 0 <= i < 16 && secret[i] == c; assert t[i + 7] == c; }
    }
    if exists id, secret :: t == Token(id, secret) && |id| == 6 && |secret| == 16 && AllLowerOrDigits(id) && AllLowerOrDigits(secret) {
      var id, secret :| t == Token(id, secret) && |id| == 6 && |secret| == 16 && AllLowerOrDigits(id) && AllLowerOrDigits(secret);
      forall i | 0 <= i < 23 && i != 6 ensures IsTokenChar(t[i]) {
        if i < 6 { assert t[i] == id[i] && id[i] in id; } else { assert t[i] == secret[i - 7] && secret[i - 7] in secret; }
      }
    }
  }

  function IdOf(t: string): string
    requires IsToken(t)
  {
    t[..6]
  }

  function SecretOf(t: string): string
    requires IsToken(t)
  {
    t[7..]
  }

  function Token(id: string, secret: string): string {
    id + "." + secret
  }

  /** The secrets of the cluster, by token ID: the name of a secret is made of the ID alone. */
  type Secrets = map<string, string>

  function Tokens(secrets: Secrets): set<string> {
    set id | id in secrets :: Token(id, secrets[id])
  }

  function Elements(list: seq<string>): set<string> {
    set t | t in list
  }

  /** `substractTokens` */
  function Minus(list: seq<string>, other: seq<string>): seq<string> {
    if list == [] then [] else (if list[0] in other then [] else [list[0]]) + Minus(list[1..], other)
  }

  method SubtractTokens(list: seq<string>, other: seq<string>) returns (res: seq<string>)
    ensures res == Minus(list, other)
  {
    var toSubtract: set<string> := {};
    for i := 0 to |other|
      invariant forall t :: t in toSubtract <==> t in other[..i]
    {
      assert other[..i + 1] == other[..i] + [other[i]];
      toSubtract := toSubtract + {other[i]};
    }
    assert other[..|other|] == other;
    res := [];
    for i := 0 to |list|
      invariant res + Minus(list[i..], other) == Minus(list, other)
    {
      assert list[i..][1..] == list[i + 1..];
      if list[i] !in toSubtract { res := res + [list[i]]; }
    }
  }

  lemma {:induction false} MinusIs(list: seq<string>, other: seq<string>)
    ensures forall t :: t in Minus(list, other) <==> t in list && t !in other
  {
    if list == [] {
    } else {
      MinusIs(list[1..], other);
    }
  }

  /** Order and repetitions are those of the list: it can be taken apart anywhere. */
  lemma {:induction false} MinusJoin(a: seq<string>, b: seq<string>, other: seq<string>)
    ensures Minus(a + b, other) == Minus(a, other) + Minus(b, other)
  {
    if a == [] {
      assert a + b == b;
    } else {
      assert (a + b)[1..] == a[1..] + b;
      MinusJoin(a[1..], b, other);
    }
  }

  // ---------------------------------------------------------------------------------------------
  // The two phases, by what they may do to the secrets

  /** Creating overwrites nothing, and adds only new tokens. */
  ghost predicate OnlyAdds(before: Secrets, after: Secrets, added: seq<string>) {
    && (forall id :: id in before ==> id in after && after[id] == before[id])
    && (forall id :: id in after && id !in before ==> Token(id, after[id]) in added)
  }

  ghost predicate AllThere(after: Secrets, added: seq<string>) {
    forall t :: t in added ==> IsToken(t) && IdOf(t) in after
  }

  /** Deleting removes only secrets with the ID of an excess token. */
  ghost predicate OnlyRemoves(before: Secrets, after: Secrets, excess: seq<string>) {
    && (forall id :: id in after ==> id in before && after[id] == before[id])
    && (forall id :: id in before && id !in after ==> exists t :: t in excess && IsToken(t) && IdOf(t) == id)
  }

  ghost predicate AllGone(after: Secrets, excess: seq<string>) {
    forall t :: t in excess ==> IsToken(t) && IdOf(t) !in after
  }

  lemma {:induction false} TokenParts(t: string)
    requires IsToken(t)
    ensures Token(IdOf(t), SecretOf(t)) == t
  {
  }

  /** Only one way to read a token: its one dot is where ID and secret were joined. */
  lemma {:induction false} TokenOfParts(id: string, secret: string)
    requires IsToken(Token(id, secret))
    ensures IdOf(Token(id, secret)) == id && SecretOf(Token(id, secret)) == secret
  {
    var t := Token(id, secret);
    assert t[|id|] == '.';
    assert !IsTokenChar('.');
    assert |id| == 6;
  }

  /** Some ID has two secrets: a desired token has the ID of a stored one, or of another desired one, but not its secret. */
  ghost predicate Clashes(secrets: Secrets, desired: seq<string>) {
    exists t :: t in desired && IsToken(t) && ClashesWith(secrets, desired, t)
  }

  ghost predicate ClashesWith(secrets: Secrets, desired: seq<string>, t: string)
    requires IsToken(t)
  {
    || (IdOf(t) in secrets && secrets[IdOf(t)] != SecretOf(t))
    || exists u :: u in desired && IsToken(u) && IdOf(u) == IdOf(t) && u != t
  }

  ghost predicate TwoPhases(before: Secrets, mid: Secrets, after: Secrets, current: seq<string>, desired: seq<string>) {
    && Elements(current) == Tokens(before)
    && OnlyAdds(before, mid, Minus(desired, current))
    && OnlyRemoves(mid, after, Minus(current, desired))
  }

  lemma {:induction false} InTokens(secrets: Secrets, t: string)
    ensures t in Tokens(secrets) <==> exists id :: id in secrets && t == Token(id, secrets[id])
    ensures IsToken(t) ==> (t in Tokens(secrets) <==> IdOf(t) in secrets && secrets[IdOf(t)] == SecretOf(t))
  {
    if IsToken(t) {
      TokenParts(t);
      if t in Tokens(secrets) {
        var id :| id in secrets && t == Token(id, secrets[id]);
        TokenOfParts(id, secrets[id]);
      }
    }
  }

  /** A secret whose token is desired is not among those an excess token names. */
  lemma {:induction false} DesiredStays(before: Secrets, mid: Secrets, after: Secrets, current: seq<string>, desired: seq<string>, id: string)
    requires TwoPhases(before, mid, after, current, desired)
    requires id in mid && (id in before ==> Token(id, before[id]) in desired)
    ensures id in after && after[id] == mid[id]
  {
    if id !in after {
      MinusIs(current, desired);
      var e :| e in Minus(current, desired) && IsToken(e) && IdOf(e) == id;
      assert e in Elements(current);
      InTokens(before, e);
      TokenParts(e);
    }
  }

  /** Whatever fails, a stored token that is desired stays. */
  lemma {:induction false} NoDesiredTokenGoes(before: Secrets, mid: Secrets, after: Secrets, current: seq<string>, desired: seq<string>)
    requires TwoPhases(before, mid, after, current, desired)
    ensures Tokens(before) * Elements(desired) <= Tokens(after)
  {
    forall t | t in Tokens(before) && t in desired ensures t in Tokens(after) {
      var id :| id in before && t == Token(id, before[id]);
      DesiredStays(before, mid, after, current, desired, id);
      InTokens(after, t);
    }
  }

  lemma {:induction false} DesiredIsStored(before: Secrets, mid: Secrets, after: Secrets, current: seq<string>, desired: seq<string>, t: string)
    requires TwoPhases(before, mid, after, current, desired) && AllThere(mid, Minus(desired, current))
    requires !Clashes(before, desired) && t in desired
    ensures t in Tokens(after)
  {
    NoDesiredTokenGoes(before, mid, after, current, desired);
    if t !in Tokens(before) {
      MinusIs(desired, current);
      assert t !in Elements(current);
      assert t in Minus(desired, current);
      var id := IdOf(t);
      InTokens(before, t);
      assert !ClashesWith(before, desired, t);
      var u := Token(id, mid[id]);
      assert u in Minus(desired, current);
      TokenOfParts(id, mid[id]);
      DesiredStays(before, mid, after, current, desired, id);
      InTokens(after, t);
    }
  }

  lemma {:induction false} StoredIsDesired(before: Secrets, mid: Secrets, after: Secrets, current: seq<string>, desired: seq<string>, id: string)
    requires TwoPhases(before, mid, after, current, desired) && AllGone(after, Minus(current, desired)) && id in after
    ensures Token(id, after[id]) in desired
  {
    var t := Token(id, after[id]);
    MinusIs(current, desired);
    MinusIs(desired, current);
    if id in before {
      InTokens(before, t);
      assert t in Elements(current);
      if t !in desired { TokenOfParts(id, after[id]); }
    }
  }

  lemma {:induction false} ClashShows(before: Secrets, mid: Secrets, after: Secrets, current: seq<string>, desired: seq<string>)
    requires TwoPhases(before, mid, after, current, desired) && Clashes(before, desired)
    ensures Tokens(after) != Elements(desired)
  {
    var t :| t in desired && IsToken(t) && ClashesWith(before, desired, t);
    InTokens(after, t);
    if IdOf(t) !in before || before[IdOf(t)] == SecretOf(t) {
      var u :| u in desired && IsToken(u) && IdOf(u) == IdOf(t) && u != t;
      InTokens(after, u);
      TokenParts(t);
      TokenParts(u);
      assert u in Elements(desired);
    }
    assert t in Elements(desired);
  }

  /** Once both phases succeed, the stored tokens are the desired ones exactly if no ID has two secrets. */
  lemma {:induction false} SuccessMeans(before: Secrets, mid: Secrets, after: Secrets, current: seq<string>, desired: seq<string>)
    requires TwoPhases(before, mid, after, current, desired)
    requires AllThere(mid, Minus(desired, current)) && AllGone(after, Minus(current, desired))
    ensures Tokens(after) == Elements(desired) <==> !Clashes(before, desired)
  {
    if Clashes(before, desired) {
      ClashShows(before, mid, after, current, desired);
    } else {
      forall t | t in desired ensures t in Tokens(after) { DesiredIsStored(before, mid, after, current, desired, t); }
      forall t | t in Tokens(after) ensures t in desired {
        var id :| id in after && t == Token(id, after[id]);
        StoredIsDesired(before, mid, after, current, desired, id);
      }
    }
  }

  /** A token whose secret is to change: a run that succeeds leaves neither the old token nor the new one. */
  lemma {:induction false} ChangedSecretIsLost(mid: Secrets, after: Secrets, was: string, wanted: string)
    requires IsToken(was) && IsToken(wanted) && IdOf(was) == IdOf(wanted) && was != wanted
    requires TwoPhases(map[IdOf(was) := SecretOf(was)], mid, after, [was], [wanted])
    requires AllThere(mid, Minus([wanted], [was])) && AllGone(after, Minus([was], [wanted]))
    ensures after == map[]
  {
    MinusIs([was], [wanted]);
    MinusIs([wanted], [was]);
    assert was in Minus([was], [wanted]);
    forall id ensures id !in after {
      if id in mid && id != IdOf(was) {
        assert Token(id, mid[id]) in Minus([wanted], [was]);
        TokenOfParts(id, mid[id]);
      }
    }
  }

  lemma {:induction false} NothingToDo(current: seq<string>, desired: seq<string>)
    requires Elements(current) == Elements(desired)
    ensures Minus(current, desired) == [] && Minus(desired, current) == []
  {
    MinusIs(current, desired);
    MinusIs(desired, current);
    forall t ensures t in current <==> t in desired { assert t in Elements(current) <==> t in Elements(desired); }
    if Minus(current, desired) != [] { assert Minus(current, desired)[0] in Minus(current, desired); }
    if Minus(desired, current) != [] { assert Minus(desired, current)[0] in Minus(desired, current); }
  }

  // ---------------------------------------------------------------------------------------------
  // When a run succeeds

  /** All calls from one write up to another went well. */
  ghost predicate AllWell(outcomes: nat -> Outcome, start: nat, end: nat) {
    forall k :: start <= k < end ==> outcomes(k).ok
  }

  predicate AllTokens(tokens: seq<string>) {
    forall i :: 0 <= i < |tokens| ==> IsToken(tokens[i])
  }

  /** How many of the tokens can be parsed: one write is tried for each, whatever became of those before. */
  function Parsable(tokens: seq<string>): nat {
    if tokens == [] then 0
    else Parsable(tokens[..|tokens| - 1]) + if IsToken(tokens[|tokens| - 1]) then 1 else 0
  }

  /** The write tried for token `i` goes well. */
  predicate IsWritten(tokens: seq<string>, outcomes: nat -> Outcome, start: nat, i: nat)
    requires i < |tokens|
  {
    IsToken(tokens[i]) && outcomes(start + Parsable(tokens[..i])).ok
  }

  predicate ThereAt(secrets: Secrets, tokens: seq<string>, outcomes: nat -> Outcome, start: nat, i: nat)
    requires i < |tokens|
  {
    IsWritten(tokens, outcomes, start, i) ==> IdOf(tokens[i]) in secrets
  }

  predicate GoneAt(secrets: Secrets, tokens: seq<string>, outcomes: nat -> Outcome, start: nat, i: nat)
    requires i < |tokens|
  {
    IsWritten(tokens, outcomes, start, i) ==> IdOf(tokens[i]) !in secrets
  }

  /** Every token whose own write goes well is there. */
  ghost predicate WrittenAreThere(secrets: Secrets, tokens: seq<string>, outcomes: nat -> Outcome, start: nat, n: nat)
    requires n <= |tokens|
  {
    forall i: nat :: i < n ==> ThereAt(secrets, tokens, outcomes, start, i)
  }

  ghost predicate WrittenAreGone(secrets: Secrets, tokens: seq<string>, outcomes: nat -> Outcome, start: nat, n: nat)
    requires n <= |tokens|
  {
    forall i: nat :: i < n ==> GoneAt(secrets, tokens, outcomes, start, i)
  }

  lemma {:induction false} MoreThere(before: Secrets, after: Secrets, tokens: seq<string>, outcomes: nat -> Outcome, start: nat, n: nat)
    requires n < |tokens| && WrittenAreThere(before, tokens, outcomes, start, n)
    requires (forall id :: id in before ==> id in after) && ThereAt(after, tokens, outcomes, start, n)
    ensures WrittenAreThere(after, tokens, outcomes, start, n + 1)
  {
    forall i: nat | i < n ensures ThereAt(after, tokens, outcomes, start, i) { assert ThereAt(before, tokens, outcomes, start, i); }
  }

  lemma {:induction false} MoreGone(before: Secrets, after: Secrets, tokens: seq<string>, outcomes: nat -> Outcome, start: nat, n: nat)
    requires n < |tokens| && WrittenAreGone(before, tokens, outcomes, start, n)
    requires (forall id :: id in after ==> id in before) && GoneAt(after, tokens, outcomes, start, n)
    ensures WrittenAreGone(after, tokens, outcomes, start, n + 1)
  {
    forall i: nat | i < n ensures GoneAt(after, tokens, outcomes, start, i) { assert GoneAt(before, tokens, outcomes, start, i); }
  }

  predicate UniqueIds(tokens: seq<string>) {
    forall i, j :: 0 <= i < j < |tokens| && IsToken(tokens[i]) && IsToken(tokens[j]) ==> IdOf(tokens[i]) != IdOf(tokens[j])
  }

  predicate AllStored(secrets: Secrets, tokens: seq<string>) {
    forall i :: 0 <= i < |tokens| && IsToken(tokens[i]) ==> IdOf(tokens[i]) in secrets
  }

  /** Every token to be created, and every one to be removed, can be parsed. */
  ghost predicate AllParse(secrets: Secrets, desired: seq<string>) {
    forall t :: (t in desired) != (t in Tokens(secrets)) ==> IsToken(t)
  }

  lemma {:induction false} MinusUnique(list: seq<string>, other: seq<string>)
    requires UniqueIds(list)
    ensures UniqueIds(Minus(list, other))
  {
    if list == [] {
    } else {
      MinusUnique(list[1..], other);
      MinusIs(list[1..], other);
      forall t | t in Minus(list[1..], other) && IsToken(t) && IsToken(list[0]) ensures IdOf(t) != IdOf(list[0]) {
        var i :| 0 <= i < |list| - 1 && list[1..][i] == t;
        assert list[i + 1] == t;
      }
    }
  }

  lemma {:induction false} ParsedParts(secrets: Secrets, current: seq<string>, desired: seq<string>)
    requires Elements(current) == Tokens(secrets)
    ensures AllParse(secrets, desired) <==> AllTokens(Minus(desired, current)) && AllTokens(Minus(current, desired))
  {
    MinusIs(desired, current);
    MinusIs(current, desired);
    forall t ensures t in current <==> t in Tokens(secrets) { assert t in Elements(current) <==> t in Tokens(secrets); }
    if AllTokens(Minus(desired, current)) && AllTokens(Minus(current, desired)) {
      forall t | (t in desired) != (t in Tokens(secrets)) ensures IsToken(t) {
        assert t in Minus(desired, current) || t in Minus(current, desired);
      }
    }
    forall i | 0 <= i < |Minus(desired, current)| ensures Minus(desired, current)[i] in Minus(desired, current) { }
    forall i | 0 <= i < |Minus(current, desired)| ensures Minus(current, desired)[i] in Minus(current, desired) { }
  }

  lemma {:induction false} ExcessIsStored(secrets: Secrets, mid: Secrets, current: seq<string>, desired: seq<string>)
    requires Elements(current) == Tokens(secrets) && forall id :: id in secrets ==> id in mid
    ensures AllStored(mid, Minus(current, desired))
  {
    var excess := Minus(current, desired);
    MinusIs(current, desired);
    forall i | 0 <= i < |excess| && IsToken(excess[i]) ensures IdOf(excess[i]) in mid {
      assert excess[i] in excess && excess[i] in Elements(current);
      InTokens(secrets, excess[i]);
    }
  }

  /** After the first `i` tokens in excess. */
  ghost predicate RemovedUpTo(before: Secrets, after: Secrets, tokens: seq<string>, i: nat, ok: bool)
    requires i <= |tokens|
  {
    OnlyRemoves(before, after, tokens) && (ok ==> AllGone(after, tokens[..i]))
  }

  /** What is left to be removed is stored, and so far success is a matter of parsing and of the writes. */
  ghost predicate GoesWell(secrets: Secrets, tokens: seq<string>, i: nat, ok: bool, outcomes: nat -> Outcome, start: nat, end: nat)
    requires i <= |tokens|
  {
    AllStored(secrets, tokens[i..]) && (ok <==> AllTokens(tokens[..i]) && AllWell(outcomes, start, end))
  }

  /** One write for each token that is missing and for each in excess, of those that can be parsed. */
  ghost predicate EverythingTried(current: seq<string>, secrets: Secrets, desired: seq<string>, start: nat, end: nat) {
    && Elements(current) == Tokens(secrets) && UniqueIds(current)
    && end == start + Parsable(Minus(desired, current)) + Parsable(Minus(current, desired))
  }

  class Cluster {
    const desiredJoinTokens: seq<string>
    var currentJoinTokens: seq<string>
    /** The secrets of the cluster itself, the number of writes tried, and what becomes of each. */
    var secrets: Secrets
    var writes: nat
    const outcomes: nat -> Outcome

    constructor (desired: seq<string>, secrets: Secrets, outcomes: nat -> Outcome)
      ensures desiredJoinTokens == desired && this.secrets == secrets && this.outcomes == outcomes
      ensures currentJoinTokens == [] && writes == 0
    {
      desiredJoinTokens, this.secrets, this.outcomes := desired, secrets, outcomes;
      currentJoinTokens, writes := [], 0;
    }

    /** Lists the stored tokens, in no particular order. */
    method List() returns (tokens: seq<string>)
      ensures Elements(tokens) == Tokens(secrets) && UniqueIds(tokens)
    {
      tokens := [];
      var left := secrets.Keys;
      while left != {}
        invariant left <= secrets.Keys
        invariant forall t :: t in tokens <==> exists id :: id in secrets && id !in left && t == Token(id, secrets[id])
        invariant UniqueIds(tokens)
        decreases left
      {
        var id :| id in left;
        ghost var token := Token(id, secrets[id]);
        forall i | 0 <= i < |tokens| && IsToken(tokens[i]) && IsToken(token) ensures IdOf(tokens[i]) != IdOf(token) {
          assert tokens[i] in tokens;
          var q :| q in secrets && q !in left && tokens[i] == Token(q, secrets[q]);
          TokenOfParts(q, secrets[q]);
          TokenOfParts(id, secrets[id]);
        }
        left := left - {id};
        tokens := tokens + [Token(id, secrets[id])];
      }
    }

    /** That the secret exists already is no failure, whatever it holds. */
    method Create(id: string, secret: string) returns (ok: bool)
      modifies this`secrets, this`writes
      ensures writes == old(writes) + 1
      ensures secrets == old(secrets) || (id !in old(secrets) && secrets == old(secrets)[id := secret])
      ensures ok == outcomes(old(writes)).ok && (ok ==> id in secrets)
    {
      var outcome := outcomes(writes);
      writes := writes + 1;
      if id in secrets { return outcome.ok; }
      if outcome.ok || outcome.applied { secrets := secrets[id := secret]; }
      return outcome.ok;
    }

    method Delete(id: string) returns (ok: bool)
      modifies this`secrets, this`writes
      ensures writes == old(writes) + 1
      ensures secrets == old(secrets) || secrets == old(secrets) - {id}
      ensures ok == (outcomes(old(writes)).ok && id in old(secrets)) && (ok ==> secrets == old(secrets) - {id})
      ensures outcomes(old(writes)).ok ==> id !in secrets
    {
      var outcome := outcomes(writes);
      writes := writes + 1;
      if id !in secrets { return false; }
      if outcome.ok || outcome.applied { secrets := secrets - {id}; }
      return outcome.ok;
    }

    /** Succeeds exactly when every token can be parsed and every write goes well. One that fails keeps none of the others
        from being tried. */
    method CreateNewTokens(tokens: seq<string>) returns (ok: bool)
      modifies this`secrets, this`writes
      ensures OnlyAdds(old(secrets), secrets, tokens) && (ok ==> AllThere(secrets, tokens))
      ensures tokens == [] ==> ok && secrets == old(secrets) && writes == old(writes)
      ensures ok <==> AllTokens(tokens) && AllWell(outcomes, old(writes), writes)
      ensures writes == old(writes) + Parsable(tokens) && WrittenAreThere(secrets, tokens, outcomes, old(writes), |tokens|)
    {
      ok := true;
      for i := 0 to |tokens|
        invariant i == 0 ==> ok && secrets == old(secrets) && writes == old(writes)
        invariant OnlyAdds(old(secrets), secrets, tokens) && (ok ==> AllThere(secrets, tokens[..i]))
        invariant ok <==> AllTokens(tokens[..i]) && AllWell(outcomes, old(writes), writes)
        invariant writes == old(writes) + Parsable(tokens[..i]) && WrittenAreThere(secrets, tokens, outcomes, old(writes), i)
      {
        MoreTokens(tokens, i);
        ghost var mid := secrets;
        if IsToken(tokens[i]) {
          TokenParts(tokens[i]);
          var created := Create(IdOf(tokens[i]), SecretOf(tokens[i]));
          MoreWell(outcomes, old(writes), writes - 1);
          ok := ok && created;
        } else {
          ok := false;
        }
        MoreThere(mid, secrets, tokens, outcomes, old(writes), i);
      }
      assert tokens[..|tokens|] == tokens;
    }

    /** One token in excess: parsed, and its secret deleted. */
    method RemoveOne(token: string) returns (ok: bool)
      modifies this`secrets, this`writes
      ensures !IsToken(token) ==> !ok && secrets == old(secrets) && writes == old(writes)
      ensures IsToken(token) ==>
        && writes == old(writes) + 1 && (secrets == old(secrets) || secrets == old(secrets) - {IdOf(token)})
        && ok == (outcomes(old(writes)).ok && IdOf(token) in old(secrets)) && (outcomes(old(writes)).ok ==> IdOf(token) !in secrets)
    {
      if !IsToken(token) { return false; }
      ok := Delete(IdOf(token));
    }

    /** Succeeds exactly when every token can be parsed and every write goes well, given that each ID is stored. One that fails
        keeps none of the others from being tried. */
    method RemoveExcessTokens(tokens: seq<string>) returns (ok: bool)
      modifies this`secrets, this`writes
      ensures OnlyRemoves(old(secrets), secrets, tokens) && (ok ==> AllGone(secrets, tokens))
      ensures tokens == [] ==> ok && secrets == old(secrets) && writes == old(writes)
      ensures UniqueIds(tokens) && AllStored(old(secrets), tokens) ==>
        (ok <==> AllTokens(tokens) && AllWell(outcomes, old(writes), writes))
      ensures writes == old(writes) + Parsable(tokens) && WrittenAreGone(secrets, tokens, outcomes, old(writes), |tokens|)
    {
      ok := true;
      ghost var each := UniqueIds(tokens) && AllStored(secrets, tokens);
      for i := 0 to |tokens|
        invariant i == 0 ==> ok && secrets == old(secrets) && writes == old(writes)
        invariant RemovedUpTo(old(secrets), secrets, tokens, i, ok)
        invariant each ==> GoesWell(secrets, tokens, i, ok, outcomes, old(writes), writes)
        invariant writes == old(writes) + Parsable(tokens[..i]) && WrittenAreGone(secrets, tokens, outcomes, old(writes), i)
      {
        MoreTokens(tokens, i);
        ghost var mid, tried := secrets, writes;
        var deleted := RemoveOne(tokens[i]);
        MoreRemoved(old(secrets), mid, secrets, tokens, i, ok, deleted);
        if each { GoesOn(mid, secrets, tokens, i, ok, deleted, outcomes, old(writes), tried, writes); }
        ok := ok && deleted;
        MoreGone(mid, secrets, tokens, outcomes, old(writes), i);
      }
      assert tokens[..|tokens|] == tokens;
    }

    /** Succeeds exactly when there is a client, the secrets can be listed, everything to be created or removed can be parsed
        and every write goes well. On success the stored tokens are the desired ones exactly if no ID has two secrets, and then
        the next run writes nothing. However it ends, no stored token that is desired goes, and every token to be created or
        removed that can be parsed was tried. */
    method ReconcileJoinTokens(connected: bool, listed: bool) returns (ok: bool)
      modifies this
      ensures !connected ==> !ok && currentJoinTokens == old(currentJoinTokens)
      ensures connected && !listed ==> !ok && currentJoinTokens == []
      ensures !connected || !listed ==> secrets == old(secrets) && writes == old(writes)
      ensures ok <==> connected && listed && AllParse(old(secrets), desiredJoinTokens) && AllWell(outcomes, old(writes), writes)
      ensures ok ==> (Tokens(secrets) == Elements(desiredJoinTokens) <==> !Clashes(old(secrets), desiredJoinTokens))
      ensures Tokens(old(secrets)) * Elements(desiredJoinTokens) <= Tokens(secrets)
      ensures Tokens(old(secrets)) == Elements(desiredJoinTokens) ==>
        ok == (connected && listed) && writes == old(writes) && secrets == old(secrets)
      ensures connected && listed ==> exists current :: EverythingTried(current, old(secrets), desiredJoinTokens, old(writes), writes)
      ensures connected && listed ==>
        if ok then currentJoinTokens == desiredJoinTokens else Elements(currentJoinTokens) == Tokens(old(secrets))
    {
      if !connected { return false; }
      currentJoinTokens := [];
      if !listed { return false; }
      var current := List();
      currentJoinTokens := current;
      var missing := SubtractTokens(desiredJoinTokens, current);
      var excess := SubtractTokens(current, desiredJoinTokens);
      if Tokens(secrets) == Elements(desiredJoinTokens) { NothingToDo(current, desiredJoinTokens); }
      ParsedParts(secrets, current, desiredJoinTokens);
      MinusUnique(current, desiredJoinTokens);
      var created := CreateNewTokens(missing);
      ghost var mid := secrets;
      ExcessIsStored(old(secrets), mid, current, desiredJoinTokens);
      var removed := RemoveExcessTokens(excess);
      NoDesiredTokenGoes(old(secrets), mid, secrets, current, desiredJoinTokens);
      if created && removed {
        SuccessMeans(old(secrets), mid, secrets, current, desiredJoinTokens);
        currentJoinTokens := desiredJoinTokens;
      }
      assert EverythingTried(current, old(secrets), desiredJoinTokens, old(writes), writes);
      return created && removed;
    }
  }

  lemma {:induction false} MoreTokens(tokens: seq<string>, i: nat)
    requires i < |tokens|
    ensures tokens[..i + 1] == tokens[..i] + [tokens[i]]
    ensures AllTokens(tokens[..i + 1]) <==> AllTokens(tokens[..i]) && IsToken(tokens[i])
    ensures Parsable(tokens[..i + 1]) == Parsable(tokens[..i]) + if IsToken(tokens[i]) then 1 else 0
  {
    assert tokens[..i + 1] == tokens[..i] + [tokens[i]];
    if AllTokens(tokens[..i + 1]) {
      assert tokens[..i + 1][i] == tokens[i];
      forall j | 0 <= j < i ensures IsToken(tokens[..i][j]) { assert tokens[..i][j] == tokens[..i + 1][j]; }
    }
  }

  lemma {:induction false} MoreWell(outcomes: nat -> Outcome, start: nat, end: nat)
    requires start <= end
    ensures AllWell(outcomes, start, end + 1) <==> AllWell(outcomes, start, end) && outcomes(end).ok
  {
  }

  lemma {:induction false} MoreRemoved(before: Secrets, mid: Secrets, after: Secrets, tokens: seq<string>, i: nat, ok: bool, deleted: bool)
    requires i < |tokens| && RemovedUpTo(before, mid, tokens, i, ok)
    requires after == mid || (IsToken(tokens[i]) && after == mid - {IdOf(tokens[i])})
    requires deleted ==> IsToken(tokens[i]) && IdOf(tokens[i]) !in after
    ensures RemovedUpTo(before, after, tokens, i + 1, ok && deleted)
  {
    assert tokens[..i + 1] == tokens[..i] + [tokens[i]];
    assert tokens[i] in tokens;
  }

  lemma {:induction false} StoredTail(secrets: Secrets, tokens: seq<string>, i: nat)
    requires i < |tokens| && UniqueIds(tokens) && AllStored(secrets, tokens[i..])
    ensures IsToken(tokens[i]) ==> IdOf(tokens[i]) in secrets && AllStored(secrets - {IdOf(tokens[i])}, tokens[i + 1..])
    ensures AllStored(secrets, tokens[i + 1..])
  {
    assert tokens[i..][0] == tokens[i];
    var rest := tokens[i + 1..];
    forall j | 0 <= j < |rest| && IsToken(rest[j]) ensures IdOf(rest[j]) in secrets {
      assert rest[j] == tokens[i..][j + 1];
    }
  }

  lemma {:induction false} GoesOn(mid: Secrets, after: Secrets, tokens: seq<string>, i: nat, ok: bool, deleted: bool,
      outcomes: nat -> Outcome, start: nat, end: nat, end': nat)
    requires i < |tokens| && UniqueIds(tokens) && start <= end && GoesWell(mid, tokens, i, ok, outcomes, start, end)
    requires !IsToken(tokens[i]) ==> !deleted && after == mid && end' == end
    requires IsToken(tokens[i]) ==>
      && end' == end + 1 && (after == mid || after == mid - {IdOf(tokens[i])})
      && deleted == (outcomes(end).ok && IdOf(tokens[i]) in mid)
    ensures GoesWell(after, tokens, i + 1, ok && deleted, outcomes, start, end')
  {
    StoredTail(mid, tokens, i);
    MoreTokens(tokens, i);
    MoreWell(outcomes, start, end);
  }
}
