/** The record a hypervisor keeps of the files on its host: for each component, the digest of what was written
    at each path. Uploads skip what is recorded; deleting a component forgets its entry. */
module Files {
  import opened Paths

  /** A digest of file contents. Digests of different contents differ. */
  datatype Digest = Sha1(contents: string)

  type FileMap = map<Path, Digest>
  type ComponentFileMap = map<string, FileMap>
  type ClusterFileMap = map<string, ComponentFileMap>
  type NamespacedClusterFileMap = map<string, ClusterFileMap>

  type Host = map<Path, string>

  // ---------------------------------------------------------------------------------------------
  // The three levels as one

  predicate Recorded(files: NamespacedClusterFileMap, o: Owner) {
    && o.clusterNamespace in files
    && o.cluster in files[o.clusterNamespace]
    && o.component in files[o.clusterNamespace][o.cluster]
  }

  function Entry(files: NamespacedClusterFileMap, o: Owner): FileMap {
    if Recorded(files, o) then files[o.clusterNamespace][o.cluster][o.component] else map[]
  }

  function Flat(files: NamespacedClusterFileMap): map<Owner, FileMap> {
    map ns, c, n | ns in files && c in files[ns] && n in files[ns][c] :: Owner(ns, c, n) := files[ns][c][n]
  }

  /** No namespace without clusters, no cluster without components. */
  ghost predicate NoEmptyLevels(files: NamespacedClusterFileMap) {
    forall ns :: ns in files ==> files[ns] != map[] && forall c :: c in files[ns] ==> files[ns][c] != map[]
  }

  /** Replaces the entry of one component, creating the levels above it. */
  function Record(files: NamespacedClusterFileMap, o: Owner, entry: FileMap): NamespacedClusterFileMap {
    var clusters := if o.clusterNamespace in files then files[o.clusterNamespace] else map[];
    var components := if o.cluster in clusters then clusters[o.cluster] else map[];
    files[o.clusterNamespace := clusters[o.cluster := components[o.component := entry]]]
  }

  /** `cleanupHypervisorFileMap`: deletes the entry, then each level it leaves empty. */
  function Forget(files: NamespacedClusterFileMap, o: Owner): NamespacedClusterFileMap {
    if o.clusterNamespace !in files || o.cluster !in files[o.clusterNamespace] then files
    else
      var components := files[o.clusterNamespace][o.cluster] - {o.component};
      var clusters := if components == map[] then files[o.clusterNamespace] - {o.cluster}
                      else files[o.clusterNamespace][o.cluster := components];
      if clusters == map[] then files - {o.clusterNamespace} else files[o.clusterNamespace := clusters]
  }

  lemma {:induction false} FlatEntry(files: NamespacedClusterFileMap, o: Owner)
    ensures o in Flat(files) <==> Recorded(files, o)
    ensures o in Flat(files) ==> Flat(files)[o] == Entry(files, o)
  {
  }

  /** Forgetting on the three levels is deleting one key of the flat map: other components are untouched. */
  lemma {:induction false} ForgetRefinesDelete(files: NamespacedClusterFileMap, o: Owner)
    ensures Flat(Forget(files, o)) == Flat(files) - {o}
  {
    forall q ensures SameAtOwner(Flat(Forget(files, o)), Flat(files) - {o}, q) { FlatForgetAt(files, o, q); }
    SameMaps(Flat(Forget(files, o)), Flat(files) - {o});
  }

  ghost predicate SameAtOwner(a: map<Owner, FileMap>, b: map<Owner, FileMap>, q: Owner) {
    (q in a <==> q in b) && (q in a && q in b ==> a[q] == b[q])
  }

  lemma {:induction false} SameMaps(a: map<Owner, FileMap>, b: map<Owner, FileMap>)
    requires forall q :: SameAtOwner(a, b, q)
    ensures a == b
  {
    forall q ensures (q in a <==> q in b) && (q in a ==> a[q] == b[q]) { assert SameAtOwner(a, b, q); }
  }

  lemma {:induction false} FlatForgetAt(files: NamespacedClusterFileMap, o: Owner, q: Owner)
    ensures SameAtOwner(Flat(Forget(files, o)), Flat(files) - {o}, q)
  {
    ForgetAt(files, o, q);
    FlatEntry(files, q);
    FlatEntry(Forget(files, o), q);
  }

  /** Forgetting leaves no empty level on the path it touches, and none anywhere if there was none. */
  lemma {:induction false} ForgetLeavesNoEmptyLevel(files: NamespacedClusterFileMap, o: Owner)
    ensures NoEmptyLevels(files) ==> NoEmptyLevels(Forget(files, o))
    ensures o.clusterNamespace in files && o.cluster in files[o.clusterNamespace] ==>
      var files' := Forget(files, o);
      o.clusterNamespace in files' ==>
        && files'[o.clusterNamespace] != map[]
        && (o.cluster in files'[o.clusterNamespace] ==> files'[o.clusterNamespace][o.cluster] != map[])
  {
  }

  lemma {:induction false} ForgetAt(files: NamespacedClusterFileMap, o: Owner, q: Owner)
    ensures Recorded(Forget(files, o), q) <==> Recorded(files, q) && q != o
    ensures Recorded(Forget(files, o), q) ==> Entry(Forget(files, o), q) == Entry(files, q)
  {
    if o.clusterNamespace in files && o.cluster in files[o.clusterNamespace] {
      var components := files[o.clusterNamespace][o.cluster] - {o.component};
      var clusters := if components == map[] then files[o.clusterNamespace] - {o.cluster}
                      else files[o.clusterNamespace][o.cluster := components];
      assert components == map[] ==> q.component !in components;
      assert clusters == map[] ==> q.cluster !in clusters;
    }
  }

  lemma {:induction false} RecordAt(files: NamespacedClusterFileMap, o: Owner, entry: FileMap, q: Owner)
    ensures Recorded(Record(files, o, entry), q) <==> Recorded(files, q) || q == o
    ensures Entry(Record(files, o, entry), q) == if q == o then entry else Entry(files, q)
  {
  }

  // ---------------------------------------------------------------------------------------------
  // Uploads

  function Digests(contents: map<Path, string>): FileMap {
    map p | p in contents :: Sha1(contents[p])
  }

  /** `FileUpToDate` */
  predicate UpToDate(files: NamespacedClusterFileMap, o: Owner, p: Path, contents: string) {
    p in Entry(files, o) && Entry(files, o)[p] == Sha1(contents)
  }

  /** The files an upload writes; the others are skipped. */
  function Pending(files: NamespacedClusterFileMap, o: Owner, contents: map<Path, string>): map<Path, string> {
    map p | p in contents && !UpToDate(files, o, p, contents[p]) :: contents[p]
  }

  /** The record after a successful upload. */
  function Uploaded(files: NamespacedClusterFileMap, o: Owner, contents: map<Path, string>): NamespacedClusterFileMap {
    if Pending(files, o, contents) == map[] then files
    else Record(files, o, Entry(files, o) + Digests(contents))
  }

  /** What the cleanup pod leaves on the host. */
  function Removed(host: Host, dir: Path): Host {
    map p | p in host && !Under(dir, p) :: host[p]
  }

  ghost predicate RecordMatches(files: NamespacedClusterFileMap, host: Host, o: Owner, p: Path) {
    p in Entry(files, o) ==> p in host && Entry(files, o)[p] == Sha1(host[p])
  }

  /** Every recorded digest is the digest of the file on the host. */
  ghost predicate Matches(files: NamespacedClusterFileMap, host: Host) {
    forall o, p :: RecordMatches(files, host, o, p)
  }

  /** Writing these files makes the record component `o` has of `p` wrong. */
  predicate Outdates(written: map<Path, string>, files: NamespacedClusterFileMap, o: Owner, p: Path) {
    p in written && p in Entry(files, o) && Entry(files, o)[p] != Sha1(written[p])
  }

  lemma {:induction false} UploadedAt(files: NamespacedClusterFileMap, o: Owner, contents: map<Path, string>, q: Owner)
    ensures Entry(Uploaded(files, o, contents), q) ==
      if q == o then Entry(files, o) + Digests(contents) else Entry(files, q)
  {
    RecordAt(files, o, Entry(files, o) + Digests(contents), q);
    if Pending(files, o, contents) == map[] {
      forall p | p in contents ensures p in Entry(files, o) && Entry(files, o)[p] == Sha1(contents[p]) {
        assert p !in Pending(files, o, contents);
      }
      assert Entry(files, o) + Digests(contents) == Entry(files, o);
    }
  }

  /** Caching refines writing: when the records match the host, writing only the pending files leaves the host as
      if every file had been written. */
  lemma {:induction false} UploadRefinesWrite(files: NamespacedClusterFileMap, host: Host, o: Owner, contents: map<Path, string>)
    requires Matches(files, host)
    ensures host + Pending(files, o, contents) == host + contents
  {
    forall p | p in contents && p !in Pending(files, o, contents) ensures p in host && host[p] == contents[p] {
      assert UpToDate(files, o, p, contents[p]);
      assert RecordMatches(files, host, o, p);
    }
  }

  lemma {:induction false} UploadAtRecord(files: NamespacedClusterFileMap, host: Host, o: Owner,
      contents: map<Path, string>, q: Owner, p: Path)
    requires Matches(files, host)
    ensures RecordMatches(Uploaded(files, o, contents), host + Pending(files, o, contents), q, p) <==>
      q == o || !Outdates(Pending(files, o, contents), files, q, p)
  {
    UploadedAt(files, o, contents, q);
    UploadRefinesWrite(files, host, o, contents);
    assert RecordMatches(files, host, q, p);
  }

  /** A successful upload keeps the records matching exactly when no other component records one of the written
      paths with other contents. */
  lemma {:induction false} UploadKeepsMatching(files: NamespacedClusterFileMap, host: Host, o: Owner, contents: map<Path, string>)
    requires Matches(files, host)
    ensures Matches(Uploaded(files, o, contents), host + Pending(files, o, contents)) <==>
      forall q, p :: q != o ==> !Outdates(Pending(files, o, contents), files, q, p)
  {
    forall q, p ensures RecordMatches(Uploaded(files, o, contents), host + Pending(files, o, contents), q, p) <==>
      q == o || !Outdates(Pending(files, o, contents), files, q, p)
    {
      UploadAtRecord(files, host, o, contents, q, p);
    }
  }

  function Restrict(contents: map<Path, string>, paths: set<Path>): map<Path, string> {
    map p | p in contents && p in paths :: contents[p]
  }

  /** A failed pod may have written any part of the pending files. The records match whatever that part was
      exactly when writing all of them would outdate no record: neither an old one of the component itself nor one
      of another component. */
  lemma {:induction false} FailureIsHarmless(files: NamespacedClusterFileMap, host: Host, pending: map<Path, string>)
    requires Matches(files, host)
    ensures (forall paths :: Matches(files, host + Restrict(pending, paths))) <==>
      forall q, p :: !Outdates(pending, files, q, p)
  {
    if forall q, p :: !Outdates(pending, files, q, p) {
      forall q, p, paths ensures RecordMatches(files, host + Restrict(pending, paths), q, p) {
        assert RecordMatches(files, host, q, p) && !Outdates(pending, files, q, p);
      }
    }
    if forall paths :: Matches(files, host + Restrict(pending, paths)) {
      forall q, p ensures !Outdates(pending, files, q, p) {
        assert Restrict(pending, pending.Keys) == pending;
        assert Matches(files, host + Restrict(pending, pending.Keys));
        assert RecordMatches(files, host + Restrict(pending, pending.Keys), q, p);
      }
    }
  }

  /** Removing the directory removes a file component `o` has a record of. */
  predicate Endangers(dir: Path, files: NamespacedClusterFileMap, o: Owner, p: Path) {
    p in Entry(files, o) && Under(dir, p)
  }

  /** Removing a directory and forgetting the entry of its component keeps the records matching exactly when no
      other component has a record below that directory. */
  lemma {:induction false} ForgetKeepsMatching(files: NamespacedClusterFileMap, host: Host, o: Owner, dir: Path)
    requires Matches(files, host)
    ensures Matches(Forget(files, o), Removed(host, dir)) <==>
      forall q, p :: q != o ==> !Endangers(dir, files, q, p)
  {
    forall q, p ensures RecordMatches(Forget(files, o), Removed(host, dir), q, p) <==>
      q == o || !Endangers(dir, files, q, p)
    {
      ForgetAt(files, o, q);
      assert RecordMatches(files, host, q, p);
    }
  }

  // ---------------------------------------------------------------------------------------------
  // Whole runs

  /** Uploads and cleanups of components; `ran` tells whether the pod that does the work succeeded. Files can also be
      written without a record: by a pod that fails half way, or if the record is lost with the write of the hypervisor. */
  datatype Event =
    | Upload(owner: Owner, contents: map<Path, string>, ran: bool)
    | Cleanup(owner: Owner, ran: bool)
    | Unrecorded(owner: Owner, written: map<Path, string>)

  datatype Machine = Machine(files: NamespacedClusterFileMap, host: Host)

  function Next(m: Machine, e: Event): Machine {
    match e
    case Upload(o, contents, ran) =>
      if ran then Machine(Uploaded(m.files, o, contents), m.host + Pending(m.files, o, contents)) else m
    case Cleanup(o, ran) => if ran then Machine(Forget(m.files, o), Removed(m.host, SecretsDir(o))) else m
    case Unrecorded(_, written) => Machine(m.files, m.host + written)
  }

  function Run(m: Machine, events: seq<Event>): Machine {
    if events == [] then m else Next(Run(m, events[..|events| - 1]), events[|events| - 1])
  }

  /** Each path has one owner: only its owner uploads it, and a cleanup removes nothing that another component owns. */
  ghost predicate RespectsOwners(ownerOf: Path -> Owner, e: Event) {
    match e
    case Upload(o, contents, _) => forall p :: p in contents ==> ownerOf(p) == o
    case Cleanup(o, _) => forall p :: Under(SecretsDir(o), p) ==> ownerOf(p) == o
    case Unrecorded(o, written) => forall p :: p in written ==> ownerOf(p) == o
  }

  /** Each component has records of its own paths only. */
  ghost predicate OwnRecords(ownerOf: Path -> Owner, files: NamespacedClusterFileMap) {
    forall o, p :: p in Entry(files, o) ==> ownerOf(p) == o
  }

  lemma {:induction false} NextOwnRecords(ownerOf: Path -> Owner, m: Machine, e: Event)
    requires OwnRecords(ownerOf, m.files) && RespectsOwners(ownerOf, e)
    ensures OwnRecords(ownerOf, Next(m, e).files)
  {
    forall q, p | p in Entry(Next(m, e).files, q) ensures ownerOf(p) == q {
      match e
      case Upload(o, contents, _) => UploadedAt(m.files, o, contents, q);
      case Cleanup(o, _) => ForgetAt(m.files, o, q);
      case Unrecorded(_, _) =>
    }
  }

  lemma {:induction false} RunOwnRecords(ownerOf: Path -> Owner, host: Host, events: seq<Event>)
    requires forall e :: e in events ==> RespectsOwners(ownerOf, e)
    ensures OwnRecords(ownerOf, Run(Machine(map[], host), events).files)
  {
    if events == [] {
    } else {
      var init, e := events[..|events| - 1], events[|events| - 1];
      assert e in events;
      RunOwnRecords(ownerOf, host, init);
      NextOwnRecords(ownerOf, Run(Machine(map[], host), init), e);
    }
  }

  /** The event leaves a record of a path that does not match the host. */
  predicate Spoils(m: Machine, e: Event, o: Owner, p: Path) {
    e.Unrecorded? && e.owner == o && Outdates(e.written, m.files, o, p)
  }

  /** The event makes record and host agree on a path, or drops the record. */
  predicate Heals(m: Machine, e: Event, o: Owner, p: Path) {
    && e.owner == o
    && match e
       case Upload(_, contents, ran) => ran && p in contents && !UpToDate(m.files, o, p, contents[p])
       case Cleanup(_, ran) => ran
       case Unrecorded(_, written) => p in written && !Outdates(written, m.files, o, p)
  }

  lemma {:induction false} UploadAtPath(ownerOf: Path -> Owner, m: Machine, q: Owner, contents: map<Path, string>, o: Owner, p: Path)
    requires ownerOf(p) == o && RespectsOwners(ownerOf, Upload(q, contents, true))
    ensures var m' := Next(m, Upload(q, contents, true));
      RecordMatches(m'.files, m'.host, o, p) <==> RecordMatches(m.files, m.host, o, p) || Heals(m, Upload(q, contents, true), o, p)
  {
    UploadedAt(m.files, q, contents, o);
  }

  lemma {:induction false} CleanupAtPath(ownerOf: Path -> Owner, m: Machine, q: Owner, o: Owner, p: Path)
    requires ownerOf(p) == o && RespectsOwners(ownerOf, Cleanup(q, true))
    ensures var m' := Next(m, Cleanup(q, true));
      RecordMatches(m'.files, m'.host, o, p) <==> RecordMatches(m.files, m.host, o, p) || q == o
  {
    ForgetAt(m.files, q, o);
  }

  /** Only what spoils a record can make it wrong, and only what heals it can make it right again. */
  lemma {:induction false} NextAtPath(ownerOf: Path -> Owner, m: Machine, e: Event, o: Owner, p: Path)
    requires ownerOf(p) == o && RespectsOwners(ownerOf, e)
    ensures var m' := Next(m, e);
      RecordMatches(m'.files, m'.host, o, p) <==>
        !Spoils(m, e, o, p) && (Heals(m, e, o, p) || RecordMatches(m.files, m.host, o, p))
  {
    match e
    case Upload(q, contents, ran) => if ran { UploadAtPath(ownerOf, m, q, contents, o, p); }
    case Cleanup(q, ran) => if ran { CleanupAtPath(ownerOf, m, q, o, p); }
    case Unrecorded(_, _) =>
  }

  /** Before event `i`. */
  function At(host: Host, events: seq<Event>, i: nat): Machine
    requires i <= |events|
  {
    Run(Machine(map[], host), events[..i])
  }

  /** Event `i` spoiled the record, and none up to `n` healed it since. */
  ghost predicate SpoiledBy(host: Host, events: seq<Event>, n: nat, o: Owner, p: Path, i: nat)
    requires n <= |events|
  {
    i < n && Spoils(At(host, events, i), events[i], o, p) && forall j :: i < j < n ==> !Heals(At(host, events, j), events[j], o, p)
  }

  ghost predicate Spoiled(host: Host, events: seq<Event>, n: nat, o: Owner, p: Path)
    requires n <= |events|
  {
    exists i: nat :: SpoiledBy(host, events, n, o, p, i)
  }

  lemma {:induction false} SpoiledByWrite(host: Host, events: seq<Event>, n: nat, o: Owner, p: Path)
    requires n <= |events|
    ensures Spoiled(host, events, n, o, p) ==> exists e :: e in events && e.Unrecorded? && e.owner == o && p in e.written
  {
    if Spoiled(host, events, n, o, p) {
      var i: nat :| SpoiledBy(host, events, n, o, p, i);
      assert events[i] in events;
    }
  }

  lemma {:induction false} SpoiledLater(host: Host, events: seq<Event>, n: nat, k: nat, o: Owner, p: Path, i: nat)
    requires k == n + 1 <= |events| && i < n
    ensures SpoiledBy(host, events, k, o, p, i) <==>
      SpoiledBy(host, events, n, o, p, i) && !Heals(At(host, events, n), events[n], o, p)
  {
  }

  /** A record is spoiled by the last event, or was before and is not healed by it. */
  lemma {:induction false} SpoiledNext(host: Host, events: seq<Event>, n: nat, k: nat, o: Owner, p: Path)
    requires k == n + 1 <= |events|
    ensures Spoiled(host, events, k, o, p) <==>
      || Spoils(At(host, events, n), events[n], o, p)
      || (Spoiled(host, events, n, o, p) && !Heals(At(host, events, n), events[n], o, p))
  {
    if Spoiled(host, events, k, o, p) {
      var i: nat :| SpoiledBy(host, events, k, o, p, i);
      if i < n { SpoiledLater(host, events, n, k, o, p, i); }
    }
    if Spoils(At(host, events, n), events[n], o, p) {
      assert SpoiledBy(host, events, k, o, p, n);
    } else if Spoiled(host, events, n, o, p) {
      var i: nat :| SpoiledBy(host, events, n, o, p, i);
      SpoiledLater(host, events, n, k, o, p, i);
    }
  }

  lemma {:induction false} AtNext(host: Host, events: seq<Event>, n: nat)
    requires n < |events|
    ensures At(host, events, n + 1) == Next(At(host, events, n), events[n])
  {
    assert events[..n + 1][..n] == events[..n];
  }

  /** The record matches the host exactly if it is not spoiled. */
  ghost predicate SpoiledIfWrong(host: Host, events: seq<Event>, n: nat, o: Owner, p: Path)
    requires n <= |events|
  {
    var m := At(host, events, n);
    RecordMatches(m.files, m.host, o, p) <==> !Spoiled(host, events, n, o, p)
  }

  lemma {:induction false} WrongNext(ownerOf: Path -> Owner, host: Host, events: seq<Event>, n: nat, k: nat, o: Owner, p: Path)
    requires k == n + 1 <= |events| && ownerOf(p) == o && RespectsOwners(ownerOf, events[n]) && SpoiledIfWrong(host, events, n, o, p)
    ensures SpoiledIfWrong(host, events, k, o, p)
  {
    AtNext(host, events, n);
    NextAtPath(ownerOf, At(host, events, n), events[n], o, p);
    SpoiledNext(host, events, n, k, o, p);
  }

  lemma {:induction false} SpoiledExactly(ownerOf: Path -> Owner, host: Host, events: seq<Event>, n: nat, o: Owner, p: Path)
    requires n <= |events| && ownerOf(p) == o && forall e :: e in events ==> RespectsOwners(ownerOf, e)
    ensures SpoiledIfWrong(host, events, n, o, p)
  {
    if n == 0 {
    } else {
      SpoiledExactly(ownerOf, host, events, n - 1, o, p);
      assert events[n - 1] in events;
      WrongNext(ownerOf, host, events, n - 1, n, o, p);
    }
  }

  /** Over any run of uploads, cleanups and unrecorded writes in which each path has one owner, on a fresh record and whatever
      is on the host to start with: every recorded digest matches the host exactly if every unrecorded write of other contents
      than recorded was made good since: by an upload of contents other than recorded, by an unrecorded write of the recorded
      contents, or by a cleanup. */
  lemma {:induction false} CacheAgreesExactly(ownerOf: Path -> Owner, host: Host, events: seq<Event>)
    requires forall e :: e in events ==> RespectsOwners(ownerOf, e)
    ensures var m := Run(Machine(map[], host), events);
      Matches(m.files, m.host) <==> forall o, p :: !Spoiled(host, events, |events|, o, p)
  {
    var m := Run(Machine(map[], host), events);
    assert events[..|events|] == events;
    RunOwnRecords(ownerOf, host, events);
    forall o, p ensures RecordMatches(m.files, m.host, o, p) <==> !Spoiled(host, events, |events|, o, p) {
      if ownerOf(p) == o {
        SpoiledExactly(ownerOf, host, events, |events|, o, p);
      } else {
        SpoiledByWrite(host, events, |events|, o, p);
      }
    }
  }

  /** A successful upload leaves the host as if every file had been written exactly if no file it skips is different there. */
  lemma {:induction false} SkipsOnlyEqual(files: NamespacedClusterFileMap, host: Host, o: Owner, contents: map<Path, string>)
    ensures host + Pending(files, o, contents) == host + contents <==>
      forall p :: p in contents && UpToDate(files, o, p, contents[p]) ==> p in host && host[p] == contents[p]
  {
    var a, b := host + Pending(files, o, contents), host + contents;
    if a == b {
      forall p | p in contents && UpToDate(files, o, p, contents[p]) ensures p in host && host[p] == contents[p] {
        assert p in b && p in a && a[p] == b[p];
      }
    }
  }

  /** So with no such write every recorded digest matches the host, and a successful upload leaves the host as if every file
      had been written. */
  lemma {:induction false} CacheAgreesWithHost(ownerOf: Path -> Owner, host: Host, events: seq<Event>)
    requires forall e :: e in events ==> RespectsOwners(ownerOf, e) && !e.Unrecorded?
    ensures var m := Run(Machine(map[], host), events); Matches(m.files, m.host)
    ensures events != [] && events[|events| - 1].Upload? && events[|events| - 1].ran ==>
      var before := Run(Machine(map[], host), events[..|events| - 1]);
      Run(Machine(map[], host), events).host == before.host + events[|events| - 1].contents
  {
    NothingSpoiled(host, events);
    CacheAgreesExactly(ownerOf, host, events);
    if events != [] {
      var init, e := events[..|events| - 1], events[|events| - 1];
      NothingSpoiled(host, init);
      CacheAgreesExactly(ownerOf, host, init);
      var m := Run(Machine(map[], host), init);
      if e.Upload? && e.ran { UploadRefinesWrite(m.files, m.host, e.owner, e.contents); }
    }
  }

  lemma {:induction false} NothingSpoiled(host: Host, events: seq<Event>)
    requires forall e :: e in events ==> !e.Unrecorded?
    ensures forall o, p :: !Spoiled(host, events, |events|, o, p)
  {
    forall o, p ensures !Spoiled(host, events, |events|, o, p) { SpoiledByWrite(host, events, |events|, o, p); }
  }

  lemma {:induction false} RunOneMore(m: Machine, events: seq<Event>, e: Event)
    ensures Run(m, events + [e]) == Next(Run(m, events), e)
  {
    assert (events + [e])[..|events|] == events;
  }

  /** A write whose record is lost, and then the recorded contents again: the upload is skipped, and the host keeps what was
      written without a record. */
  lemma {:induction false} LostRecordSkipsUpload(o: Owner, p: Path, x: string, y: string, host: Host)
    requires x != y
    ensures var m := Run(Machine(map[], host), [Upload(o, map[p := x], true), Unrecorded(o, map[p := y]), Upload(o, map[p := x], true)]);
      p in m.host && m.host[p] == y
  {
    var e1, e2 := Upload(o, map[p := x], true), Unrecorded(o, map[p := y]);
    var m := Machine(map[], host);
    var m2 := Next(Next(m, e1), e2);
    assert [] + [e1] == [e1] && [e1] + [e2] == [e1, e2] && [e1, e2] + [e1] == [e1, e2, e1];
    RunOneMore(m, [], e1);
    RunOneMore(m, [e1], e2);
    RunOneMore(m, [e1, e2], e1);
    FirstUpload(o, p, x, host);
    assert UpToDate(m2.files, o, p, x);
    assert Pending(m2.files, o, map[p := x]) == map[];
  }

  // ---------------------------------------------------------------------------------------------
  // The paths components upload to: below their own secrets directory, and the wireguard unit files

  /** Whose secrets directory a path lies in. */
  function SecretsOwner(p: Path): Owner {
    if |p| >= 6 && p[..3] == SECRETS then Owner(p[3], p[4], p[5]) else Owner("", "", "")
  }

  /** The owner of a path, given the ingress that runs each unit. */
  function HostOwner(units: map<Path, Owner>): Path -> Owner {
    p => if p in units then units[p] else SecretsOwner(p)
  }

  lemma {:induction false} SecretsHaveOneOwner(o: Owner, p: Path)
    requires ProperOwner(o) && Under(SecretsDir(o), p)
    ensures SecretsOwner(p) == o && p[..3] == SECRETS
  {
    SecretsDirShape(o);
    assert SecretsDir(o) == p[..6];
  }

  /** Unit files are units of clusters. */
  ghost predicate AreUnits(units: map<Path, Owner>) {
    forall p :: p in units ==>
      var o := units[p]; '/' !in o.clusterNamespace && '/' !in o.cluster && p == ServiceFile(o.clusterNamespace, o.cluster)
  }

  /** Components with proper names, uploading below their own secrets directory or the unit they run. */
  ghost predicate OwnPlace(units: map<Path, Owner>, e: Event) {
    && ProperOwner(e.owner)
    && !e.Unrecorded?
    && (e.Upload? ==> forall p :: p in e.contents ==> Under(SecretsDir(e.owner), p) || (p in units && units[p] == e.owner))
  }

  lemma {:induction false} UnitsAreNoSecrets(units: map<Path, Owner>, p: Path)
    requires AreUnits(units) && p in units
    ensures |p| < 3 || p[..3] != SECRETS
  {
    ServiceFileName(units[p].clusterNamespace, units[p].cluster);
    if |p| >= 3 { assert p[..3][0] == SYSTEMD[0]; }
  }

  lemma {:induction false} OwnPlaceIsOwned(units: map<Path, Owner>, e: Event)
    requires AreUnits(units) && OwnPlace(units, e)
    ensures RespectsOwners(HostOwner(units), e)
  {
    forall p | Under(SecretsDir(e.owner), p) ensures HostOwner(units)(p) == e.owner {
      SecretsHaveOneOwner(e.owner, p);
      if p in units { UnitsAreNoSecrets(units, p); }
    }
  }

  /** The cache agrees with the host for the uploads the components make, wireguard unit files included, as long as no two
      ingresses run the same unit. */
  lemma {:induction false} CacheOfComponents(units: map<Path, Owner>, host: Host, events: seq<Event>)
    requires AreUnits(units) && forall e :: e in events ==> OwnPlace(units, e)
    ensures Matches(Run(Machine(map[], host), events).files, Run(Machine(map[], host), events).host)
    ensures events != [] && events[|events| - 1].Upload? && events[|events| - 1].ran ==>
      var before := Run(Machine(map[], host), events[..|events| - 1]);
      Run(Machine(map[], host), events).host == before.host + events[|events| - 1].contents
  {
    forall e | e in events ensures RespectsOwners(HostOwner(units), e) { OwnPlaceIsOwned(units, e); }
    CacheAgreesWithHost(HostOwner(units), host, events);
  }

  /** Two components that share a path, as the ingresses of clusters `a-b`/`c` and `a`/`b-c` share their unit file, end up
      with a record that does not match exactly when they upload different contents. */
  lemma {:induction false} SharedPathBreaks(o: Owner, q: Owner, p: Path, x: string, y: string, host: Host)
    requires o != q
    ensures var m := Run(Machine(map[], host), [Upload(o, map[p := x], true), Upload(q, map[p := y], true)]);
      Matches(m.files, m.host) <==> x == y
  {
    var e1, e2 := Upload(o, map[p := x], true), Upload(q, map[p := y], true);
    var m0 := Machine(map[], host);
    assert [e1, e2][..1] == [e1] && [e1][..0] == [];
    assert Run(m0, [e1]) == Next(m0, e1);
    FirstUpload(o, p, x, host);
    SecondUpload(Next(m0, e1), o, q, p, x, y);
  }

  lemma {:induction false} FirstUpload(o: Owner, p: Path, x: string, host: Host)
    ensures var m := Next(Machine(map[], host), Upload(o, map[p := x], true));
      && Matches(m.files, m.host)
      && forall r :: Entry(m.files, r) == if r == o then map[p := Sha1(x)] else map[]
  {
    UploadKeepsMatching(map[], host, o, map[p := x]);
    assert forall r, p' :: !Outdates(Pending(map[], o, map[p := x]), map[], r, p');
    forall r ensures Entry(Uploaded(map[], o, map[p := x]), r) == if r == o then map[p := Sha1(x)] else map[] {
      UploadedAt(map[], o, map[p := x], r);
    }
  }

  lemma {:induction false} SecondUpload(m: Machine, o: Owner, q: Owner, p: Path, x: string, y: string)
    requires o != q && Matches(m.files, m.host)
    requires forall r :: Entry(m.files, r) == if r == o then map[p := Sha1(x)] else map[]
    ensures var m' := Next(m, Upload(q, map[p := y], true)); Matches(m'.files, m'.host) <==> x == y
  {
    UploadKeepsMatching(m.files, m.host, q, map[p := y]);
    assert x != y ==> Outdates(Pending(m.files, q, map[p := y]), m.files, o, p);
  }
}
