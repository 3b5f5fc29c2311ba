/** Host paths as lists of segments, and the locations the components write to. */
module Paths {

  type Path = seq<string>

  /** Whose files: cluster namespace, cluster name and component name. */
  datatype Owner = Owner(clusterNamespace: string, cluster: string, component: string)

  const SECRETS: Path := ["etc", "oneinfra", "clusters"]
  const SYSTEMD: Path := ["etc", "systemd", "system"]

  /** One segment of a joined path: empty and "." are dropped, ".." goes up (and stays at the root). */
  function Enter(dir: Path, segment: string): Path {
    if segment == "" || segment == "." then dir
    else if segment == ".." then (if dir == [] then [] else dir[..|dir| - 1])
    else dir + [segment]
  }

  function Segments(s: string): seq<string>
  {
    if s == "" then [""]
    else
      var rest := Segments(s[1..]);
      if s[0] == '/' then [""] + rest else [[s[0]] + rest[0]] + rest[1..]
  }

  function EnterAll(dir: Path, segments: seq<string>): Path
    decreases |segments|
  {
    if segments == [] then dir else EnterAll(Enter(dir, segments[0]), segments[1..])
  }

  /** `filepath.Join` of a rooted clean directory and one more element. */
  function Join(dir: Path, element: string): Path {
    EnterAll(dir, Segments(element))
  }

  function SecretsDir(o: Owner): Path {
    Join(Join(Join(SECRETS, o.clusterNamespace), o.cluster), o.component)
  }

  function SecretsFile(o: Owner, file: string): Path {
    Join(SecretsDir(o), file)
  }

  function ServiceName(clusterNamespace: string, cluster: string): string {
    "oneinfra-wireguard-" + clusterNamespace + "-" + cluster + ".service"
  }

  function ServiceFile(clusterNamespace: string, cluster: string): Path {
    Join(SYSTEMD, ServiceName(clusterNamespace, cluster))
  }

  /** A name that stays one segment when joined. */
  predicate Proper(name: string) {
    '/' !in name && name != "" && name != "." && name != ".."
  }

  predicate ProperOwner(o: Owner) {
    Proper(o.clusterNamespace) && Proper(o.cluster) && Proper(o.component)
  }

  /** `p` is `dir` or lies below it: what `rm -rf dir` removes. */
  predicate Under(dir: Path, p: Path) {
    dir <= p
  }

  lemma {:induction false} SlashFree(s: string)
    requires '/' !in s
    ensures Segments(s) == [s]
  {
    if s == "" {
    } else {
      SlashFree(s[1..]);
      assert [s[0]] + s[1..] == s;
    }
  }

  lemma {:induction false} JoinSlashFree(dir: Path, name: string)
    requires '/' !in name
    ensures Join(dir, name) == Enter(dir, name)
  {
    SlashFree(name);
    assert EnterAll(dir, [name]) == EnterAll(Enter(dir, name), []);
  }

  lemma {:induction false} SecretsDirShape(o: Owner)
    requires Proper(o.clusterNamespace) && Proper(o.cluster) && '/' !in o.component
    ensures SecretsDir(o) == Enter(SECRETS + [o.clusterNamespace] + [o.cluster], o.component)
  {
    JoinSlashFree(SECRETS, o.clusterNamespace);
    JoinSlashFree(SECRETS + [o.clusterNamespace], o.cluster);
    JoinSlashFree(SECRETS + [o.clusterNamespace] + [o.cluster], o.component);
  }

  /** Where the secrets of a component are. */
  lemma {:induction false} SecretsFileIs(o: Owner, file: string)
    requires ProperOwner(o) && Proper(file)
    ensures SecretsFile(o, file) == ["etc", "oneinfra", "clusters", o.clusterNamespace, o.cluster, o.component, file]
  {
    SecretsDirShape(o);
    JoinSlashFree(SecretsDir(o), file);
  }

  lemma {:induction false} DirPrefix(o: Owner, other: Owner)
    requires ProperOwner(o) && ProperOwner(other)
    ensures Under(SecretsDir(o), SecretsDir(other)) <==> o == other
  {
    SecretsDirShape(o);
    SecretsDirShape(other);
    var dir, p := SecretsDir(o), SecretsDir(other);
    assert dir[3] == o.clusterNamespace && dir[4] == o.cluster && dir[5] == o.component;
    assert p[3] == other.clusterNamespace && p[4] == other.cluster && p[5] == other.component;
  }

  /** Removing the directory of a component touches no secret of another component. */
  lemma {:induction false} SecretsStayApart(o: Owner, other: Owner, file: string)
    requires ProperOwner(o) && ProperOwner(other) && Proper(file)
    ensures Under(SecretsDir(o), SecretsFile(other, file)) <==> o == other
  {
    DirPrefix(o, other);
    SecretsDirShape(o);
    SecretsDirShape(other);
    JoinSlashFree(SecretsDir(other), file);
  }

  /** Exactly the proper component names keep the removed directory to themselves: the names "", "." and ".."
      collapse it into a directory shared with other components. */
  lemma {:induction false} RemovedDirectoryIsPrivate(o: Owner)
    requires Proper(o.clusterNamespace) && Proper(o.cluster) && '/' !in o.component
    ensures Proper(o.component) <==>
      forall other :: ProperOwner(other) && other != o ==> !Under(SecretsDir(o), SecretsDir(other))
  {
    if Proper(o.component) {
      forall other | ProperOwner(other) && other != o ensures !Under(SecretsDir(o), SecretsDir(other)) {
        DirPrefix(o, other);
      }
    } else {
      var other := o.(component := "a");
      SecretsDirShape(o);
      SecretsDirShape(other);
      assert ProperOwner(other) && other != o && Under(SecretsDir(o), SecretsDir(other));
    }
  }

  /** What the names that are not proper remove: "" and "." the directory of the cluster, ".." that of the namespace. */
  lemma {:induction false} ImproperRemoves(o: Owner, other: Owner)
    requires Proper(o.clusterNamespace) && Proper(o.cluster) && ProperOwner(other)
    ensures o.component == "" || o.component == "." ==>
      (Under(SecretsDir(o), SecretsDir(other)) <==> other.clusterNamespace == o.clusterNamespace && other.cluster == o.cluster)
    ensures o.component == ".." ==>
      (Under(SecretsDir(o), SecretsDir(other)) <==> other.clusterNamespace == o.clusterNamespace)
  {
    SecretsDirShape(other);
    var p := SecretsDir(other);
    assert p == SECRETS + [other.clusterNamespace] + [other.cluster] + [other.component];
    if o.component == "" || o.component == "." {
      SecretsDirShape(o);
      var dir := SECRETS + [o.clusterNamespace] + [o.cluster];
      assert SecretsDir(o) == dir;
      assert dir[3] == o.clusterNamespace && dir[4] == o.cluster && p[3] == other.clusterNamespace && p[4] == other.cluster;
      assert p[..5] == SECRETS + [other.clusterNamespace] + [other.cluster];
    } else if o.component == ".." {
      SecretsDirShape(o);
      var dir := SECRETS + [o.clusterNamespace];
      assert SecretsDir(o) == (dir + [o.cluster])[..|dir|] == dir;
      assert dir[3] == o.clusterNamespace && p[3] == other.clusterNamespace;
      assert p[..4] == SECRETS + [other.clusterNamespace];
    }
  }

  lemma {:induction false} SegmentsNotEmpty(s: string)
    ensures Segments(s) != []
  {
  }

  /** One more character in front of a text. */
  lemma {:induction false} SegmentsFront(c: char, s: string)
    ensures Segments([c] + s) ==
      if c == '/' then [""] + Segments(s) else [[c] + Segments(s)[0]] + Segments(s)[1..]
  {
    assert ([c] + s)[1..] == s;
  }

  lemma {:induction false} SegmentsJoin(a: string, b: string)
    ensures Segments(a + "/" + b) == Segments(a) + Segments(b)
  {
    if a == "" {
      assert a + "/" + b == ['/'] + b;
      SegmentsFront('/', b);
    } else {
      var rest := a[1..] + "/" + b;
      SegmentsJoin(a[1..], b);
      assert a + "/" + b == [a[0]] + rest && a == [a[0]] + a[1..];
      SegmentsFront(a[0], rest);
      SegmentsFront(a[0], a[1..]);
      SegmentsNotEmpty(a[1..]);
      FrontOfJoin(a[0], Segments(a[1..]), Segments(b));
    }
  }

  lemma {:induction false} FrontOfJoin(c: char, x: seq<string>, y: seq<string>)
    requires x != []
    ensures [""] + (x + y) == ([""] + x) + y
    ensures [[c] + (x + y)[0]] + (x + y)[1..] == ([[c] + x[0]] + x[1..]) + y
  {
  }

  lemma {:induction false} EnterAllJoin(dir: Path, a: seq<string>, b: seq<string>)
    ensures EnterAll(dir, a + b) == EnterAll(EnterAll(dir, a), b)
    decreases |a|
  {
    if a == [] {
      assert a + b == b;
    } else {
      assert (a + b)[1..] == a[1..] + b;
      EnterAllJoin(Enter(dir, a[0]), a[1..], b);
    }
  }

  /** An element with a slash is joined part by part. */
  lemma {:induction false} JoinByParts(dir: Path, a: string, b: string)
    ensures Join(dir, a + "/" + b) == Join(Join(dir, a), b)
  {
    SegmentsJoin(a, b);
    EnterAllJoin(dir, Segments(a), Segments(b));
  }

  predicate SameServiceFile(ns: string, c: string, ns': string, c': string) {
    '/' !in ns && '/' !in c && (ns, c) != (ns', c') && ServiceFile(ns, c) == ServiceFile(ns', c')
  }

  /** The wireguard unit file is named after namespace and cluster joined by a dash, so it is shared with some
      other cluster exactly when one of the two names contains a dash itself. */
  lemma {:induction false} ServiceFileShared(clusterNamespace: string, cluster: string)
    requires '/' !in clusterNamespace && '/' !in cluster
    ensures ('-' in clusterNamespace || '-' in cluster) <==>
      exists ns, c :: SameServiceFile(ns, c, clusterNamespace, cluster)
  {
    if '-' in clusterNamespace {
      var i :| 0 <= i < |clusterNamespace| && clusterNamespace[i] == '-';
      assert clusterNamespace == clusterNamespace[..i] + "-" + clusterNamespace[i + 1..];
      DashMoves(clusterNamespace[..i], clusterNamespace[i + 1..], cluster);
    } else if '-' in cluster {
      var i :| 0 <= i < |cluster| && cluster[i] == '-';
      assert cluster == cluster[..i] + "-" + cluster[i + 1..];
      DashMoves(clusterNamespace, cluster[..i], cluster[i + 1..]);
    } else {
      forall ns, c ensures !SameServiceFile(ns, c, clusterNamespace, cluster) {
        NotShared(ns, c, clusterNamespace, cluster);
      }
    }
  }

  lemma {:induction false} NotShared(ns: string, c: string, ns': string, c': string)
    requires '/' !in ns' && '/' !in c' && '-' !in ns' && '-' !in c'
    ensures !SameServiceFile(ns, c, ns', c')
  {
    if '/' !in ns && '/' !in c && ServiceFile(ns, c) == ServiceFile(ns', c') {
      ServiceFileName(ns, c);
      ServiceFileName(ns', c');
      assert ServiceFile(ns, c)[|SYSTEMD|] == ServiceFile(ns', c')[|SYSTEMD|];
      UniqueDash(ns, c, ns', c');
    }
  }

  lemma {:induction false} DashMoves(a: string, b: string, c: string)
    requires '/' !in a && '/' !in b && '/' !in c
    ensures SameServiceFile(a, b + "-" + c, a + "-" + b, c)
    ensures SameServiceFile(a + "-" + b, c, a, b + "-" + c)
  {
    assert ServiceName(a, b + "-" + c) == ServiceName(a + "-" + b, c);
    assert |a| != |a + "-" + b| && |c| != |b + "-" + c|;
  }

  lemma {:induction false} ServiceFileName(clusterNamespace: string, cluster: string)
    requires '/' !in clusterNamespace && '/' !in cluster
    ensures ServiceFile(clusterNamespace, cluster) == SYSTEMD + [ServiceName(clusterNamespace, cluster)]
    ensures ServiceFile(clusterNamespace, cluster) ==
      ["etc", "systemd", "system", "oneinfra-wireguard-" + clusterNamespace + "-" + cluster + ".service"]
  {
    var name := ServiceName(clusterNamespace, cluster);
    assert '/' !in "oneinfra-wireguard-" && '/' !in ".service";
    JoinSlashFree(SYSTEMD, name);
    assert |name| > 2;
  }

  lemma {:induction false} UniqueDash(ns: string, c: string, ns': string, c': string)
    requires '-' !in ns' && '-' !in c'
    requires ServiceName(ns, c) == ServiceName(ns', c')
    ensures ns == ns' && c == c'
  {
    var p, q := "oneinfra-wireguard-", ".service";
    var x, y := ns + "-" + c, ns' + "-" + c';
    assert ServiceName(ns, c) == p + x + q && ServiceName(ns', c') == p + y + q;
    assert x == (p + x + q)[|p|..|p + x + q| - |q|] && y == (p + y + q)[|p|..|p + y + q| - |q|];
    assert x[|ns|] == '-';
    assert forall i :: 0 <= i < |y| && y[i] == '-' ==> i == |ns'|;
    assert x[..|ns|] == ns && y[..|ns'|] == ns' && x[|ns| + 1..] == c && y[|ns'| + 1..] == c';
  }
}
