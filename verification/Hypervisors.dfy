/** The hypervisor object: host ports, and the record of the files on its host. */
module Hypervisors {
  import opened Paths
  import opened Files
  import opened Options
  import opened Ports

  /** The outcome of the pod that writes files on the host. */
  datatype PodResult = Succeeded | Failed(written: set<Path>)

  class Hypervisor {
    const name: string
    const portRangeLow: int
    const portRangeHigh: int
    var allocatedPorts: seq<Allocation>
    var freedPorts: seq<int>
    /** The record of the uploaded files; a hypervisor may keep none. */
    var tracksFiles: bool
    var files: NamespacedClusterFileMap
    /** The files on the machine itself. */
    var host: Host

    constructor (name: string, low: int, high: int)
      ensures this.name == name
      ensures Ports() == Empty(low, high)
      ensures tracksFiles && files == map[] && host == map[]
    {
      this.name := name;
      portRangeLow, portRangeHigh := low, high;
      allocatedPorts, freedPorts := [], [];
      tracksFiles, files, host := true, map[], map[];
    }

    function Ports(): PortTable
      reads this
    {
      PortTable(portRangeLow, portRangeHigh, allocatedPorts, freedPorts)
    }

    /** Searches the allocations for a key. On a valid table the answer is the one port the key holds. */
    method HasPort(key: PortKey) returns (found: bool, port: int)
      requires UniqueKeys(allocatedPorts)
      ensures found <==> key in Held(Ports())
      ensures found ==> port == Held(Ports())[key]
      ensures !found ==> port == 0
    {
      AssignedIsListed(allocatedPorts, key);
      for i := 0 to |allocatedPorts|
        invariant forall j :: 0 <= j < i ==> allocatedPorts[j].key != key
      {
        if allocatedPorts[i].key == key {
          ListedIsAssigned(allocatedPorts, i);
          return true, allocatedPorts[i].port;
        }
      }
      return false, 0;
    }

    /** Grants the port the specification grants, or reports that none is left; a failed request changes nothing. */
    method RequestPort(key: PortKey) returns (answer: Option<int>)
      requires Valid(Ports())
      modifies this`allocatedPorts, this`freedPorts
      ensures Valid(Ports())
      ensures match Request(old(Ports()), key)
              case Granted(port, table) => answer == Some(port) && Ports() == table
              case NoPorts => answer == None && Ports() == old(Ports())
    {
      ghost var before := Ports();
      var found, port := HasPort(key);
      if found { return Some(port); }
      if |freedPorts| > 0 {
        port, freedPorts := freedPorts[0], freedPorts[1..];
      } else {
        port := portRangeLow + |allocatedPorts|;
        if port > portRangeHigh { return None; }
      }
      allocatedPorts := allocatedPorts + [Allocation(key, port)];
      answer := Some(port);
      assert Request(before, key) == Granted(port, Ports());
      assert Valid(Ports()) by { RequestKeepsValid(before, key); }
    }

    /** Forgets the allocation of a key and queues its port. */
    method FreePort(key: PortKey)
      requires Valid(Ports())
      modifies this`allocatedPorts, this`freedPorts
      ensures Valid(Ports())
      ensures Ports() == Free(old(Ports()), key)
    {
      FreeKeepsValid(Ports(), key);
      var kept: seq<Allocation> := [];
      var freedAllocation := None;
      for i := 0 to |allocatedPorts|
        invariant kept == Without(allocatedPorts[..i], key)
        invariant freedAllocation == if key in Assigned(allocatedPorts[..i])
                                     then Some(Assigned(allocatedPorts[..i])[key]) else None
      {
        assert allocatedPorts[..i + 1][..i] == allocatedPorts[..i];
        if allocatedPorts[i].key == key {
          freedAllocation := Some(allocatedPorts[i].port);
        } else {
          kept := kept + [allocatedPorts[i]];
        }
      }
      assert allocatedPorts[..|allocatedPorts|] == allocatedPorts;
      if freedAllocation == None { return; }
      allocatedPorts := kept;
      freedPorts := freedPorts + [freedAllocation.value];
    }

    /** Whether the record says that the host already has these contents. */
    predicate FileUpToDate(owner: Owner, path: Path, contents: string)
      reads this
    {
      UpToDate(files, owner, path, contents)
    }

    /** Collects the files whose recorded digest is missing or different. */
    method CollectPending(owner: Owner, contents: map<Path, string>) returns (pending: map<Path, string>)
      ensures pending == Pending(files, owner, contents)
    {
      pending := map[];
      var rest := contents.Keys;
      while rest != {}
        invariant rest <= contents.Keys
        invariant pending == map p | p in contents && p !in rest && !UpToDate(files, owner, p, contents[p]) :: contents[p]
        decreases rest
      {
        var p :| p in rest;
        if !FileUpToDate(owner, p, contents[p]) { pending := pending[p := contents[p]]; }
        rest := rest - {p};
      }
    }

    /** Records the digest of every uploaded file, skipped or not. */
    method RecordDigests(owner: Owner, contents: map<Path, string>)
      modifies this`files
      ensures files == Record(old(files), owner, Entry(old(files), owner) + Digests(contents))
    {
      var entry := Entry(files, owner);
      var rest := contents.Keys;
      while rest != {}
        invariant rest <= contents.Keys
        invariant entry == Entry(files, owner) + map p | p in contents && p !in rest :: Sha1(contents[p])
        invariant files == old(files)
        decreases rest
      {
        var p :| p in rest;
        entry := entry[p := Sha1(contents[p])];
        rest := rest - {p};
      }
      assert entry == Entry(files, owner) + Digests(contents);
      files := Record(files, owner, entry);
    }

    /** Writes the files that are not up to date and records the digests of all of them. `imageReady` and `pod` are the
        outcomes of the calls into the container runtime, which are not made when nothing is pending; a failed pod
        has written some of the pending files. If the records matched, success leaves the host as if every file had
        been written. */
    method UploadFiles(owner: Owner, contents: map<Path, string>, imageReady: bool, pod: PodResult) returns (ok: bool)
      requires !tracksFiles ==> files == map[]
      modifies this`files, this`host
      ensures ok <==> Pending(old(files), owner, contents) == map[] || (imageReady && pod.Succeeded?)
      ensures files == if ok && tracksFiles then Uploaded(old(files), owner, contents) else old(files)
      ensures ok ==> host == old(host) + Pending(old(files), owner, contents)
      ensures var written := if imageReady && pod.Failed? then pod.written else {};
        !ok ==> host == old(host) + Restrict(Pending(old(files), owner, contents), written)
      ensures old(Matches(files, host)) && ok ==> host == old(host) + contents
    {
      var pending := CollectPending(owner, contents);
      if Matches(files, host) { UploadRefinesWrite(files, host, owner, contents); }
      if pending == map[] {
        assert host + pending == host;
        return true;
      }
      if !imageReady {
        assert host + Restrict(pending, {}) == host;
        return false;
      }
      if pod.Failed? {
        host := host + Restrict(pending, pod.written);
        return false;
      }
      host := host + pending;
      if tracksFiles { RecordDigests(owner, contents); }
      return true;
    }

    /** Drops the entry of a deleted component, and every level that this leaves empty. */
    method CleanupFileMap(owner: Owner)
      requires !tracksFiles ==> files == map[]
      modifies this`files
      ensures files == Forget(old(files), owner)
    {
      if !tracksFiles { return; }
      if owner.clusterNamespace !in files { return; }
      if owner.cluster !in files[owner.clusterNamespace] { return; }
      var clusters := files[owner.clusterNamespace];
      clusters := clusters[owner.cluster := clusters[owner.cluster] - {owner.component}];
      if clusters[owner.cluster] == map[] { clusters := clusters - {owner.cluster}; }
      ghost var components := old(files)[owner.clusterNamespace][owner.cluster] - {owner.component};
      assert clusters == if components == map[] then old(files)[owner.clusterNamespace] - {owner.cluster}
                         else old(files)[owner.clusterNamespace][owner.cluster := components];
      files := files[owner.clusterNamespace := clusters];
      assert files - {owner.clusterNamespace} == old(files) - {owner.clusterNamespace};
      if files[owner.clusterNamespace] == map[] { files := files - {owner.clusterNamespace}; }
    }
  }
}
