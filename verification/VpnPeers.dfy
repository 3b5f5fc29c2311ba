/** The VPN peers of a cluster: addresses are handed out in order, and the peers survive being exported and imported. */
module VpnPeers {
  import opened Options
  import opened Bytes
  import opened Networks

  datatype VpnPeer = VpnPeer(name: string, address: seq<Byte>, privateKey: string)

  datatype PeerAnswer = Peer(peer: VpnPeer) | NoPeer | PeerPanic

  /** What generating a peer comes to; without a key none is made. */
  function Generated(net: Network, peers: map<string, VpnPeer>, name: string, key: Option<string>): (map<string, VpnPeer>, PeerAnswer)
  {
    if name in peers then (peers, Peer(peers[name]))
    else
      match RequestVpnIp(net, |peers|)
      case Panics => (peers, PeerPanic)
      case Exhausted => (peers, NoPeer)
      case Assigned(address) =>
        if key.None? then (peers, NoPeer)
        else
          var peer := VpnPeer(name, address, key.value);
          (peers[name := peer], Peer(peer))
  }

  /** Any listing of the peers, in the order the map happens to be walked. */
  ghost predicate Lists(list: seq<VpnPeer>, peers: map<string, VpnPeer>) {
    && (forall p :: p in list ==> p.name in peers && peers[p.name] == p)
    && (forall n :: n in peers ==> peers[n] in list)
  }

  function Imported(list: seq<VpnPeer>): map<string, VpnPeer> {
    if list == [] then map[] else Imported(list[..|list| - 1])[list[|list| - 1].name := list[|list| - 1]]
  }

  class Cluster {
    const vpn: Network
    var vpnPeers: map<string, VpnPeer>

    constructor (vpn: Network)
      ensures this.vpn == vpn && vpnPeers == map[]
    {
      this.vpn, vpnPeers := vpn, map[];
    }

    /** A known name gets its peer. A new one gets a peer of its own name with the generated key, which is stored under that
        name, and no other peer changes. */
    method GenerateVpnPeer(name: string, key: Option<string>) returns (answer: PeerAnswer)
      modifies this
      ensures (vpnPeers, answer) == Generated(vpn, old(vpnPeers), name, key)
      ensures name in old(vpnPeers) ==> answer == Peer(old(vpnPeers)[name]) && vpnPeers == old(vpnPeers)
      ensures name !in old(vpnPeers) && answer.Peer? ==>
        && answer.peer.name == name && key == Some(answer.peer.privateKey)
        && vpnPeers == old(vpnPeers)[name := answer.peer]
      ensures !answer.Peer? ==> vpnPeers == old(vpnPeers)
    {
      if name in vpnPeers { return Peer(vpnPeers[name]); }
      var ip := RequestVpnIp(vpn, |vpnPeers|);
      if ip.Panics? { return PeerPanic; }
      if ip.Exhausted? || key.None? { return NoPeer; }
      var peer := VpnPeer(name, ip.address, key.value);
      vpnPeers := vpnPeers[name := peer];
      return Peer(peer);
    }

    /** Lists every peer once, in no particular order. */
    method Export() returns (list: seq<VpnPeer>)
      requires Named(vpnPeers)
      ensures Lists(list, vpnPeers) && |list| == |vpnPeers|
    {
      list := [];
      var left := vpnPeers.Keys;
      while left != {}
        invariant left <= vpnPeers.Keys
        invariant |list| + |left| == |vpnPeers|
        invariant forall p :: p in list ==> p.name in vpnPeers && vpnPeers[p.name] == p
        invariant forall n :: n in vpnPeers && n !in left ==> vpnPeers[n] in list
        decreases left
      {
        var name :| name in left;
        list := list + [vpnPeers[name]];
        left := left - {name};
      }
    }

    /** Storing the cluster and reading it again changes no peer. */
    method Reload()
      requires Named(vpnPeers)
      modifies this
      ensures vpnPeers == old(vpnPeers)
    {
      var list := Export();
      ImportOfExport(list, vpnPeers);
      vpnPeers := Import(list);
    }
  }

  method Import(list: seq<VpnPeer>) returns (peers: map<string, VpnPeer>)
    ensures peers == Imported(list)
  {
    peers := map[];
    for i := 0 to |list|
      invariant peers == Imported(list[..i])
    {
      assert list[..i + 1][..i] == list[..i];
      peers := peers[list[i].name := list[i]];
    }
    assert list[..|list|] == list;
  }

  // ---------------------------------------------------------------------------------------------
  // Properties

  predicate Named(peers: map<string, VpnPeer>) {
    forall n :: n in peers ==> peers[n].name == n
  }

  lemma {:induction false} ImportedNames(list: seq<VpnPeer>, n: string)
    ensures n in Imported(list) ==> Imported(list)[n] in list && Imported(list)[n].name == n
    ensures forall p :: p in list ==> p.name in Imported(list)
  {
    if list == [] {
    } else {
      var init := list[..|list| - 1];
      ImportedNames(init, n);
      assert list == init + [list[|list| - 1]];
    }
  }

  /** A later entry replaces an earlier one of the same name. */
  lemma {:induction false} ImportedLater(a: seq<VpnPeer>, b: seq<VpnPeer>)
    ensures Imported(a + b) == Imported(a) + Imported(b)
    decreases |b|
  {
    if b == [] {
      assert a + b == a;
    } else {
      ImportedLater(a, b[..|b| - 1]);
      assert (a + b)[..|a + b| - 1] == a + b[..|b| - 1];
    }
  }

  /** Importing any listing of the peers gives the peers back. */
  lemma {:induction false} ImportOfExport(list: seq<VpnPeer>, peers: map<string, VpnPeer>)
    requires Named(peers) && Lists(list, peers)
    ensures Imported(list) == peers
  {
    forall n ensures n in Imported(list) <==> n in peers
             ensures n in Imported(list) ==> Imported(list)[n] == peers[n]
    {
      ImportedNames(list, n);
    }
  }

  datatype Event = Generate(name: string, key: Option<string>) | Reload(list: seq<VpnPeer>)

  /** Reloading exports the peers and imports the list. */
  ghost function Next(net: Network, peers: map<string, VpnPeer>, e: Event): map<string, VpnPeer> {
    match e
    case Generate(name, key) => Generated(net, peers, name, key).0
    case Reload(list) => if Lists(list, peers) then Imported(list) else peers
  }

  ghost function Run(net: Network, peers: map<string, VpnPeer>, events: seq<Event>): map<string, VpnPeer>
    decreases |events|
  {
    if events == [] then peers else Run(net, Next(net, peers, events[0]), events[1..])
  }

  /** How far an address is from the start of the network. */
  function Offset(net: Network, address: seq<Byte>): int {
    FromBytes(To16(address)) - FromBytes(To16(net.ip))
  }

  /** The networks whose addresses are handed out as promised. */
  predicate Regular(net: Network) {
    IsNetwork(net) && (|net.ip| == 4 || net.ip[0] != 0 || IsMapped(net.ip))
  }

  function Offsets(net: Network, peers: map<string, VpnPeer>): map<string, int> {
    map n | n in peers :: Offset(net, peers[n].address)
  }

  ghost predicate Occurs(offsets: map<string, int>, k: int) {
    exists n :: n in offsets && offsets[n] == k
  }

  /** The offsets are one up to their number, each of them once. */
  ghost predicate Consecutive(offsets: map<string, int>) {
    && (forall n :: n in offsets ==> 1 <= offsets[n] <= |offsets|)
    && (forall n1, n2 :: n1 in offsets && n2 in offsets && n1 != n2 ==> offsets[n1] != offsets[n2])
    && (forall k :: 1 <= k <= |offsets| ==> Occurs(offsets, k))
  }

  lemma {:induction false} AppendConsecutive(offsets: map<string, int>, name: string)
    requires Consecutive(offsets) && name !in offsets
    ensures Consecutive(offsets[name := |offsets| + 1])
  {
    var offsets' := offsets[name := |offsets| + 1];
    forall k | 1 <= k <= |offsets'| ensures Occurs(offsets', k) {
      if k <= |offsets| {
        assert Occurs(offsets, k);
        var n :| n in offsets && offsets[n] == k;
        assert n in offsets' && offsets'[n] == k;
      } else {
        assert name in offsets' && offsets'[name] == k;
      }
    }
  }

  ghost predicate Inside(net: Network, address: seq<Byte>)
    requires IsNetwork(net)
  {
    Offset(net, address) < Pow2(HostBits(net)) && Contains(net, address)
  }

  ghost predicate AllInside(net: Network, peers: map<string, VpnPeer>)
    requires IsNetwork(net)
  {
    forall n :: n in peers ==> Inside(net, peers[n].address)
  }

  /** The peers hold exactly the first addresses after the network's own, each one once, all inside the network. */
  ghost predicate InOrder(net: Network, peers: map<string, VpnPeer>)
    requires IsNetwork(net)
  {
    Named(peers) && Consecutive(Offsets(net, peers)) && AllInside(net, peers)
  }

  lemma {:induction false} AssignedOffset(net: Network, peers: nat)
    requires Regular(net) && peers + 1 < GO_INT
    ensures var answer := RequestVpnIp(net, peers);
      && (answer.Assigned? <==> peers + 1 < Pow2(HostBits(net)))
      && (!answer.Assigned? ==> answer == Exhausted)
      && (answer.Assigned? ==> Offset(net, answer.address) == peers + 1 && Inside(net, answer.address))
  {
    MeetsExactly(net, peers);
    AssignedIsInside(net, ToBytes(Sum(net, peers)));
  }

  lemma {:induction false} AssignedIsInside(net: Network, bytes: seq<Byte>)
    ensures CutBytes(net, bytes).Assigned? ==> Contains(net, CutBytes(net, bytes).address)
  {
  }

  lemma {:induction false} AddedInside(net: Network, peers: map<string, VpnPeer>, peer: VpnPeer)
    requires IsNetwork(net) && AllInside(net, peers) && Inside(net, peer.address)
    ensures AllInside(net, peers[peer.name := peer])
  {
  }

  lemma {:induction false} OffsetsSize(net: Network, peers: map<string, VpnPeer>)
    ensures |Offsets(net, peers)| == |peers|
  {
    assert Offsets(net, peers).Keys == peers.Keys;
  }

  lemma {:induction false} AddedOffset(net: Network, peers: map<string, VpnPeer>, peer: VpnPeer, k: int)
    requires Offset(net, peer.address) == k
    ensures Offsets(net, peers[peer.name := peer]) == Offsets(net, peers)[peer.name := k]
  {
  }

  lemma {:induction false} AddedNamed(peers: map<string, VpnPeer>, peer: VpnPeer)
    requires Named(peers)
    ensures Named(peers[peer.name := peer])
  {
  }

  lemma {:induction false} AddedInOrder(net: Network, peers: map<string, VpnPeer>, peer: VpnPeer)
    requires IsNetwork(net) && InOrder(net, peers) && peer.name !in peers
    requires Offset(net, peer.address) == |peers| + 1 && Inside(net, peer.address)
    ensures InOrder(net, peers[peer.name := peer])
  {
    OffsetsSize(net, peers);
    AddedOffset(net, peers, peer, |peers| + 1);
    AppendConsecutive(Offsets(net, peers), peer.name);
    AddedInside(net, peers, peer);
    AddedNamed(peers, peer);
  }

  /** Generating fails exactly when the network is used up or there is no key, and never panics. A new peer has the name it
      was asked for, the generated key and the next address, and is the only change. */
  lemma {:induction false} GenerateInOrder(net: Network, peers: map<string, VpnPeer>, name: string, key: Option<string>)
    requires Regular(net) && InOrder(net, peers) && |peers| + 1 < GO_INT
    ensures var (peers', answer) := Generated(net, peers, name, key);
      && InOrder(net, peers')
      && (answer.Peer? <==> name in peers || (key.Some? && |peers| + 1 < Pow2(HostBits(net))))
      && (answer.Peer? ==> name in peers' && answer.peer == peers'[name])
      && (!answer.Peer? ==> answer == NoPeer && peers' == peers)
      && (answer.Peer? && name !in peers ==>
            && answer.peer.name == name && key == Some(answer.peer.privateKey)
            && Offset(net, answer.peer.address) == |peers| + 1 && peers' == peers[name := answer.peer])
  {
    AssignedOffset(net, |peers|);
    if name !in peers && key.Some? && |peers| + 1 < Pow2(HostBits(net)) {
      AddedInOrder(net, peers, VpnPeer(name, RequestVpnIp(net, |peers|).address, key.value));
    }
  }

  lemma {:induction false} NextInOrder(net: Network, peers: map<string, VpnPeer>, e: Event)
    requires Regular(net) && InOrder(net, peers) && |peers| + 1 < GO_INT
    ensures InOrder(net, Next(net, peers, e)) && |Next(net, peers, e)| <= |peers| + 1
    ensures forall n :: n in peers ==> n in Next(net, peers, e) && Next(net, peers, e)[n] == peers[n]
  {
    match e
    case Generate(name, key) =>
      GenerateInOrder(net, peers, name, key);
      GenerateKeeps(net, peers, name, key);
    case Reload(list) => ReloadKeeps(net, peers, list);
  }

  lemma {:induction false} GenerateKeeps(net: Network, peers: map<string, VpnPeer>, name: string, key: Option<string>)
    ensures var peers' := Generated(net, peers, name, key).0;
      |peers'| <= |peers| + 1 && forall n :: n in peers ==> n in peers' && peers'[n] == peers[n]
  {
  }

  lemma {:induction false} ReloadKeeps(net: Network, peers: map<string, VpnPeer>, list: seq<VpnPeer>)
    requires Named(peers)
    ensures Next(net, peers, Reload(list)) == peers
  {
    if Lists(list, peers) { ImportOfExport(list, peers); }
  }

  lemma {:induction false} RunFromInOrder(net: Network, peers: map<string, VpnPeer>, events: seq<Event>)
    requires Regular(net) && InOrder(net, peers) && |peers| + |events| < GO_INT
    ensures InOrder(net, Run(net, peers, events))
    ensures forall n :: n in peers ==> n in Run(net, peers, events) && Run(net, peers, events)[n] == peers[n]
    decreases |events|
  {
    if events == [] {
    } else {
      NextInOrder(net, peers, events[0]);
      RunFromInOrder(net, Next(net, peers, events[0]), events[1..]);
    }
  }

  /** However peers are generated, exported and imported, they hold exactly the first addresses of the network. */
  lemma {:induction false} RunInOrder(net: Network, events: seq<Event>)
    requires Regular(net) && |events| < GO_INT
    ensures InOrder(net, Run(net, map[], events))
  {
    RunFromInOrder(net, map[], events);
  }

  /** A name asked for again, after anything, gets the peer it got first. */
  lemma {:induction false} SamePeerAgain(net: Network, peers: map<string, VpnPeer>, name: string, key: Option<string>,
                                         events: seq<Event>, again: Option<string>)
    requires Regular(net) && InOrder(net, peers) && |peers| + 1 + |events| < GO_INT
    requires Generated(net, peers, name, key).1.Peer?
    ensures var (peers', answer) := Generated(net, peers, name, key);
      Generated(net, Run(net, peers', events), name, again).1 == answer
  {
    GenerateInOrder(net, peers, name, key);
    NextInOrder(net, peers, Generate(name, key));
    RunFromInOrder(net, Generated(net, peers, name, key).0, events);
  }
}
