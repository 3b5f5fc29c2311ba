/** IP networks the way `net` represents them, and the VPN address a cluster gives its next peer. */
module Networks {
  import opened Options
  import opened Bytes

  /** A parsed CIDR: 4 or 16 bytes, with the bits after the mask cleared. One that could not be parsed has no bytes. */
  datatype Network = Network(ip: seq<Byte>, ones: nat)

  function HostBits(net: Network): int {
    8 * |net.ip| - net.ones
  }

  predicate IsNetwork(net: Network) {
    (|net.ip| == 4 || |net.ip| == 16) && HostBits(net) >= 0 && ZeroBits(FromBytes(net.ip), HostBits(net))
  }

  /** The last `n` bits are zero. */
  predicate ZeroBits(v: nat, n: nat) {
    n == 0 || (v % 2 == 0 && ZeroBits(v / 2, n - 1))
  }

  /** The prefix of IPv4-mapped addresses, section 2.5.5.2 of RFC 4291. */
  const MAPPED: seq<Byte> := [0, 0, 0, 0, 0, 0, 0, 0, 0, 0, 255, 255]

  function To16(ip: seq<Byte>): seq<Byte> {
    if |ip| == 4 then MAPPED + ip else ip
  }

  predicate IsMapped(ip: seq<Byte>) {
    |ip| == 16 && ip[..12] == MAPPED
  }

  function To4(ip: seq<Byte>): Option<seq<Byte>> {
    if |ip| == 4 then Some(ip) else if IsMapped(ip) then Some(ip[12..]) else None
  }

  function Shorten(ip: seq<Byte>): seq<Byte> {
    if To4(ip).Some? then To4(ip).value else ip
  }

  /** `IPNet.Contains` */
  predicate Contains(net: Network, ip: seq<Byte>) {
    var number, x := Shorten(net.ip), Shorten(ip);
    var mask := CidrMask(net.ones, |net.ip|);
    |x| == |number| && SameMasked(x, number, mask[|mask| - |number|..])
  }

  datatype Answer = Assigned(address: seq<Byte>) | Exhausted | Panics

  /** `requestVPNIP`: adds on the big integer, then cuts two bytes off unless sixteen are left. */
  function RequestVpnIp(net: Network, peers: nat): Answer {
    CutBytes(net, ToBytes(Sum(net, peers)))
  }

  function Sum(net: Network, peers: nat): nat {
    Add(FromBytes(To16(net.ip)), peers + 1)
  }

  function Add(a: nat, b: nat): nat {
    a + b
  }

  function CutBytes(net: Network, bytes: seq<Byte>): Answer {
    if |bytes| < 2 then Panics
    else if |bytes| == 16 then Checked(net, bytes)
    else Checked(net, bytes[2..])
  }

  function Checked(net: Network, address: seq<Byte>): Answer {
    if Contains(net, address) then Assigned(address) else Exhausted
  }

  /** The address at an offset, if that is in the network. */
  function NextBy(net: Network, m: nat, v: nat): Answer
    requires IsNetwork(net)
  {
    if m < Pow2(HostBits(net)) then Assigned(LastBytes(v, |net.ip|)) else Exhausted
  }

  /** What is promised: the next address of the network, as long as there is one. */
  function NextAddress(net: Network, peers: nat): Answer
    requires IsNetwork(net)
  {
    NextBy(net, peers + 1, Add(FromBytes(net.ip), peers + 1))
  }

  // ---------------------------------------------------------------------------------------------
  // Arithmetic of blocks

  lemma {:induction false} SameBlock(v: nat, m: nat, d: int)
    requires d > 0 && v % d == 0
    ensures (v + m) / d == v / d <==> m < d
  {
    var q := v / d;
    assert v == q * d;
    assert v + m == (q + m / d) * d + m % d;
    DivideBy(q + m / d, d, m % d);
    DivideBy(0, d, if m < d then m else 0);
  }

  /** A block that starts in the address space ends in it. */
  lemma {:induction false} BlockFits(v: nat, c: int, d: int)
    requires d > 0 && v % d == 0 && v < c * d
    ensures v + d <= c * d
  {
    var q := v / d;
    assert v == q * d;
    assert q >= c ==> q * d >= c * d;
    assert (q + 1) * d == v + d;
    assert q + 1 <= c ==> (q + 1) * d <= c * d;
  }

  lemma {:induction false} ZeroBitsDivide(v: nat, n: nat)
    ensures ZeroBits(v, n) <==> v % Pow2(n) == 0
  {
    if n == 0 {
    } else {
      ZeroBitsDivide(v / 2, n - 1);
      HalfOfPart(v, n);
    }
  }

  lemma {:induction false} NetworkFits(net: Network)
    requires IsNetwork(net)
    ensures FromBytes(net.ip) + Pow2(HostBits(net)) <= Pow2(8 * |net.ip|)
  {
    FromBytesBound(net.ip);
    ZeroBitsDivide(FromBytes(net.ip), HostBits(net));
    Pow2Adds(net.ones, HostBits(net));
    BlockFits(FromBytes(net.ip), Pow2(net.ones), Pow2(HostBits(net)));
  }

  /** Being in the network, for an address of the same length. */
  lemma {:induction false} ContainsNext(net: Network, m: nat, v: nat)
    requires IsNetwork(net) && FromBytes(net.ip) + m == v < Pow2(8 * |net.ip|)
    ensures SameMasked(LastBytes(v, |net.ip|), net.ip, CidrMask(net.ones, |net.ip|)) <==> m < Pow2(HostBits(net))
  {
    LastBytesValue(v, |net.ip|);
    MaskedIsQuotient(LastBytes(v, |net.ip|), net.ip, net.ones);
    ZeroBitsDivide(FromBytes(net.ip), HostBits(net));
    SameBlock(FromBytes(net.ip), m, Pow2(HostBits(net)));
  }

  // ---------------------------------------------------------------------------------------------
  // IPv4

  const IPV4_SIZE := 0x1_0000_0000
  const GO_INT := 0x8000_0000_0000_0000

  lemma {:induction false} Powers()
    ensures Pow2(16) == 0x1_0000 && Pow2(32) == IPV4_SIZE && Pow2(40) == 0x100_0000_0000 && Pow2(48) == 0x1_0000_0000_0000
    ensures Pow2(63) == GO_INT && Pow2(64) == 2 * GO_INT && Pow2(72) == 512 * GO_INT
  {
    Eight();
    Pow2Adds(8, 8);
    Pow2Adds(16, 16);
    Pow2Adds(8, 32);
    Pow2Adds(8, 40);
    Pow2Adds(15, 48);
    Pow2Adds(7, 8);
    Pow2Adds(1, 63);
    Pow2Adds(8, 64);
  }

  lemma {:induction false} MappedValue(ip: seq<Byte>)
    requires |ip| == 4
    ensures FromBytes(MAPPED + ip) == 0xFFFF * IPV4_SIZE + FromBytes(ip) && FromBytes(ip) < IPV4_SIZE
  {
    Powers();
    FromBytesBound(ip);
    FromBytesJoin(MAPPED, ip);
    PrefixValue();
  }

  lemma {:induction false} PrefixValue()
    ensures FromBytes(MAPPED) == 0xFFFF
  {
    var zeros: seq<Byte> := [0, 0, 0, 0, 0, 0, 0, 0, 0, 0];
    var ones: seq<Byte> := [255, 255];
    assert MAPPED == zeros + ones;
    FromBytesJoin(zeros, ones);
    ZerosValue(zeros);
    TwoBytes(255, 255);
  }

  lemma {:induction false} ZerosValue(b: seq<Byte>)
    requires forall i :: 0 <= i < |b| ==> b[i] == 0
    ensures FromBytes(b) == 0
  {
    if b == [] {
    } else {
      ZerosValue(b[..|b| - 1]);
    }
  }

  lemma {:induction false} TwoBytes(x: Byte, y: Byte)
    ensures FromBytes([x, y]) == 256 * x + y
  {
    var b: seq<Byte> := [x, y];
    var c: seq<Byte> := [x];
    assert b[..1] == c;
    assert c[..0] == [];
    assert FromBytes(c) == 256 * FromBytes([]) + x;
  }

  /** The bytes of the sum, while it does not carry out of the four bytes. */
  lemma {:induction false} MappedBytes(u: nat, v: nat, k: nat)
    requires u < IPV4_SIZE && k == 4 && v == 0xFFFF * IPV4_SIZE + u
    ensures ToBytes(v) == [255, 255] + LastBytes(u, k)
  {
    var head: seq<Byte> := [255, 255];
    Powers();
    LastBytesValue(u, k);
    FromBytesJoin(head, LastBytes(u, k));
    TwoBytes(255, 255);
    BytesOfValue(head + LastBytes(u, k));
    ToBytesIs(v, k + 2);
  }

  /** After a carry seven to nine bytes are left: five to seven after the cut. */
  lemma {:induction false} CarriedBytes(v: nat)
    requires 0x1_0000 * IPV4_SIZE <= v < 0x1_0000 * IPV4_SIZE + GO_INT
    ensures 7 <= |ToBytes(v)| <= 9
  {
    Powers();
    ToBytesShort(v, 6);
    ToBytesShort(v, 9);
  }

  lemma {:induction false} InNetwork(net: Network, m: nat, u: nat)
    requires IsNetwork(net) && |net.ip| == 4 && FromBytes(net.ip) + m == u < IPV4_SIZE
    ensures Contains(net, LastBytes(u, |net.ip|)) <==> m < Pow2(HostBits(net))
  {
    Powers();
    ContainsNext(net, m, u);
    var mask := CidrMask(net.ones, |net.ip|);
    assert mask[0..] == mask;
  }

  lemma {:induction false} BeyondNetwork(net: Network, m: nat)
    requires IsNetwork(net) && |net.ip| == 4 && FromBytes(net.ip) + m >= IPV4_SIZE
    ensures m >= Pow2(HostBits(net))
  {
    Powers();
    NetworkFits(net);
  }

  lemma {:induction false} OtherLength(net: Network, bytes: seq<Byte>)
    requires |net.ip| == 4 || (|net.ip| == 16 && !IsMapped(net.ip))
    requires |bytes| == 17 || 2 <= |bytes| < 16
    requires |bytes| != |net.ip| + 2
    ensures CutBytes(net, bytes) == Exhausted
  {
  }

  lemma {:induction false} NextInIpv4(net: Network, m: nat, u: nat, v: nat)
    requires IsNetwork(net) && |net.ip| == 4 && FromBytes(net.ip) + m == u < IPV4_SIZE && v == 0xFFFF * IPV4_SIZE + u
    ensures CutBytes(net, ToBytes(v)) == NextBy(net, m, u)
  {
    MappedBytes(u, v, |net.ip|);
    InNetwork(net, m, u);
    CutsTwo(net, LastBytes(u, |net.ip|));
  }

  lemma {:induction false} CutsTwo(net: Network, b: seq<Byte>)
    requires |b| == 4
    ensures CutBytes(net, [255, 255] + b) == Checked(net, b)
  {
    assert ([255, 255] + b)[2..] == b;
  }

  lemma {:induction false} PastIpv4(net: Network, m: nat, u: nat, v: nat)
    requires IsNetwork(net) && |net.ip| == 4 && m < GO_INT && FromBytes(net.ip) + m == u >= IPV4_SIZE && v == 0xFFFF * IPV4_SIZE + u
    ensures CutBytes(net, ToBytes(v)) == NextBy(net, m, u)
  {
    MappedValue(net.ip);
    CarriedBytes(v);
    OtherLength(net, ToBytes(v));
    BeyondNetwork(net, m);
  }

  lemma {:induction false} SumOfIpv4(net: Network, peers: nat)
    requires |net.ip| == 4
    ensures Sum(net, peers) == 0xFFFF * IPV4_SIZE + Add(FromBytes(net.ip), peers + 1)
  {
    MappedValue(net.ip);
  }

  /** For every IPv4 network and every number of peers the computation is the addition. */
  lemma {:induction false} NextOfIpv4(net: Network, peers: nat)
    requires IsNetwork(net) && |net.ip| == 4 && peers + 1 < GO_INT
    ensures RequestVpnIp(net, peers) == NextAddress(net, peers)
  {
    var u, v := Add(FromBytes(net.ip), peers + 1), Sum(net, peers);
    SumOfIpv4(net, peers);
    if u < IPV4_SIZE { NextInIpv4(net, peers + 1, u, v); } else { PastIpv4(net, peers + 1, u, v); }
  }

  // ---------------------------------------------------------------------------------------------
  // IPv6

  lemma {:induction false} NotMapped(ip: seq<Byte>)
    requires |ip| == 16 && ip[0] != 0
    ensures !IsMapped(ip)
  {
    assert ip[..12][0] != MAPPED[0];
  }

  lemma {:induction false} ContainsLong(net: Network, x: seq<Byte>)
    requires |net.ip| == 16 && !IsMapped(net.ip) && |x| == 16 && x[0] != 0
    ensures Contains(net, x) <==> SameMasked(x, net.ip, CidrMask(net.ones, |net.ip|))
  {
    NotMapped(x);
    var mask := CidrMask(net.ones, |net.ip|);
    assert mask[0..] == mask;
  }

  lemma {:induction false} NextInIpv6(net: Network, m: nat, v: nat)
    requires IsNetwork(net) && |net.ip| == 16 && !IsMapped(net.ip) && v == FromBytes(net.ip) + m && |ToBytes(v)| == 16
    ensures CutBytes(net, ToBytes(v)) == NextBy(net, m, v)
  {
    NoLeadingZero(v);
    ToBytesShort(v, |net.ip|);
    ContainsNext(net, m, v);
    ContainsLong(net, ToBytes(v));
  }

  lemma {:induction false} PastIpv6(net: Network, m: nat, v: nat)
    requires IsNetwork(net) && |net.ip| == 16 && !IsMapped(net.ip) && v == FromBytes(net.ip) + m && m < GO_INT && |ToBytes(v)| > 16
    ensures CutBytes(net, ToBytes(v)) == NextBy(net, m, v)
  {
    ToBytesShort(v, |net.ip|);
    NetworkFits(net);
    OneMoreByte(net.ip, m, v);
    OtherLength(net, ToBytes(v));
  }

  lemma {:induction false} OneMoreByte(ip: seq<Byte>, m: nat, v: nat)
    requires |ip| == 16 && m < GO_INT && v == FromBytes(ip) + m
    ensures |ToBytes(v)| <= 17
  {
    Powers();
    Pow2Grows(63, 8 * |ip|);
    Pow2Byte(|ip|);
    FromBytesBound(ip);
    ToBytesShort(v, |ip| + 1);
  }

  lemma {:induction false} AnyOfIpv6(net: Network, m: nat, v: nat)
    requires IsNetwork(net) && |net.ip| == 16 && net.ip[0] != 0 && m < GO_INT && v == FromBytes(net.ip) + m
    ensures CutBytes(net, ToBytes(v)) == NextBy(net, m, v)
  {
    NotMapped(net.ip);
    KeepsBytes(net.ip, v);
    if |ToBytes(v)| == 16 { NextInIpv6(net, m, v); } else { PastIpv6(net, m, v); }
  }

  /** For every IPv6 network with a nonzero first byte and every number of peers the computation is the addition. */
  lemma {:induction false} NextOfIpv6(net: Network, peers: nat)
    requires IsNetwork(net) && |net.ip| == 16 && net.ip[0] != 0 && peers + 1 < GO_INT
    ensures RequestVpnIp(net, peers) == NextAddress(net, peers)
  {
    assert To16(net.ip) == net.ip;
    AnyOfIpv6(net, peers + 1, Add(FromBytes(net.ip), peers + 1));
  }

  // ---------------------------------------------------------------------------------------------
  // Every network

  /** The promise, by the numbers of the addresses. */
  predicate Meets(net: Network, peers: nat, answer: Answer)
    requires IsNetwork(net)
  {
    if peers + 1 < Pow2(HostBits(net))
    then answer.Assigned? && FromBytes(To16(answer.address)) == Add(FromBytes(To16(net.ip)), peers + 1)
    else answer == Exhausted
  }

  lemma {:induction false} MeetsIpv4(net: Network, peers: nat)
    requires IsNetwork(net) && |net.ip| == 4 && peers + 1 < GO_INT
    ensures Meets(net, peers, RequestVpnIp(net, peers))
  {
    NextOfIpv4(net, peers);
    if peers + 1 < Pow2(HostBits(net)) {
      var u := Add(FromBytes(net.ip), peers + 1);
      NetworkFits(net);
      LastBytesValue(u, |net.ip|);
      MappedValue(net.ip);
      MappedValue(LastBytes(u, |net.ip|));
    }
  }

  lemma {:induction false} MeetsIpv6(net: Network, peers: nat)
    requires IsNetwork(net) && |net.ip| == 16 && net.ip[0] != 0 && peers + 1 < GO_INT
    ensures Meets(net, peers, RequestVpnIp(net, peers))
  {
    NextOfIpv6(net, peers);
    if peers + 1 < Pow2(HostBits(net)) {
      NetworkFits(net);
      LastBytesValue(Add(FromBytes(net.ip), peers + 1), |net.ip|);
    }
  }

  /** An IPv4-mapped network is the IPv4 network. */
  lemma {:induction false} MaskTail(ones: nat, k: nat, j: nat)
    requires j <= k && 8 * j <= ones
    ensures CidrMask(ones, k)[j..] == CidrMask(ones - 8 * j, k - j)
  {
    if j == 0 {
    } else {
      MaskTail(ones - 8, k - 1, j - 1);
    }
  }

  lemma {:induction false} OddQuotient(v: nat, n: nat, h: nat)
    requires n < h && (v / Pow2(n)) % 2 == 1
    ensures !ZeroBits(v, h)
  {
    if n == 0 || v % 2 == 1 {
    } else {
      DivideTwice(v, 2, Pow2(n - 1));
      OddQuotient(v / 2, n - 1, h - 1);
    }
  }

  lemma {:induction false} MappedOnes(net: Network)
    requires IsNetwork(net) && IsMapped(net.ip)
    ensures net.ones >= 96
  {
    assert net.ip == MAPPED + net.ip[12..];
    MappedValue(net.ip[12..]);
    DivideBy(0xFFFF, IPV4_SIZE, FromBytes(net.ip[12..]));
    Powers();
    if HostBits(net) > 32 { OddQuotient(FromBytes(net.ip), 32, HostBits(net)); }
  }

  function Unmapped(net: Network): Network
    requires IsMapped(net.ip) && net.ones >= 96
  {
    Network(net.ip[12..], net.ones - 96)
  }

  lemma {:induction false} ZeroBitsBelow(a: nat, u: nat, n: nat, h: nat)
    requires h <= n
    ensures ZeroBits(a * Pow2(n) + u, h) <==> ZeroBits(u, h)
  {
    if h == 0 {
    } else {
      assert a * Pow2(n) == 2 * (a * Pow2(n - 1));
      ZeroBitsBelow(a, u / 2, n - 1, h - 1);
      assert (a * Pow2(n) + u) / 2 == a * Pow2(n - 1) + u / 2;
    }
  }

  lemma {:induction false} UnmappedSame(net: Network, peers: nat)
    requires IsNetwork(net) && IsMapped(net.ip) && net.ones >= 96
    ensures IsNetwork(Unmapped(net)) && HostBits(Unmapped(net)) == HostBits(net)
    ensures To16(Unmapped(net).ip) == To16(net.ip)
    ensures RequestVpnIp(net, peers) == RequestVpnIp(Unmapped(net), peers)
  {
    var short := Unmapped(net);
    assert net.ip == MAPPED + short.ip;
    MappedValue(short.ip);
    Powers();
    ZeroBitsBelow(0xFFFF, FromBytes(short.ip), 32, HostBits(net));
    ContainsUnmapped(net, if |ToBytes(Sum(net, peers))| == 16 then ToBytes(Sum(net, peers))
                          else if |ToBytes(Sum(net, peers))| >= 2 then ToBytes(Sum(net, peers))[2..] else []);
  }

  lemma {:induction false} ContainsUnmapped(net: Network, x: seq<Byte>)
    requires IsMapped(net.ip) && 96 <= net.ones
    ensures Contains(net, x) == Contains(Unmapped(net), x)
  {
    MaskTail(net.ones, 16, 12);
    var mask := CidrMask(net.ones - 96, 4);
    assert mask[0..] == mask;
  }

  lemma {:induction false} ZeroFirst(ip: seq<Byte>)
    requires |ip| > 0 && ip[0] == 0
    ensures FromBytes(ip) < Pow2(8 * (|ip| - 1))
  {
    FromBytesHead(ip);
    FromBytesBound(ip[1..]);
  }

  lemma {:induction false} SumFits(net: Network, m: nat, n: nat)
    requires IsNetwork(net) && FromBytes(net.ip) < Pow2(n) && m < Pow2(HostBits(net)) && m < Pow2(n)
    ensures FromBytes(net.ip) + m < Pow2(n)
  {
    var h, v := HostBits(net), FromBytes(net.ip);
    ZeroBitsDivide(v, h);
    if h <= n {
      Pow2Adds(n - h, h);
      BlockFits(v, Pow2(n - h), Pow2(h));
    } else {
      Pow2Grows(n, h);
      DivideBy(0, Pow2(h), v);
    }
  }

  /** With a zero first byte an address still free has at most fifteen bytes. */
  lemma {:induction false} ShortSum(net: Network, m: nat, v: nat)
    requires IsNetwork(net) && |net.ip| == 16 && net.ip[0] == 0 && m < Pow2(HostBits(net)) && m < GO_INT
    requires v == FromBytes(net.ip) + m
    ensures |ToBytes(v)| <= 15
  {
    var k := |net.ip| - 1;
    ZeroFirst(net.ip);
    Powers();
    Pow2Grows(63, 8 * k);
    SumFits(net, m, 8 * k);
    ToBytesShort(v, k);
  }

  lemma {:induction false} SumOfSixteen(ip: seq<Byte>, m: nat, v: nat)
    requires |ip| == 16 && ip[0] == 0 && m < GO_INT && v == FromBytes(ip) + m
    ensures |ToBytes(v)| <= 16
  {
    var k := |ip| - 1;
    ZeroFirst(ip);
    Powers();
    Pow2Grows(63, 8 * k);
    Pow2Byte(k);
    ToBytesShort(v, k + 1);
  }

  lemma {:induction false} ZeroFirstByte(net: Network, m: nat, v: nat)
    requires IsNetwork(net) && |net.ip| == 16 && net.ip[0] == 0 && !IsMapped(net.ip) && m < GO_INT && v == FromBytes(net.ip) + m
    ensures m < Pow2(HostBits(net)) ==> !CutBytes(net, ToBytes(v)).Assigned?
    ensures m >= Pow2(HostBits(net)) ==> (CutBytes(net, ToBytes(v)) == Exhausted <==> v >= 256)
  {
    ToBytesShort(v, 1);
    Eight();
    SumOfSixteen(net.ip, m, v);
    if m < Pow2(HostBits(net)) { ShortSum(net, m, v); }
    if |ToBytes(v)| == 16 {
      NextInIpv6(net, m, v);
    } else if |ToBytes(v)| >= 2 {
      OtherLength(net, ToBytes(v));
    }
  }

  /** The computation meets the promise exactly for IPv4 networks, mapped or not, for IPv6 networks with a nonzero first
      byte, and otherwise only where the network is used up and the sum has at least two bytes. */
  lemma {:induction false} MeetsExactly(net: Network, peers: nat)
    requires IsNetwork(net) && peers + 1 < GO_INT
    ensures Meets(net, peers, RequestVpnIp(net, peers)) <==>
      || |net.ip| == 4 || net.ip[0] != 0 || IsMapped(net.ip)
      || (peers + 1 >= Pow2(HostBits(net)) && Add(FromBytes(net.ip), peers + 1) >= 256)
  {
    if |net.ip| == 4 {
      MeetsIpv4(net, peers);
    } else if net.ip[0] != 0 {
      MeetsIpv6(net, peers);
    } else if IsMapped(net.ip) {
      MappedOnes(net);
      UnmappedSame(net, peers);
      MeetsIpv4(Unmapped(net), peers);
    } else {
      assert To16(net.ip) == net.ip;
      ZeroFirstByte(net, peers + 1, Add(FromBytes(net.ip), peers + 1));
    }
  }

  /** The first address of `::/64` is never given out: cutting its one byte panics. */
  lemma {:induction false} UnspecifiedPanics(net: Network)
    requires |net.ip| == 16 && net.ones == 64 && forall i :: 0 <= i < 16 ==> net.ip[i] == 0
    ensures IsNetwork(net) && RequestVpnIp(net, 0) == Panics && !Meets(net, 0, Panics)
  {
    ZerosValue(net.ip);
    ZeroBitsDivide(0, 64);
    ToBytesShort(1, 1);
    Eight();
    Pow2Grows(1, 64);
  }

  /** A VPN whose CIDR could not be parsed has no network to run out of: the first peers panic, the next are handed the empty
      address, as long as the cut leaves nothing, and only then does it fail. */
  lemma {:induction false} UnparsedNetwork(net: Network, peers: nat)
    requires net.ip == [] && peers + 1 < GO_INT
    ensures RequestVpnIp(net, peers) ==
      if peers < 255 then Panics else if peers < 65535 then Assigned([]) else Exhausted
  {
    var v := Add(0, peers + 1);
    ToBytesShort(v, 1);
    ToBytesShort(v, 2);
    ToBytesShort(v, 9);
    Eight();
    Powers();
    CutUnparsed(net, ToBytes(v));
  }

  lemma {:induction false} CutUnparsed(net: Network, bytes: seq<Byte>)
    requires net.ip == [] && |bytes| < 16
    ensures CutBytes(net, bytes) == if |bytes| < 2 then Panics else if |bytes| == 2 then Assigned([]) else Exhausted
  {
  }
}
