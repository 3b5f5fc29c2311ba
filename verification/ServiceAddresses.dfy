/** The addresses of the api server and of CoreDNS in the service network: a byte is added to the last byte in place. */
module ServiceAddresses {
  import opened Options
  import opened Bytes
  import opened Networks

  const KUBERNETES_OFFSET := 1
  const CORE_DNS_OFFSET := 10

  /** Adding to the last byte, which wraps around. */
  function AddedToLast(ip: seq<Byte>, offset: Byte): seq<Byte>
    requires ip != []
  {
    ip[..|ip| - 1] + [(ip[|ip| - 1] + offset) % 256]
  }

  method AddToLast(ip: array<Byte>, offset: Byte)
    requires ip.Length > 0
    modifies ip
    ensures ip[..] == AddedToLast(old(ip[..]), offset)
  {
    ip[ip.Length - 1] := (ip[ip.Length - 1] + offset) % 256;
  }

  method Shifted(cidr: Option<Network>, offset: Byte) returns (address: Option<seq<Byte>>)
    requires cidr.Some? ==> IsNetwork(cidr.value)
    ensures address == if cidr.None? then None else Some(AddedToLast(cidr.value.ip, offset))
  {
    if cidr.None? { return None; }
    var bytes := cidr.value.ip;
    var ip := new Byte[|bytes|](i requires 0 <= i < |bytes| => bytes[i]);
    assert ip[..] == bytes;
    AddToLast(ip, offset);
    return Some(ip[..]);
  }

  method KubernetesServiceIp(cidr: Option<Network>) returns (address: Option<seq<Byte>>)
    requires cidr.Some? ==> IsNetwork(cidr.value)
    ensures address.Some? <==> cidr.Some?
    ensures address.Some? ==> (InCidr(cidr.value, address.value) <==> HostBits(cidr.value) >= 1)
    ensures address.Some? && HostBits(cidr.value) >= 4 ==>
      && address.value == LastBytes(FromBytes(cidr.value.ip) + 1, |cidr.value.ip|)
      && InCidr(cidr.value, address.value) && FromBytes(address.value) == FromBytes(cidr.value.ip) + 1
  {
    address := Shifted(cidr, KUBERNETES_OFFSET);
    if cidr.Some? { ServiceAddressesExactly(cidr.value); }
    if cidr.Some? && HostBits(cidr.value) >= 4 { ServiceAddress(cidr.value, KUBERNETES_OFFSET); }
  }

  method CoreDnsServiceIp(cidr: Option<Network>) returns (address: Option<seq<Byte>>)
    requires cidr.Some? ==> IsNetwork(cidr.value)
    ensures address.Some? <==> cidr.Some?
    ensures address.Some? ==> (InCidr(cidr.value, address.value) <==> HostBits(cidr.value) >= 4)
    ensures address.Some? && HostBits(cidr.value) >= 4 ==>
      && address.value == LastBytes(FromBytes(cidr.value.ip) + 10, |cidr.value.ip|)
      && InCidr(cidr.value, address.value) && FromBytes(address.value) == FromBytes(cidr.value.ip) + 10
  {
    address := Shifted(cidr, CORE_DNS_OFFSET);
    if cidr.Some? { ServiceAddressesExactly(cidr.value); }
    if cidr.Some? && HostBits(cidr.value) >= 4 { ServiceAddress(cidr.value, CORE_DNS_OFFSET); }
  }

  /** Being in the CIDR: equal under the mask, section 3.1 of RFC 4632. */
  predicate InCidr(net: Network, address: seq<Byte>) {
    |address| == |net.ip| && SameMasked(address, net.ip, CidrMask(net.ones, |net.ip|))
  }

  // ---------------------------------------------------------------------------------------------
  // Proofs

  lemma {:induction false} LastByteZeroBits(v: nat, b: Byte, n: nat)
    requires ZeroBits(256 * v + b, n)
    ensures n >= 8 ==> b == 0
    ensures n <= 8 ==> b + Pow2(n) <= 256
  {
    if n >= 8 {
      FewerZeroBits(256 * v + b, n, 8);
      LowZeroBits(v, b, 8);
      ZeroBitsDivide(b, 8);
    } else {
      LowZeroBits(v, b, n);
      ZeroBitsDivide(b, n);
      Pow2Adds(8 - n, n);
      Eight();
      BlockFits(b, Pow2(8 - n), Pow2(n));
    }
    Eight();
  }

  lemma {:induction false} FewerZeroBits(v: nat, n: nat, k: nat)
    requires ZeroBits(v, n) && k <= n
    ensures ZeroBits(v, k)
  {
    if k == 0 {
    } else {
      FewerZeroBits(v / 2, n - 1, k - 1);
    }
  }

  lemma {:induction false} LowZeroBits(v: nat, b: Byte, n: nat)
    requires ZeroBits(256 * v + b, n) && n <= 8
    ensures ZeroBits(b, n)
  {
    Eight();
    ZeroBitsBelow(v, b, 8, n);
  }

  /** The addition does not wrap below the block size. */
  lemma {:induction false} NoWrap(ip: seq<Byte>, n: nat, offset: Byte)
    requires ip != [] && ZeroBits(FromBytes(ip), n) && offset < Pow2(n)
    ensures ip[|ip| - 1] + offset < 256
  {
    LastByteZeroBits(FromBytes(ip[..|ip| - 1]), ip[|ip| - 1], n);
  }

  lemma {:induction false} AddedValue(ip: seq<Byte>, offset: Byte)
    requires ip != []
    ensures FromBytes(AddedToLast(ip, offset)) ==
      FromBytes(ip) + offset - (if ip[|ip| - 1] + offset < 256 then 0 else 256)
  {
    assert AddedToLast(ip, offset)[..|ip| - 1] == ip[..|ip| - 1];
  }

  lemma {:induction false} WrappedBlock(v: nat, m: int, d: int)
    requires d > 0 && v % d == 0 && m < 0 <= v + m
    ensures (v + m) / d != v / d
  {
    var q := v / d;
    assert v == q * d;
    assert (v + m) / d >= q ==> ((v + m) / d) * d >= q * d;
  }

  /** An offset stays in the network exactly when it is below the block size, wrapping or not. */
  lemma {:induction false} InCidrExactly(net: Network, offset: Byte)
    requires IsNetwork(net) && offset > 0
    ensures InCidr(net, AddedToLast(net.ip, offset)) <==> offset < Pow2(HostBits(net))
  {
    var d, v := Pow2(HostBits(net)), FromBytes(net.ip);
    AddedValue(net.ip, offset);
    MaskedIsQuotient(AddedToLast(net.ip, offset), net.ip, net.ones);
    ZeroBitsDivide(v, HostBits(net));
    SameBlock(v, offset, d);
    if offset < d { NoWrap(net.ip, HostBits(net), offset); }
    if net.ip[|net.ip| - 1] + offset >= 256 { WrappedBlock(v, offset - 256, d); }
  }

  lemma {:induction false} FourBits(n: nat)
    requires n >= 4
    ensures Pow2(n) >= 16
  {
    Pow2Grows(4, n);
    Eight();
  }

  /** With four host bits both offsets are plain additions. */
  lemma {:induction false} ServiceAddress(net: Network, offset: Byte)
    requires IsNetwork(net) && HostBits(net) >= 4 && 0 < offset <= 10
    ensures var address := AddedToLast(net.ip, offset);
      && InCidr(net, address) && FromBytes(address) == FromBytes(net.ip) + offset
      && address == LastBytes(FromBytes(net.ip) + offset, |net.ip|)
  {
    FourBits(HostBits(net));
    InCidrExactly(net, offset);
    NoWrap(net.ip, HostBits(net), offset);
    AddedValue(net.ip, offset);
    BytesOfValue(AddedToLast(net.ip, offset));
  }

  /** The two addresses are inside and as promised exactly when the network has one, and four, host bits. */
  lemma {:induction false} ServiceAddressesExactly(net: Network)
    requires IsNetwork(net)
    ensures InCidr(net, AddedToLast(net.ip, KUBERNETES_OFFSET)) <==> HostBits(net) >= 1
    ensures InCidr(net, AddedToLast(net.ip, CORE_DNS_OFFSET)) <==> HostBits(net) >= 4
    ensures AddedToLast(net.ip, KUBERNETES_OFFSET) != AddedToLast(net.ip, CORE_DNS_OFFSET)
  {
    InCidrExactly(net, KUBERNETES_OFFSET);
    InCidrExactly(net, CORE_DNS_OFFSET);
    Eight();
    if HostBits(net) >= 4 { FourBits(HostBits(net)); }
    if HostBits(net) >= 1 { Pow2Grows(1, HostBits(net)); }
    AddedValue(net.ip, KUBERNETES_OFFSET);
    AddedValue(net.ip, CORE_DNS_OFFSET);
  }

  /** In `10.0.0.248/29` the address of CoreDNS wraps around and is outside. */
  lemma {:induction false} SmallNetworkMisses()
    ensures var net := Network([10, 0, 0, 248], 29);
      && IsNetwork(net) && AddedToLast(net.ip, CORE_DNS_OFFSET) == [10, 0, 0, 2]
      && !InCidr(net, AddedToLast(net.ip, CORE_DNS_OFFSET))
  {
    var net := Network([10, 0, 0, 248], 29);
    FromBytesHead(net.ip);
    assert FromBytes(net.ip) == 256 * FromBytes(net.ip[..3]) + 248;
    var v := FromBytes(net.ip[..3]);
    Eight();
    ZeroBitsBelow(v, 248, 8, 3);
    ZeroBitsDivide(248, 3);
    ServiceAddressesExactly(net);
  }
}
