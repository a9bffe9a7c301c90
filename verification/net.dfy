/**
 * Addresses and networks as numbers. Parsing and printing them (`IpAddr::from_str`,
 * `IpNet::from_str`, `Display`) belong to the standard library and `ipnet` and are taken as
 * given functions, bundled in `NetLib`.
 */
module Net {
  import opened Wrappers

  /** An address as an unsigned number: 32 bits for IPv4, 128 for IPv6. */
  datatype IpAddr = V4(bits: nat) | V6(bits: nat)

  function Width(a: IpAddr): nat {
    if a.V4? then 32 else 128
  }

  function Pow2(n: nat): (r: nat)
    ensures r >= 1
  {
    if n == 0 then 1 else 2 * Pow2(n - 1)
  }

  /** `ipnet::IpNet`: the address as written and a prefix length. */
  datatype IpNet = IpNet(addr: IpAddr, prefixLen: nat)

  /** The number of addresses the network spans. */
  function HostCount(n: IpNet): (h: nat)
    ensures h >= 1
  {
    var w := Width(n.addr);
    Pow2(if n.prefixLen <= w then w - n.prefixLen else 0)
  }

  function WithBits(a: IpAddr, bits: nat): IpAddr {
    if a.V4? then V4(bits) else V6(bits)
  }

  /** `IpNet::network`: the address with its host bits cleared. */
  function Network(n: IpNet): (r: IpAddr)
    ensures r.V4? == n.addr.V4?
    ensures r.bits <= n.addr.bits < r.bits + HostCount(n)
    ensures r.bits % HostCount(n) == 0
  {
    var h := HostCount(n);
    RemainderAtMost(n.addr.bits, h);
    AlignedDown(n.addr.bits, h);
    WithBits(n.addr, n.addr.bits - n.addr.bits % h)
  }

  /** Clearing the remainder leaves a multiple of the modulus. */
  lemma AlignedDown(x: nat, h: nat)
    requires h >= 1
    ensures (x - x % h) % h == 0
  {
    var q := x / h;
    assert x - x % h == q * h;
    MultipleMod(q, h);
  }

  lemma MultipleMod(q: int, h: nat)
    requires h >= 1
    ensures (q * h) % h == 0
  {
    var d := (q * h) / h;
    var m := (q * h) % h;
    assert h * (q - d) == m;
    MultipleBounds(h, q - d);
  }

  lemma MultipleBounds(h: int, k: int)
    requires h >= 1
    ensures k >= 1 ==> h * k >= h
    ensures k <= -1 ==> h * k <= -h
  {
    if k >= 1 {
      assert h * k == h + h * (k - 1);
    } else if k <= -1 {
      assert h * k == -h + h * (k + 1);
    }
  }

  lemma RemainderAtMost(x: nat, h: nat)
    requires h >= 1
    ensures x % h <= x
  {
    if x < h {
      assert x == 0 * h + x;
    }
  }

  /** `IpNet::broadcast`: the address with its host bits set. */
  function Broadcast(n: IpNet): (r: IpAddr)
    ensures r.V4? == n.addr.V4?
    ensures n.addr.bits <= r.bits && r.bits - n.addr.bits < HostCount(n)
    ensures (r.bits + 1) % HostCount(n) == 0
  {
    MultipleMod(Network(n).bits / HostCount(n) + 1, HostCount(n));
    WithBits(n.addr, Network(n).bits + HostCount(n) - 1)
  }

  /** The address as written lies in the range from the network to the broadcast address. */
  lemma NetworkContainsAddr(n: IpNet)
    ensures Network(n).V4? == n.addr.V4? && Broadcast(n).V4? == n.addr.V4?
    ensures Network(n).bits <= n.addr.bits <= Broadcast(n).bits
    ensures Broadcast(n).bits - Network(n).bits + 1 == HostCount(n)
  {
  }

  /** The parsers and the printer of addresses the clients rely on. */
  datatype NetLib = NetLib(
    parseIp: string -> Option<IpAddr>,
    parseNet: string -> Option<IpNet>,
    showIp: IpAddr -> string)

  /** Printing an address and parsing the text back gives the same address. */
  ghost predicate RoundTrips(lib: NetLib) {
    forall a: IpAddr :: lib.parseIp(lib.showIp(a)) == Some(a)
  }
}
