/** The usable-address pool of a subnet's CIDR block (`_ips_for_subnet`): every address of the
    block except the first four and the last one, which the provider reserves. Addresses are IPv4
    values; their dotted-quad rendering is one-to-one and is not modelled. */
module AddressSpace {
  import opened Wrappers
  import PyStr

  const AddressLimit: nat := 0x1_0000_0000

  /** An IPv4 address as its 32-bit value. */
  type Addr = n: nat | n < AddressLimit

  function Pow2(k: nat): (r: nat)
    ensures r >= 1
  {
    if k == 0 then 1 else 2 * Pow2(k - 1)
  }

  /** A parsed CIDR block: its network (lowest) address and its prefix length. Parsing the text
      and clearing host bits is netaddr's work and is not modelled. */
  datatype Network = Network(first: nat, prefix: nat)

  function Size(net: Network): (r: nat)
    requires net.prefix <= 32
    ensures r >= 1
  {
    Pow2(32 - net.prefix)
  }

  /** The block is a real IPv4 block: its prefix is at most 32, its first address is aligned to
      its size and the block ends within the address space. */
  predicate ValidNetwork(net: Network) {
    net.prefix <= 32 && net.first % Size(net) == 0 && net.first + Size(net) <= AddressLimit
  }

  /** A CIDR block as the provider reports it, which is always a real block. */
  type Block = net: Network | ValidNetwork(net) witness Network(0, 32)

  /** `list(net)`: every address of the block in ascending order. */
  function Addresses(net: Network): (r: seq<Addr>)
    requires ValidNetwork(net)
    ensures |r| == Size(net)
  {
    seq(Size(net), i requires 0 <= i < Size(net) => net.first + i)
  }

  /** `_ips_for_subnet`: `list(net[4:-1])`. The pool is the addresses from network+4 up to the
      one before the broadcast address, in ascending order, so it holds max(0, size - 5)
      addresses: none for a /30 or a /31, under Python's list-slice rule. */
  function UsablePool(net: Network): (r: seq<Addr>)
    requires ValidNetwork(net)
    ensures |r| == if Size(net) >= 5 then Size(net) - 5 else 0
    ensures forall i :: 0 <= i < |r| ==> r[i] == net.first + 4 + i
  {
    PyStr.Slice(Addresses(net), 4, -1)
  }

  /** Membership in the pool, the test `x in ips` the instance map applies. */
  lemma InPoolIff(net: Network, a: Addr)
    requires ValidNetwork(net)
    ensures a in UsablePool(net) <==> net.first + 4 <= a < net.first + Size(net) - 1
  {
    var pool := UsablePool(net);
    if net.first + 4 <= a < net.first + Size(net) - 1 {
      assert pool[a - net.first - 4] == a;
    }
  }

  /** For a prefix length p the pool holds max(0, 2^(32-p) - 5) addresses: 251 for a /24. */
  lemma PoolSizeForSlash24(first: nat)
    requires ValidNetwork(Network(first, 24))
    ensures |UsablePool(Network(first, 24))| == 251
  {
    assert Pow2(4) == 16;
    assert Pow2(8) == 256;
  }
}
