/** The address-to-holder map of `show_subnet_usage`: every private address of every ENI of the
    subnet maps to "<eni-id> / <description>", then instance records overwrite entries for the
    addresses they claim (`_find_used_eni`, `_find_used_ec2_instances`, `used_ips.update`). */
module Holders {
  import opened Wrappers
  import opened AddressSpace
  import opened SubnetQuery
  import Sums

  /** A network interface as the ENI listing of the subnet returns it. */
  datatype Eni = Eni(id: string, description: string, privateIps: seq<Addr>)

  /** An instance record of `describe_instances`. An absent `PrivateIpAddress` (a terminated
      instance) is `None`; `networkInterfaceId` is the instance-level `NetworkInterfaceId` key the
      script reads, which instance records normally lack. */
  datatype Instance = Instance(
    instanceId: string,
    privateIp: Option<Addr>,
    publicIp: Option<Addr>,
    interfaceIps: seq<Addr>,
    networkInterfaceId: Option<string>)

  type AddressMap = map<Addr, string>

  /** The value an ENI leaves in the map: `'%s / %s' % (eni.id, eni.description)`. */
  function Descriptor(e: Eni): string {
    e.id + " / " + e.description
  }

  function Entries(ips: seq<Addr>, holder: string): AddressMap {
    map a | a in ips :: holder
  }

  /** The ENI map: the ENIs applied in order, a later ENI overwriting an earlier one. */
  function EniMap(enis: seq<Eni>): AddressMap
    decreases |enis|
  {
    if |enis| == 0 then map[]
    else
      var last := enis[|enis| - 1];
      EniMap(enis[..|enis| - 1]) + Entries(last.privateIps, Descriptor(last))
  }

  /** `_find_used_eni`: two nested loops filling `res`. */
  method FindUsedEni(enis: seq<Eni>) returns (res: AddressMap)
    ensures res == EniMap(enis)
  {
    res := map[];
    for i := 0 to |enis|
      invariant res == EniMap(enis[..i])
    {
      res := AddEniEntries(res, enis[i]);
      assert enis[..i + 1][..i] == enis[..i];
    }
    assert enis[..|enis|] == enis;
  }

  /** The inner loop of `_find_used_eni`: every private address of one ENI gets its descriptor. */
  method AddEniEntries(m: AddressMap, eni: Eni) returns (res: AddressMap)
    ensures res == m + Entries(eni.privateIps, Descriptor(eni))
  {
    res := m;
    for j := 0 to |eni.privateIps|
      invariant res == m + Entries(eni.privateIps[..j], Descriptor(eni))
    {
      assert eni.privateIps[..j + 1] == eni.privateIps[..j] + [eni.privateIps[j]];
      res := res[eni.privateIps[j] := Descriptor(eni)];
    }
    assert eni.privateIps[..|eni.privateIps|] == eni.privateIps;
  }

  /** An address is in the ENI map exactly when some ENI lists it, and it then holds the
      descriptor of the last ENI that lists it. */
  lemma {:induction false} EniMapHolder(enis: seq<Eni>, a: Addr)
    ensures a in EniMap(enis) <==> exists i :: 0 <= i < |enis| && a in enis[i].privateIps
    ensures a in EniMap(enis) ==>
      exists i :: 0 <= i < |enis| && a in enis[i].privateIps
        && EniMap(enis)[a] == Descriptor(enis[i])
        && forall j :: i < j < |enis| ==> a !in enis[j].privateIps
    decreases |enis|
  {
    if |enis| > 0 {
      var n := |enis| - 1;
      var init := enis[..n];
      EniMapHolder(init, a);
      if a in enis[n].privateIps {
        assert EniMap(enis)[a] == Descriptor(enis[n]);
      } else {
        if a in EniMap(init) {
          var i :| 0 <= i < |init| && a in init[i].privateIps && EniMap(init)[a] == Descriptor(init[i])
            && forall j :: i < j < |init| ==> a !in init[j].privateIps;
          assert enis[i] == init[i];
          assert forall j :: i < j < |enis| ==> a !in enis[j].privateIps by {
            forall j | i < j < |enis| ensures a !in enis[j].privateIps {
              if j < n { assert enis[j] == init[j]; }
            }
          }
        }
        if exists i :: 0 <= i < |enis| && a in enis[i].privateIps {
          var i :| 0 <= i < |enis| && a in enis[i].privateIps;
          assert i < n && init[i] == enis[i];
        }
      }
    }
  }

  // ------------------------------------------------------------ instance passes (variant B)

  /** The entry one instance record writes in variant B, if any: its private address when that
      is in the pool; else its public address when that is in the pool; else, when one of its
      interfaces has an address in the pool, its own private address with the holder
      "<id>/<NetworkInterfaceId or 0>". An entry keyed inside the pool always names the bare
      instance id, an entry keyed outside it never does. */
  function Claim(inst: Instance, pool: seq<Addr>): (c: Option<(Addr, string)>)
    requires inst.privateIp.Some?
    ensures inst.privateIp.value in pool ==> c == Some((inst.privateIp.value, inst.instanceId))
    ensures inst.privateIp.value !in pool && inst.publicIp.Some? && inst.publicIp.value in pool ==>
      c == Some((inst.publicIp.value, inst.instanceId))
    ensures (inst.privateIp.value !in pool && (inst.publicIp.None? || inst.publicIp.value !in pool)
      && exists k :: 0 <= k < |inst.interfaceIps| && inst.interfaceIps[k] in pool) ==>
      c == Some((inst.privateIp.value, inst.instanceId + "/" + inst.networkInterfaceId.GetOr("0")))
    ensures c.Some? && c.value.0 == inst.privateIp.value ==>
      c.value.1 == inst.instanceId
      || (inst.privateIp.value !in pool && exists k :: 0 <= k < |inst.interfaceIps| && inst.interfaceIps[k] in pool)
    ensures c.Some? ==> (c.value.0 in pool <==> c.value.1 == inst.instanceId)
    ensures c.None? <==> (inst.privateIp.value !in pool
      && (inst.publicIp.None? || inst.publicIp.value !in pool)
      && forall k :: 0 <= k < |inst.interfaceIps| ==> inst.interfaceIps[k] !in pool)
  {
    var p := inst.privateIp.value;
    if p in pool then Some((p, inst.instanceId))
    else if inst.publicIp.Some? && inst.publicIp.value in pool then Some((inst.publicIp.value, inst.instanceId))
    else if exists k :: 0 <= k < |inst.interfaceIps| && inst.interfaceIps[k] in pool then
      var tagged := inst.instanceId + "/" + inst.networkInterfaceId.GetOr("0");
      assert |tagged| > |inst.instanceId|;
      Some((p, tagged))
    else None
  }

  function Record(m: AddressMap, c: Option<(Addr, string)>): AddressMap {
    if c.Some? then m[c.value.0 := c.value.1] else m
  }

  /** One variant-B pass over the records, starting from `m`: `inst['PrivateIpAddress']` raises
      KeyError on the first record without one, which ends the run. */
  function PassB(m: AddressMap, insts: seq<Instance>, pool: seq<Addr>): Result<AddressMap, Fatal>
    decreases |insts|
  {
    if |insts| == 0 then Ok(m)
    else if insts[0].privateIp.None? then Err(InstanceWithoutPrivateAddress(insts[0].instanceId))
    else PassB(Record(m, Claim(insts[0], pool)), insts[1..], pool)
  }

  /** Variant A's single pass: every record with a private address maps it to the bare id,
      whether or not the address is in the pool. */
  function PassA(m: AddressMap, insts: seq<Instance>): AddressMap
    decreases |insts|
  {
    if |insts| == 0 then m
    else
      var inst := insts[0];
      PassA(if inst.privateIp.Some? then m[inst.privateIp.value := inst.instanceId] else m, insts[1..])
  }

  /** The instance map: variant B runs the pass filtered by interface subnet, then the pass
      filtered by subnet id on top of it; variant A runs the subnet-id pass alone. */
  function InstanceMap(variant: Variant, byInterfaceSubnet: seq<Instance>, bySubnet: seq<Instance>, pool: seq<Addr>)
    : Result<AddressMap, Fatal>
  {
    if variant == VariantA then Ok(PassA(map[], bySubnet))
    else
      match PassB(map[], byInterfaceSubnet, pool)
      case Err(e) => Err(e)
      case Ok(first) => PassB(first, bySubnet, pool)
  }

  /** One pass of variant B's `_find_used_ec2_instances`, with its if/elif/else and the loop over
      the network interfaces. */
  method RunPassB(m: AddressMap, insts: seq<Instance>, pool: seq<Addr>) returns (r: Result<AddressMap, Fatal>)
    ensures r == PassB(m, insts, pool)
  {
    var res: AddressMap := m;
    for i := 0 to |insts|
      invariant PassB(res, insts[i..], pool) == PassB(m, insts, pool)
    {
      var inst := insts[i];
      assert insts[i..][1..] == insts[i + 1..];
      if inst.privateIp.None? {
        return Err(InstanceWithoutPrivateAddress(inst.instanceId));
      }
      var p := inst.privateIp.value;
      if p in pool {
        res := res[p := inst.instanceId];
      } else if inst.publicIp.Some? && inst.publicIp.value in pool {
        res := res[inst.publicIp.value := inst.instanceId];
      } else {
        ghost var before := res;
        var tagged := inst.instanceId + "/" + inst.networkInterfaceId.GetOr("0");
        for k := 0 to |inst.interfaceIps|
          invariant res == if exists k' :: 0 <= k' < k && inst.interfaceIps[k'] in pool then before[p := tagged] else before
        {
          if inst.interfaceIps[k] in pool {
            res := res[p := tagged];
          }
        }
      }
    }
    assert insts[|insts|..] == [];
    r := Ok(res);
  }

  /** Variant A's `_find_used_ec2_instances`: `if ip: res[ip] = inst['InstanceId']`. */
  method RunPassA(insts: seq<Instance>) returns (res: AddressMap)
    ensures res == PassA(map[], insts)
  {
    res := map[];
    for i := 0 to |insts|
      invariant PassA(res, insts[i..]) == PassA(map[], insts)
    {
      assert insts[i..][1..] == insts[i + 1..];
      var inst := insts[i];
      if inst.privateIp.Some? {
        res := res[inst.privateIp.value := inst.instanceId];
      }
    }
    assert insts[|insts|..] == [];
  }

  method FindUsedInstances(variant: Variant, byInterfaceSubnet: seq<Instance>, bySubnet: seq<Instance>, pool: seq<Addr>)
    returns (r: Result<AddressMap, Fatal>)
    ensures r == InstanceMap(variant, byInterfaceSubnet, bySubnet, pool)
  {
    if variant == VariantA {
      var m := RunPassA(bySubnet);
      return Ok(m);
    }
    r := RunPassB(map[], byInterfaceSubnet, pool);
    if r.Ok? {
      r := RunPassB(r.value, bySubnet, pool);
    }
  }

  /** An instance record writes an entry for `k`. */
  predicate ClaimsKey(inst: Instance, pool: seq<Addr>, k: Addr) {
    inst.privateIp.Some? && Claim(inst, pool).Some? && Claim(inst, pool).value.0 == k
  }

  /** A pass fails exactly when some record lacks a private address, and then it names the
      first such record. */
  lemma {:induction false} PassBFails(m: AddressMap, insts: seq<Instance>, pool: seq<Addr>)
    ensures PassB(m, insts, pool).Err? <==> exists i :: 0 <= i < |insts| && insts[i].privateIp.None?
    ensures PassB(m, insts, pool).Err? ==>
      exists i :: 0 <= i < |insts| && insts[i].privateIp.None?
        && (forall j :: 0 <= j < i ==> insts[j].privateIp.Some?)
        && PassB(m, insts, pool).error == InstanceWithoutPrivateAddress(insts[i].instanceId)
    decreases |insts|
  {
    if |insts| > 0 && insts[0].privateIp.Some? {
      var rest := insts[1..];
      PassBFails(Record(m, Claim(insts[0], pool)), rest, pool);
      if exists i :: 0 <= i < |rest| && rest[i].privateIp.None? {
        var i :| 0 <= i < |rest| && rest[i].privateIp.None?;
        assert insts[i + 1] == rest[i];
      }
      if exists i :: 0 <= i < |insts| && insts[i].privateIp.None? {
        var i :| 0 <= i < |insts| && insts[i].privateIp.None?;
        assert rest[i - 1] == insts[i];
      }
      if PassB(m, insts, pool).Err? {
        var i :| 0 <= i < |rest| && rest[i].privateIp.None?
          && (forall j :: 0 <= j < i ==> rest[j].privateIp.Some?)
          && PassB(m, insts, pool).error == InstanceWithoutPrivateAddress(rest[i].instanceId);
        assert insts[i + 1] == rest[i];
        assert forall j :: 0 <= j < i + 1 ==> insts[j].privateIp.Some? by {
          forall j | 0 <= j < i + 1 ensures insts[j].privateIp.Some? {
            if j > 0 { assert insts[j] == rest[j - 1]; }
          }
        }
      }
    }
  }

  /** A pass overwrites: the keys afterwards are the starting keys plus the claimed ones; a key
      claimed by some record holds the value of the last record claiming it; an unclaimed key
      keeps its starting value. Applied to the second pass, entries of the subnet-id pass win
      over those of the interface-subnet pass. */
  lemma {:induction false} PassBOverwrites(m: AddressMap, insts: seq<Instance>, pool: seq<Addr>, k: Addr)
    requires PassB(m, insts, pool).Ok?
    ensures var r := PassB(m, insts, pool).value;
      (k in r <==> k in m || exists i :: 0 <= i < |insts| && ClaimsKey(insts[i], pool, k))
      && (forall i :: 0 <= i < |insts| && ClaimsKey(insts[i], pool, k)
            && (forall j :: i < j < |insts| ==> !ClaimsKey(insts[j], pool, k))
            ==> r[k] == Claim(insts[i], pool).value.1)
      && (k in m && (forall i :: 0 <= i < |insts| ==> !ClaimsKey(insts[i], pool, k)) ==> r[k] == m[k])
    decreases |insts|
  {
    if |insts| > 0 {
      var rest := insts[1..];
      var m' := Record(m, Claim(insts[0], pool));
      PassBOverwrites(m', rest, pool, k);
      var r := PassB(m, insts, pool).value;
      assert r == PassB(m', rest, pool).value;
      assert forall i :: 0 < i < |insts| ==> insts[i] == rest[i - 1];
      if exists i :: 0 <= i < |insts| && ClaimsKey(insts[i], pool, k) {
        var i :| 0 <= i < |insts| && ClaimsKey(insts[i], pool, k);
        if i > 0 { assert ClaimsKey(rest[i - 1], pool, k); }
      }
      forall i | 0 <= i < |insts| && ClaimsKey(insts[i], pool, k)
          && (forall j :: i < j < |insts| ==> !ClaimsKey(insts[j], pool, k))
        ensures r[k] == Claim(insts[i], pool).value.1
      {
        if i > 0 {
          assert ClaimsKey(rest[i - 1], pool, k);
          assert forall j :: i - 1 < j < |rest| ==> !ClaimsKey(rest[j], pool, k) by {
            forall j | i - 1 < j < |rest| ensures !ClaimsKey(rest[j], pool, k) {
              assert rest[j] == insts[j + 1];
            }
          }
        } else {
          assert forall j :: 0 <= j < |rest| ==> !ClaimsKey(rest[j], pool, k) by {
            forall j | 0 <= j < |rest| ensures !ClaimsKey(rest[j], pool, k) {
              assert rest[j] == insts[j + 1];
            }
          }
        }
      }
      if k in m && (forall i :: 0 <= i < |insts| ==> !ClaimsKey(insts[i], pool, k)) {
        assert !ClaimsKey(insts[0], pool, k);
        assert forall j :: 0 <= j < |rest| ==> !ClaimsKey(rest[j], pool, k) by {
          forall j | 0 <= j < |rest| ensures !ClaimsKey(rest[j], pool, k) {
            assert rest[j] == insts[j + 1];
          }
        }
      }
    }
  }

  /** Variant A's pass: a key is present exactly when it was already or some record has it as
      its private address (in the pool or not); it then holds the id of the last such record,
      and a key no record names keeps its old value. */
  lemma {:induction false} PassAHolds(m: AddressMap, insts: seq<Instance>, k: Addr)
    ensures var r := PassA(m, insts);
      (k in r <==> k in m || exists i :: 0 <= i < |insts| && insts[i].privateIp == Some(k))
      && (forall i :: 0 <= i < |insts| && insts[i].privateIp == Some(k)
            && (forall j :: i < j < |insts| ==> insts[j].privateIp != Some(k))
            ==> r[k] == insts[i].instanceId)
      && (k in m && (forall i :: 0 <= i < |insts| ==> insts[i].privateIp != Some(k)) ==> r[k] == m[k])
    decreases |insts|
  {
    if |insts| > 0 {
      var inst := insts[0];
      var rest := insts[1..];
      var m' := if inst.privateIp.Some? then m[inst.privateIp.value := inst.instanceId] else m;
      PassAHolds(m', rest, k);
      var r := PassA(m, insts);
      assert r == PassA(m', rest);
      assert forall i :: 0 < i < |insts| ==> insts[i] == rest[i - 1];
      if exists i :: 0 <= i < |insts| && insts[i].privateIp == Some(k) {
        var i :| 0 <= i < |insts| && insts[i].privateIp == Some(k);
        if i > 0 { assert rest[i - 1].privateIp == Some(k); }
      }
      forall i | 0 <= i < |insts| && insts[i].privateIp == Some(k)
          && (forall j :: i < j < |insts| ==> insts[j].privateIp != Some(k))
        ensures r[k] == insts[i].instanceId
      {
        if i > 0 {
          assert rest[i - 1].privateIp == Some(k);
          assert forall j :: i - 1 < j < |rest| ==> rest[j].privateIp != Some(k) by {
            forall j | i - 1 < j < |rest| ensures rest[j].privateIp != Some(k) {
              assert rest[j] == insts[j + 1];
            }
          }
        } else {
          assert forall j :: 0 <= j < |rest| ==> rest[j].privateIp != Some(k) by {
            forall j | 0 <= j < |rest| ensures rest[j].privateIp != Some(k) {
              assert rest[j] == insts[j + 1];
            }
          }
        }
      }
      if k in m && (forall i :: 0 <= i < |insts| ==> insts[i].privateIp != Some(k)) {
        assert insts[0].privateIp != Some(k);
        assert forall j :: 0 <= j < |rest| ==> rest[j].privateIp != Some(k) by {
          forall j | 0 <= j < |rest| ensures rest[j].privateIp != Some(k) {
            assert rest[j] == insts[j + 1];
          }
        }
      }
    }
  }

  /** `used_ips.update(eni_ips); used_ips.update(ec2_ips)`: the keys are the union, and an
      address found by both holds the instance entry. */
  function Merge(eniMap: AddressMap, instMap: AddressMap): (used: AddressMap)
    ensures used.Keys == eniMap.Keys + instMap.Keys
    ensures forall a :: a in used ==> used[a] == if a in instMap then instMap[a] else eniMap[a]
    ensures |eniMap| <= |used| && |instMap| <= |used| <= |eniMap| + |instMap|
  {
    var used := eniMap + instMap;
    assert used.Keys == eniMap.Keys + instMap.Keys;
    Sums.UnionCard(eniMap.Keys, instMap.Keys);
    Sums.UnionCard(instMap.Keys, eniMap.Keys);
    assert instMap.Keys + eniMap.Keys == used.Keys;
    used
  }
}
