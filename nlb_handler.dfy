/** `_handle_nlbs` (variant B): every network load balancer with an availability zone in the
    subnet is credited with the map entries whose holder mentions its name (at least one) and
    allowed `ElbMaxIps` addresses. The records are those the listing delivered; when the listing
    raises ClientError part-way, the totals of the records delivered so far are returned. */
module NlbHandler {
  import opened Wrappers
  import opened PyStr
  import opened Holders
  import opened Sums
  import ElbHandler

  /** A load balancer record; `zoneSubnets` holds `az.get('SubnetId')` of each zone. */
  datatype LoadBalancer = LoadBalancer(name: string, arn: string, lbType: string, zoneSubnets: seq<Option<string>>)

  /** The entry `nlb_details` gets under `show_tags` (the tags themselves are not modelled). */
  datatype NlbDetail = NlbDetail(name: string, arn: string, ipCount: nat)

  datatype NlbTotals = NlbTotals(arns: set<string>, curr: nat, max: nat, details: seq<NlbDetail>)

  /** The record is a network load balancer with a zone in the subnet. */
  predicate InSubnet(lb: LoadBalancer, subnetId: string) {
    lb.lbType == "network" && Some(subnetId) in lb.zoneSubnets
  }

  function Matching(lbs: seq<LoadBalancer>, subnetId: string): (r: seq<LoadBalancer>)
    ensures |r| <= |lbs|
    ensures forall lb :: lb in r <==> lb in lbs && InSubnet(lb, subnetId)
    decreases |lbs|
  {
    if |lbs| == 0 then []
    else
      var init := Matching(lbs[..|lbs| - 1], subnetId);
      var lb := lbs[|lbs| - 1];
      assert forall x :: x in lbs <==> x in lbs[..|lbs| - 1] || x == lb;
      if InSubnet(lb, subnetId) then init + [lb] else init
  }

  /** The addresses whose holder contains `name` as a substring. */
  function Hits(used: AddressMap, name: string): set<AddressSpace.Addr> {
    set a | a in used && Contains(used[a], name)
  }

  /** `nlb_ips if nlb_ips > 0 else 1` */
  function IpsFor(used: AddressMap, name: string): nat {
    var n := |Hits(used, name)|;
    if n > 0 then n else 1
  }

  /** What one record does to the totals. */
  function Step(used: AddressMap, t: NlbTotals, lb: LoadBalancer, subnetId: string, showTags: bool): NlbTotals {
    if !InSubnet(lb, subnetId) then t
    else
      var ips := IpsFor(used, lb.name);
      NlbTotals(t.arns + {lb.arn}, t.curr + ips, t.max + ElbHandler.ElbMaxIps,
                t.details + (if showTags then [NlbDetail(lb.name, lb.arn, ips)] else []))
  }

  /** The totals over the records in order. Every matching record adds 8 to the maximum and at
      least one to the current use, its ARN to the set, and one detail entry under `show_tags`. */
  function Scan(used: AddressMap, lbs: seq<LoadBalancer>, subnetId: string, showTags: bool): (t: NlbTotals)
    ensures t.max == ElbHandler.ElbMaxIps * |Matching(lbs, subnetId)|
    ensures t.curr >= |Matching(lbs, subnetId)|
    ensures |t.arns| <= |Matching(lbs, subnetId)|
    ensures t.arns == set lb | lb in Matching(lbs, subnetId) :: lb.arn
    ensures |t.details| == if showTags then |Matching(lbs, subnetId)| else 0
    decreases |lbs|
  {
    if |lbs| == 0 then NlbTotals({}, 0, 0, [])
    else Step(used, Scan(used, lbs[..|lbs| - 1], subnetId, showTags), lbs[|lbs| - 1], subnetId, showTags)
  }

  /** The body of the record loop for a network load balancer: the zone loop, which updates the
      totals at the first zone in the subnet and leaves with `break`. */
  method VisitZones(used: AddressMap, subnetId: string, lb: LoadBalancer, showTags: bool,
                    arns0: set<string>, curr0: nat, max0: nat, details0: seq<NlbDetail>)
    returns (arns: set<string>, curr: nat, max: nat, details: seq<NlbDetail>)
    requires lb.lbType == "network"
    ensures NlbTotals(arns, curr, max, details)
         == Step(used, NlbTotals(arns0, curr0, max0, details0), lb, subnetId, showTags)
  {
    arns, curr, max, details := arns0, curr0, max0, details0;
    ghost var found := false;
    for z := 0 to |lb.zoneSubnets|
      invariant !found
      invariant Some(subnetId) !in lb.zoneSubnets[..z]
      invariant arns == arns0 && curr == curr0 && max == max0 && details == details0
    {
      if lb.zoneSubnets[z] == Some(subnetId) {
        assert InSubnet(lb, subnetId);
        arns := arns + {lb.arn};
        var nlbIps := |Hits(used, lb.name)|;
        curr := curr + (if nlbIps > 0 then nlbIps else 1);
        max := max + ElbHandler.ElbMaxIps;
        if showTags {
          details := details + [NlbDetail(lb.name, lb.arn, if nlbIps > 0 then nlbIps else 1)];
        }
        found := true;
        break;
      }
      assert lb.zoneSubnets[..z + 1] == lb.zoneSubnets[..z] + [lb.zoneSubnets[z]];
    }
    if !found {
      assert lb.zoneSubnets[..|lb.zoneSubnets|] == lb.zoneSubnets;
    }
  }

  /** `_handle_nlbs`: the loop over the records; other types are skipped with `continue`. */
  method HandleNlbs(used: AddressMap, subnetId: string, lbs: seq<LoadBalancer>, showTags: bool)
    returns (count: nat, curr: nat, max: nat, details: seq<NlbDetail>)
    ensures var t := Scan(used, lbs, subnetId, showTags);
      count == |t.arns| && curr == t.curr && max == t.max && details == t.details
  {
    var arns: set<string> := {};
    curr, max, details := 0, 0, [];
    for i := 0 to |lbs|
      invariant NlbTotals(arns, curr, max, details) == Scan(used, lbs[..i], subnetId, showTags)
    {
      var lb := lbs[i];
      assert lbs[..i + 1][..i] == lbs[..i];
      if lb.lbType != "network" {
        continue;
      }
      arns, curr, max, details := VisitZones(used, subnetId, lb, showTags, arns, curr, max, details);
    }
    assert lbs[..|lbs|] == lbs;
    count := |arns|;
  }

  lemma {:induction false} OccursWithin(d: string, outer: string, inner: string, i: int, j: int)
    requires OccursAt(d, outer, i) && OccursAt(outer, inner, j)
    ensures OccursAt(d, inner, i + j)
  {
    forall k | 0 <= k < |inner| ensures d[i + j + k] == inner[k] {
      assert d[i + j + k] == outer[j + k];
    }
  }

  /** The credit is by substring: a load balancer whose name occurs in another's is credited at
      least with every entry credited to the other (a balancer "api" counts the ENIs of
      "api-internal" as well). */
  lemma ShorterNameCountsAtLeastAsMany(used: AddressMap, shorter: string, longer: string)
    requires Contains(longer, shorter)
    ensures Hits(used, longer) <= Hits(used, shorter)
    ensures IpsFor(used, longer) <= IpsFor(used, shorter)
  {
    var j :| 0 <= j <= |longer| && OccursAt(longer, shorter, j);
    forall a | a in Hits(used, longer) ensures a in Hits(used, shorter) {
      var i :| 0 <= i <= |used[a]| && OccursAt(used[a], longer, i);
      OccursWithin(used[a], longer, shorter, i, j);
    }
    SubsetCard(Hits(used, longer), Hits(used, shorter));
  }
}
