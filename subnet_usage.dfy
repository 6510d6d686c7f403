/** `show_subnet_usage`: find the subnet, build the address-to-holder map from its ENIs and
    instances, run the per-resource handlers over it, and report the usage, whether it drifts from
    the provider's available count, and the theoretical maximum with everything scaled out. The
    records every cloud call would return are inputs; printing is not modelled. */
module SubnetUsage {
  import opened Wrappers
  import opened AddressSpace
  import opened SubnetQuery
  import opened Sums
  import opened Holders
  import opened ElbHandler
  import opened NlbHandler
  import opened AsgHandler
  import opened Dicts
  import opened EksHandler

  /** What the cloud holds for the run. `enis`, `byInterfaceSubnet` and `bySubnet` are the
      listings for the subnet that is found: its ENIs, and the instances filtered by interface
      subnet and by subnet id. `enisWithDescription(d)` is how many ENIs of the subnet have the
      description `d`. `loadBalancers` and `describeTagged` are what the load-balancer listing and
      the instance lookup by ids delivered before they returned or raised ClientError. */
  datatype Cloud = Cloud(
    describeSubnets: Lookup -> Described,
    enis: seq<Eni>,
    byInterfaceSubnet: seq<Instance>,
    bySubnet: seq<Instance>,
    enisWithDescription: string -> nat,
    loadBalancers: seq<LoadBalancer>,
    asgs: seq<Asg>,
    describeTagged: set<string> -> seq<TaggedInstance>)

  datatype NlbSummary = NlbSummary(count: nat, curr: nat, max: nat, details: seq<NlbDetail>)

  datatype EksSummary = EksSummary(count: nat, groups: Dict<seq<EksEntry>>)

  /** The figures the run prints. Variant A only lists load balancers and node groups, so it has
      no NLB or EKS figures. */
  datatype Report = Report(
    subnet: Subnet,
    usable: nat,
    instances: AddressMap,
    used: AddressMap,
    elbCount: nat,
    elbCurr: int,
    elbMax: nat,
    nlb: Option<NlbSummary>,
    asg: AsgTotals,
    eks: Option<EksSummary>,
    drift: bool,
    totalMax: int)

  /** The NLB figures: variant B's `_handle_nlbs`; variant A only lists. */
  function NlbPart(variant: Variant, used: AddressMap, subnetId: string, lbs: seq<LoadBalancer>, showTags: bool)
    : Option<NlbSummary>
  {
    if variant == VariantA then None
    else
      var t := Scan(used, lbs, subnetId, showTags);
      Some(NlbSummary(|t.arns|, t.curr, t.max, t.details))
  }

  /** The EKS figures: variant B's `_handle_eks`; variant A only lists node groups. */
  function EksPart(variant: Variant, instMap: AddressMap, describeTagged: set<string> -> seq<TaggedInstance>, showTags: bool)
    : Option<EksSummary>
  {
    if variant == VariantA then None
    else if Candidates(instMap) == {} then Some(EksSummary(0, Empty()))
    else
      var records := describeTagged(Candidates(instMap));
      Some(EksSummary(CountNamed(Labels(records)), GroupBy(Labels(records), EksHandler.Entries(records, showTags))))
  }

  /** The addresses that go into the total for one optional NLB summary. */
  function NlbMax(nlb: Option<NlbSummary>): nat {
    if nlb.Some? then nlb.value.max else 0
  }

  /** The report once the subnet and both maps are known. */
  ghost function Tally(variant: Variant, subnet: Subnet, eniMap: AddressMap, instMap: AddressMap, cloud: Cloud, showTags: bool)
    : Report
  {
    var used := Merge(eniMap, instMap);
    var pool := UsablePool(subnet.network);
    var names := ElbNames(used);
    var nlb := NlbPart(variant, used, subnet.subnetId, cloud.loadBalancers, showTags);
    var asg := Totals(variant, cloud.asgs, subnet.subnetId, instMap.Values);
    Report(subnet, |pool|, instMap, used, |names|, ElbEnis(names, cloud.enisWithDescription),
      ElbMaxIps * |names|, nlb, asg, EksPart(variant, instMap, cloud.describeTagged, showTags),
      |used| != |pool| - subnet.availableIpCount, |used| + ElbMaxIps * |names| + NlbMax(nlb) + asg.max)
  }

  /** The whole run: a fatal condition, or the report. */
  ghost function Usage(variant: Variant, query: string, cloud: Cloud, showTags: bool): Result<Report, Fatal> {
    match FindSubnet(variant, query, cloud.describeSubnets)
    case Err(e) => Err(e)
    case Ok(subnet) =>
      match InstanceMap(variant, cloud.byInterfaceSubnet, cloud.bySubnet, UsablePool(subnet.network))
      case Err(e) => Err(e)
      case Ok(instMap) => Ok(Tally(variant, subnet, EniMap(cloud.enis), instMap, cloud, showTags))
  }

  /** `show_subnet_usage`, calling each handler in the order the source does. */
  method ShowSubnetUsage(variant: Variant, query: string, cloud: Cloud, showTags: bool) returns (r: Result<Report, Fatal>)
    ensures r == Usage(variant, query, cloud, showTags)
  {
    var found := FindSubnet(variant, query, cloud.describeSubnets);
    if found.Err? {
      return Err(found.error);
    }
    var subnet := found.value;
    var pool := UsablePool(subnet.network);
    var eniMap := FindUsedEni(cloud.enis);
    var instances := FindUsedInstances(variant, cloud.byInterfaceSubnet, cloud.bySubnet, pool);
    if instances.Err? {
      return Err(instances.error);
    }
    var report := Summarise(variant, subnet, eniMap, instances.value, cloud, showTags);
    r := Ok(report);
  }

  /** The handlers of `show_subnet_usage` once both maps are built, and the final figures. */
  method Summarise(variant: Variant, subnet: Subnet, eniMap: AddressMap, instMap: AddressMap, cloud: Cloud, showTags: bool)
    returns (r: Report)
    ensures r == Tally(variant, subnet, eniMap, instMap, cloud, showTags)
  {
    var pool := UsablePool(subnet.network);
    var used := Merge(eniMap, instMap);
    var elbCount, elbCurr, elbMax := HandleElbs(used, cloud.enisWithDescription);
    var nlb := RunNlbs(variant, used, subnet.subnetId, cloud.loadBalancers, showTags);
    var asgCount, asgCurr, asgMax := HandleAsgs(variant, cloud.asgs, subnet.subnetId, instMap.Values);
    var eks := RunEks(variant, instMap, cloud.describeTagged, showTags);
    var drift := |used| != |pool| - subnet.availableIpCount;
    r := Report(subnet, |pool|, instMap, used, elbCount, elbCurr, elbMax, nlb,
      AsgTotals(asgCount, asgCurr, asgMax), eks, drift, |used| + elbMax + NlbMax(nlb) + asgMax);
  }

  /** The NLB step of `show_subnet_usage`. */
  method RunNlbs(variant: Variant, used: AddressMap, subnetId: string, lbs: seq<LoadBalancer>, showTags: bool)
    returns (nlb: Option<NlbSummary>)
    ensures nlb == NlbPart(variant, used, subnetId, lbs, showTags)
  {
    nlb := None;
    if variant == VariantB {
      var count, curr, max, details := HandleNlbs(used, subnetId, lbs, showTags);
      nlb := Some(NlbSummary(count, curr, max, details));
    }
  }

  /** The EKS step of `show_subnet_usage`. */
  method RunEks(variant: Variant, instMap: AddressMap, describeTagged: set<string> -> seq<TaggedInstance>, showTags: bool)
    returns (eks: Option<EksSummary>)
    ensures eks == EksPart(variant, instMap, describeTagged, showTags)
  {
    eks := None;
    if variant == VariantB {
      var count, groups := HandleEks(instMap, describeTagged, showTags);
      eks := Some(EksSummary(count, groups));
    }
  }

  /** The run ends without a report exactly when the subnet is not found or, in variant B, an
      instance record of either listing lacks a private address. */
  lemma UsageFails(variant: Variant, query: string, cloud: Cloud, showTags: bool)
    ensures Usage(variant, query, cloud, showTags).Err? <==>
      FindSubnet(variant, query, cloud.describeSubnets).Err?
      || (variant == VariantB
          && ((exists i :: 0 <= i < |cloud.byInterfaceSubnet| && cloud.byInterfaceSubnet[i].privateIp.None?)
              || (exists i :: 0 <= i < |cloud.bySubnet| && cloud.bySubnet[i].privateIp.None?)))
  {
    var found := FindSubnet(variant, query, cloud.describeSubnets);
    if found.Ok? && variant == VariantB {
      var pool := UsablePool(found.value.network);
      PassBFails(map[], cloud.byInterfaceSubnet, pool);
      var first := PassB(map[], cloud.byInterfaceSubnet, pool);
      if first.Ok? {
        PassBFails(first.value, cloud.bySubnet, pool);
      }
    }
  }

  /** What a report says: the subnet is the one found, the instance map is the one the listings
      build, the in-use map is the ENI map overwritten by it, the drift warning fires exactly when
      the in-use count and the provider's available count do not add up to the pool, every
      name-derived figure comes from the map, and the total adds the in-use addresses, 8 per
      classic/application load balancer, 8 per network load balancer in variant B, and the ASG
      allowance (headroom above the current members in variant B). */
  lemma ReportFigures(variant: Variant, query: string, cloud: Cloud, showTags: bool)
    requires Usage(variant, query, cloud, showTags).Ok?
    ensures var r := Usage(variant, query, cloud, showTags).value;
      var sid := r.subnet.subnetId;
      && FindSubnet(variant, query, cloud.describeSubnets) == Ok(r.subnet)
      && r.usable == |UsablePool(r.subnet.network)|
      && InstanceMap(variant, cloud.byInterfaceSubnet, cloud.bySubnet, UsablePool(r.subnet.network)) == Ok(r.instances)
      && r.used == Merge(EniMap(cloud.enis), r.instances)
      && (r.drift <==> |r.used| + r.subnet.availableIpCount != r.usable)
      && r.elbCount == |ElbNames(r.used)| && r.elbMax == ElbMaxIps * r.elbCount
      && r.asg == Totals(variant, cloud.asgs, sid, r.instances.Values)
      && (variant == VariantA ==>
            r.nlb == None && r.eks == None && r.totalMax == |r.used| + r.elbMax + r.asg.max)
      && (variant == VariantB ==>
            r.nlb.Some? && r.eks.Some?
            && r.nlb.value.max == ElbMaxIps * |Matching(cloud.loadBalancers, sid)|
            && r.totalMax == |r.used| + r.elbMax + r.nlb.value.max
                 + Totals(VariantA, cloud.asgs, sid, r.instances.Values).max - Members(cloud.asgs, sid))
  {
    var subnet := FindSubnet(variant, query, cloud.describeSubnets).value;
    var instMap := InstanceMap(variant, cloud.byInterfaceSubnet, cloud.bySubnet, UsablePool(subnet.network)).value;
    assert Usage(variant, query, cloud, showTags).value == Tally(variant, subnet, EniMap(cloud.enis), instMap, cloud, showTags);
    TallyFigures(variant, subnet, EniMap(cloud.enis), instMap, cloud, showTags);
  }

  /** The figures of a report in terms of the subnet and the two maps. */
  lemma TallyFigures(variant: Variant, subnet: Subnet, eniMap: AddressMap, instMap: AddressMap, cloud: Cloud, showTags: bool)
    ensures var r := Tally(variant, subnet, eniMap, instMap, cloud, showTags);
      var sid := subnet.subnetId;
      && r.subnet == subnet && r.instances == instMap
      && r.usable == |UsablePool(subnet.network)|
      && r.used == Merge(eniMap, instMap)
      && (r.drift <==> |r.used| + subnet.availableIpCount != r.usable)
      && r.elbCount == |ElbNames(r.used)| && r.elbMax == ElbMaxIps * r.elbCount
      && r.asg == Totals(variant, cloud.asgs, sid, instMap.Values)
      && (variant == VariantA ==>
            r.nlb == None && r.eks == None && r.totalMax == |r.used| + r.elbMax + r.asg.max)
      && (variant == VariantB ==>
            r.nlb.Some? && r.eks.Some?
            && r.nlb.value.max == ElbMaxIps * |Matching(cloud.loadBalancers, sid)|
            && r.totalMax == |r.used| + r.elbMax + r.nlb.value.max
                 + Totals(VariantA, cloud.asgs, sid, instMap.Values).max - Members(cloud.asgs, sid))
  {
    HeadroomIsMaxLessMembers(cloud.asgs, subnet.subnetId, instMap.Values);
  }

  /** Every private address of every ENI of the subnet is in the in-use map. */
  lemma EveryEniAddressIsUsed(variant: Variant, query: string, cloud: Cloud, showTags: bool, e: Eni, a: Addr)
    requires Usage(variant, query, cloud, showTags).Ok?
    requires e in cloud.enis && a in e.privateIps
    ensures a in Usage(variant, query, cloud, showTags).value.used
  {
    var i :| 0 <= i < |cloud.enis| && cloud.enis[i] == e;
    EniMapHolder(cloud.enis, a);
  }

  /** The EKS count of variant B is the number of entries in the cluster lists. */
  lemma EksCountIsListedEntries(query: string, cloud: Cloud, showTags: bool)
    requires Usage(VariantB, query, cloud, showTags).Ok?
    ensures var eks := Usage(VariantB, query, cloud, showTags).value.eks;
      eks.Some? && Valid(eks.value.groups) && eks.value.count == TotalLength(eks.value.groups)
  {
    var r := Usage(VariantB, query, cloud, showTags).value;
    if Candidates(r.instances) != {} {
      var records := cloud.describeTagged(Candidates(r.instances));
      GroupByCount(Labels(records), EksHandler.Entries(records, showTags));
    }
  }

  /** For a /24 the warning fires exactly when the in-use and available counts miss 251. */
  lemma DriftForSlashTwentyFour(variant: Variant, query: string, cloud: Cloud, showTags: bool)
    requires Usage(variant, query, cloud, showTags).Ok?
    requires Usage(variant, query, cloud, showTags).value.subnet.network.prefix == 24
    ensures var r := Usage(variant, query, cloud, showTags).value;
      r.drift <==> |r.used| + r.subnet.availableIpCount != 251
  {
    var r := Usage(variant, query, cloud, showTags).value;
    PoolSizeForSlash24(r.subnet.network.first);
  }
}
