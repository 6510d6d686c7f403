/** `_find_subnet` and `_find_classic_subnet`: the query is classified by two patterns, tried in
    order, and the subnet lookup must then find a subnet. The two script variants differ when
    the lookup fails or finds several subnets. */
module SubnetQuery {
  import opened Wrappers
  import opened Patterns
  import AddressSpace

  /** Which of the two script variants is modelled: A (the first, shorter class) or B (the
      fuller one, with NLB and EKS handling and ASG headroom). */
  datatype Variant = VariantA | VariantB

  datatype QueryKind = SubnetIdQuery | CidrQuery | Unrecognised

  /** The pattern dispatch: the subnet-id pattern is tried first, then the CIDR one. */
  function Classify(q: string): QueryKind {
    if IsSubnetId(q) then SubnetIdQuery
    else if IsCidrBlock(q) then CidrQuery
    else Unrecognised
  }

  /** The dispatch agrees with the patterns themselves: an id is whatever the id pattern accepts,
      a CIDR query whatever the CIDR pattern accepts that is not an id, and nothing else is
      looked up. */
  lemma ClassifyFollowsPatterns(q: string)
    ensures Classify(q) == SubnetIdQuery <==> SubnetIdShape(q)
    ensures Classify(q) == CidrQuery <==> !SubnetIdShape(q) && CidrShape(q)
    ensures Classify(q) == Unrecognised <==> !SubnetIdShape(q) && !CidrShape(q)
  {
    SubnetIdMatcherIsPattern(q);
    CidrMatcherIsPattern(q);
  }

  /** The CIDR pattern has no end anchor and checks no ranges: a query with octets above 255, a
      prefix of 99 and trailing text is still looked up as a CIDR block. */
  lemma CidrPatternIsLoose()
    ensures Classify("999.1.1.1/99x") == CidrQuery
  {
    var q := "999.1.1.1/99x";
    assert !IsSubnetId(q) by { assert q[0] != 's'; }
    assert FieldSpan(q, 0, 4, '.') && FieldSpan(q, 4, 6, '.') && FieldSpan(q, 6, 8, '.')
      && FieldSpan(q, 8, 10, '/') && IsDigit(q[10]);
    CidrMatcherIsPattern(q);
  }

  /** A subnet as `describe_subnets` reports it. */
  datatype Subnet = Subnet(
    subnetId: string,
    network: AddressSpace.Block,
    availabilityZone: string,
    availableIpCount: int)

  /** The two lookups `describe_subnets` is asked for. */
  datatype Lookup = BySubnetId(subnetId: string) | ByCidrBlock(cidrBlock: string)

  /** What `describe_subnets` answers: a list of subnets, or a ClientError. */
  datatype Described = Subnets(subnets: seq<Subnet>) | ClientError

  /** The conditions that end the run before any report is printed. */
  datatype Fatal =
    | InvalidIdentifier(query: string)   // neither pattern matches
    | NotFound                           // the lookup found no subnet
    | Ambiguous(count: nat)              // variant B: the lookup found several subnets
    | NoMatchingSubnet                   // variant B: the lookup raised ClientError
    | LookupRaised                       // variant A: ClientError is not caught
    | InstanceWithoutPrivateAddress(instanceId: string)  // variant B: `inst['PrivateIpAddress']` raises KeyError

  /** The lookup `_find_subnet` sends for a recognised query. */
  function LookupFor(q: string): Lookup {
    if Classify(q) == SubnetIdQuery then BySubnetId(q) else ByCidrBlock(q)
  }

  /** `_find_subnet`: classify the query, send the matching lookup, and accept its answer. Variant
      B demands exactly one subnet and turns a ClientError into "no matching subnets"; variant A
      takes the first of several and lets a ClientError escape. */
  function FindSubnet(variant: Variant, q: string, describe: Lookup -> Described): (r: Result<Subnet, Fatal>)
    ensures Classify(q) == Unrecognised <==> r == Err(InvalidIdentifier(q))
    ensures r.Ok? ==> (Classify(q) != Unrecognised
      && var answer := describe(LookupFor(q));
         answer.Subnets? && |answer.subnets| >= 1 && r.value == answer.subnets[0])
    ensures variant == VariantB && Classify(q) != Unrecognised ==>
      var answer := describe(LookupFor(q));
      (answer.Subnets? && |answer.subnets| == 1 <==> r.Ok?)
    ensures variant == VariantA && Classify(q) != Unrecognised ==>
      var answer := describe(LookupFor(q));
      (answer.Subnets? && |answer.subnets| >= 1 <==> r.Ok?)
    ensures Classify(q) != Unrecognised && describe(LookupFor(q)).ClientError? ==>
      r == Err(if variant == VariantB then NoMatchingSubnet else LookupRaised)
    ensures Classify(q) != Unrecognised && describe(LookupFor(q)) == Subnets([]) ==> r == Err(NotFound)
    ensures variant == VariantB && Classify(q) != Unrecognised ==>
      var answer := describe(LookupFor(q));
      (answer.Subnets? && |answer.subnets| > 1 ==> r == Err(Ambiguous(|answer.subnets|)))
  {
    match Classify(q)
    case Unrecognised => Err(InvalidIdentifier(q))
    case SubnetIdQuery => Accept(variant, describe(BySubnetId(q)))
    case CidrQuery => Accept(variant, describe(ByCidrBlock(q)))
  }

  /** `_find_classic_subnet` (B) and the tail of `_find_subnet` (A). */
  function Accept(variant: Variant, answer: Described): Result<Subnet, Fatal> {
    match answer
    case ClientError => if variant == VariantB then Err(NoMatchingSubnet) else Err(LookupRaised)
    case Subnets(list) =>
      if |list| < 1 then Err(NotFound)
      else if |list| > 1 && variant == VariantB then Err(Ambiguous(|list|))
      else Ok(list[0])
  }
}
