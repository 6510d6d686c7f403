/** `_handle_asgs`: the Auto Scaling groups that list the subnet in their VPC zone identifier.
    Variant B allows each group its headroom `MaxSize - len(Instances)`; variant A allows it
    `MaxSize` whole. */
module AsgHandler {
  import opened PyStr
  import opened SubnetQuery

  /** An Auto Scaling group record; `instanceIds` are the ids of its `Instances` entries. */
  datatype Asg = Asg(name: string, vpcZoneIdentifier: string, instanceIds: seq<string>, maxSize: int)

  datatype AsgTotals = AsgTotals(count: nat, curr: nat, max: int)

  /** `subnet_id in asg['VPCZoneIdentifier'].split(',')`: exact comparison, no trimming. */
  predicate UsesSubnet(asg: Asg, subnetId: string) {
    subnetId in Split(asg.vpcZoneIdentifier, ',')
  }

  /** How many of `ids` are among the instance-map holders (`in ec2_ip_to_id.values()`). */
  function Present(ids: seq<string>, holders: set<string>): (n: nat)
    ensures n <= |ids|
    decreases |ids|
  {
    if |ids| == 0 then 0
    else Present(ids[..|ids| - 1], holders) + (if ids[|ids| - 1] in holders then 1 else 0)
  }

  /** What one included group adds to the maximum. */
  function Allowance(variant: Variant, asg: Asg): int {
    if variant == VariantA then asg.maxSize else asg.maxSize - |asg.instanceIds|
  }

  /** The totals over a list of groups. */
  function Totals(variant: Variant, asgs: seq<Asg>, subnetId: string, holders: set<string>): AsgTotals
    decreases |asgs|
  {
    if |asgs| == 0 then AsgTotals(0, 0, 0)
    else
      var t := Totals(variant, asgs[1..], subnetId, holders);
      var asg := asgs[0];
      if !UsesSubnet(asg, subnetId) then t
      else AsgTotals(t.count + 1, t.curr + Present(asg.instanceIds, holders), t.max + Allowance(variant, asg))
  }

  /** The sizes of the `Instances` lists of the included groups. */
  function Members(asgs: seq<Asg>, subnetId: string): nat
    decreases |asgs|
  {
    if |asgs| == 0 then 0
    else Members(asgs[1..], subnetId) + (if UsesSubnet(asgs[0], subnetId) then |asgs[0].instanceIds| else 0)
  }

  /** `_handle_asgs`, with the membership loop over each group's instances. */
  method HandleAsgs(variant: Variant, asgs: seq<Asg>, subnetId: string, holders: set<string>)
    returns (count: nat, curr: nat, max: int)
    ensures AsgTotals(count, curr, max) == Totals(variant, asgs, subnetId, holders)
  {
    count, curr, max := 0, 0, 0;
    for i := 0 to |asgs|
      invariant var rest := Totals(variant, asgs[i..], subnetId, holders);
        var all := Totals(variant, asgs, subnetId, holders);
        count + rest.count == all.count && curr + rest.curr == all.curr && max + rest.max == all.max
    {
      var asg := asgs[i];
      assert asgs[i..][1..] == asgs[i + 1..];
      var subnets := Split(asg.vpcZoneIdentifier, ',');
      if subnetId !in subnets {
        continue;
      }
      ghost var before := curr;
      for k := 0 to |asg.instanceIds|
        invariant curr == before + Present(asg.instanceIds[..k], holders)
      {
        assert asg.instanceIds[..k + 1][..k] == asg.instanceIds[..k];
        if asg.instanceIds[k] in holders {
          curr := curr + 1;
        }
      }
      assert asg.instanceIds[..|asg.instanceIds|] == asg.instanceIds;
      max := max + (if variant == VariantA then asg.maxSize else asg.maxSize - |asg.instanceIds|);
      count := count + 1;
    }
    assert asgs[|asgs|..] == [];
  }

  /** The variants agree on the count and current use; variant B's maximum is variant A's less
      the instances the included groups already have. */
  lemma {:induction false} HeadroomIsMaxLessMembers(asgs: seq<Asg>, subnetId: string, holders: set<string>)
    ensures var a, b := Totals(VariantA, asgs, subnetId, holders), Totals(VariantB, asgs, subnetId, holders);
      a.count == b.count && a.curr == b.curr && b.max == a.max - Members(asgs, subnetId)
    decreases |asgs|
  {
    if |asgs| > 0 {
      HeadroomIsMaxLessMembers(asgs[1..], subnetId, holders);
    }
  }

  /** The current use never exceeds the instances the included groups list. */
  lemma {:induction false} CurrentAtMostMembers(variant: Variant, asgs: seq<Asg>, subnetId: string, holders: set<string>)
    ensures Totals(variant, asgs, subnetId, holders).curr <= Members(asgs, subnetId)
    ensures Totals(variant, asgs, subnetId, holders).count <= |asgs|
    decreases |asgs|
  {
    if |asgs| > 0 {
      CurrentAtMostMembers(variant, asgs[1..], subnetId, holders);
    }
  }

  /** The headroom is not clamped: a group above its maximum size contributes a negative amount. */
  lemma HeadroomCanBeNegative(subnetId: string, holders: set<string>)
    requires ',' !in subnetId
    ensures Totals(VariantB, [Asg("web", subnetId, ["i-1", "i-2"], 1)], subnetId, holders).max == -1
  {
    var asgs := [Asg("web", subnetId, ["i-1", "i-2"], 1)];
    SplitOfSingleField(subnetId, ',');
    assert asgs[1..] == [];
  }

  /** A group is included only for an id with no comma in it, and the ids of the identifier,
      joined back with commas, give the identifier. */
  lemma IncludedIdsAreFields(asg: Asg, subnetId: string)
    requires UsesSubnet(asg, subnetId)
    ensures ',' !in subnetId
    ensures Join(",", Split(asg.vpcZoneIdentifier, ',')) == asg.vpcZoneIdentifier
  {
    SplitFieldsLackSeparator(asg.vpcZoneIdentifier, ',');
    SplitJoin(asg.vpcZoneIdentifier, ',');
  }

  /** No trimming: with "a, b" as the identifier the second field is " b", so subnet "b" is not
      taken as used by the group. */
  lemma SpaceAfterCommaIsNotTrimmed()
    ensures !UsesSubnet(Asg("g", "a, b", [], 4), "b")
  {
    SplitOfSingleField(" b", ',');
    assert ", b"[0] == ',' && ", b"[1..] == " b";
    assert Split(", b", ',') == ["", " b"];
    assert "a, b"[0] == 'a' && "a, b"[1..] == ", b";
    assert Split("a, b", ',') == [['a'] + ""] + [" b"];
    assert ['a'] + "" == "a";
  }
}
