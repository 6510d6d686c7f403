/** `_handle_elbs`: the Classic/Application load balancers of the subnet are recognised by the
    ENI descriptors in the address map; each one found is allowed `ElbMaxIps` addresses. */
module ElbHandler {
  import opened Wrappers
  import opened PyStr
  import opened Patterns
  import opened Holders
  import opened Sums

  /** `ELB_MAX_IPS`: the addresses a load balancer may grow to in one subnet. */
  const ElbMaxIps: nat := 8

  /** The names captured by ENI_ELB_RE over the values of the address map. */
  function ElbNames(used: AddressMap): set<string> {
    set a | a in used && ElbCapture(used[a]).Some? :: ElbCapture(used[a]).value
  }

  /** The names captured among the entries for the addresses in `done`. */
  function NamesAmong(used: AddressMap, done: set<AddressSpace.Addr>): set<string> {
    set a | a in used && a in done && ElbCapture(used[a]).Some? :: ElbCapture(used[a]).value
  }

  /** The first loop of `_handle_elbs`: `elbnames.add(m.group(1))` for every matching value. */
  method CollectElbNames(used: AddressMap) returns (names: set<string>)
    ensures names == ElbNames(used)
  {
    names := {};
    var rest := used.Keys;
    while rest != {}
      invariant rest <= used.Keys
      invariant names == NamesAmong(used, used.Keys - rest)
      decreases |rest|
    {
      var a :| a in rest;
      ghost var done := used.Keys - rest;
      assert used.Keys - (rest - {a}) == done + {a};
      var m := ElbCapture(used[a]);
      if m.Some? {
        assert NamesAmong(used, done + {a}) == NamesAmong(used, done) + {m.value};
        names := names + {m.value};
      } else {
        assert NamesAmong(used, done + {a}) == NamesAmong(used, done);
      }
      rest := rest - {a};
    }
    assert used.Keys - rest == used.Keys;
    assert NamesAmong(used, used.Keys) == ElbNames(used);
  }

  /** The number of ENIs described "ELB <name>", as a function of the name. */
  ghost function PerName(enisWithDescription: string -> nat): string -> int {
    name => enisWithDescription("ELB " + name)
  }

  /** The ENIs described "ELB <name>" summed over the names. */
  ghost function ElbEnis(names: set<string>, enisWithDescription: string -> nat): int {
    SetSum(names, PerName(enisWithDescription))
  }

  /** The second loop of `_handle_elbs`: one description lookup and `ELB_MAX_IPS` per name. */
  method SumOverNames(names: set<string>, enisWithDescription: string -> nat) returns (curr: nat, max: nat)
    ensures curr == ElbEnis(names, enisWithDescription)
    ensures max == ElbMaxIps * |names|
  {
    curr, max := 0, 0;
    var todo := names;
    ghost var done: set<string> := {};
    while todo != {}
      invariant done + todo == names && done !! todo
      invariant curr == ElbEnis(done, enisWithDescription)
      invariant max == ElbMaxIps * |done|
      decreases |todo|
    {
      var name :| name in todo;
      curr := curr + enisWithDescription("ELB " + name);
      max := max + ElbMaxIps;
      NameStep(names, done, todo, enisWithDescription, name);
      todo := todo - {name};
      done := done + {name};
    }
  }

  /** Moving one name from the names still to visit to those visited keeps the split of the
      names and adds that name's ENIs and one share of the maximum. */
  lemma NameStep(names: set<string>, done: set<string>, todo: set<string>,
                 enisWithDescription: string -> nat, name: string)
    requires done + todo == names && done !! todo && name in todo
    ensures (done + {name}) + (todo - {name}) == names && (done + {name}) !! (todo - {name})
    ensures ElbEnis(done + {name}, enisWithDescription)
      == ElbEnis(done, enisWithDescription) + enisWithDescription("ELB " + name)
    ensures |done + {name}| == |done| + 1
  {
    SetSumAdd(done, PerName(enisWithDescription), name);
  }

  /** `_handle_elbs`: collect the names, then ask the ENI listing for "ELB <name>" in the subnet
      once per name. `enisWithDescription(d)` is the length of that listing for description `d`.
      The count is the number of names, the maximum is 8 per name whatever is in use now, and
      the current use is the sum of the listing lengths. */
  method HandleElbs(used: AddressMap, enisWithDescription: string -> nat)
    returns (count: nat, curr: nat, max: nat)
    ensures count == |ElbNames(used)|
    ensures max == ElbMaxIps * count
    ensures curr == ElbEnis(ElbNames(used), enisWithDescription)
  {
    var names := CollectElbNames(used);
    curr, max := SumOverNames(names, enisWithDescription);
    count := |names|;
  }

  /** A name is counted exactly when some descriptor of the map has the pattern's shape with
      that name as its group. */
  lemma ElbNamesArePatternCaptures(used: AddressMap, name: string)
    ensures name in ElbNames(used) <==> exists a :: a in used && ElbShape(used[a], name)
  {
    if name in ElbNames(used) {
      var a :| a in used && ElbCapture(used[a]) == Some(name);
      ElbCaptureIsPattern(used[a], name);
    }
    if exists a :: a in used && ElbShape(used[a], name) {
      var a :| a in used && ElbShape(used[a], name);
      ElbCaptureIsPattern(used[a], name);
    }
  }

  /** A network load balancer's ENI ("ELB net/<name>/<id>") is counted here too, under the name
      "net/<name>/<id>": it contributes to both the Classic/ALB and the NLB maximum. */
  lemma NetworkEniCountedAsElb(used: AddressMap, a: AddressSpace.Addr, h: string, rest: string)
    requires a in used && used[a] == "eni-" + h + " / ELB net/" + rest
    requires |h| > 0 && All(h, IsLowerHexDigit) && '\n' !in rest
    ensures "net/" + rest in ElbNames(used)
  {
    NetworkEniCapturedAsElbName(h, rest);
  }

  /** Instance entries never name a load balancer: a holder that starts "i-" is not captured. */
  lemma InstanceHoldersNeverCaptured(holder: string)
    requires StartsWith(holder, "i-")
    ensures ElbCapture(holder) == None
  {
    assert holder[1] == '-';
  }
}
