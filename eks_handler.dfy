/** `_handle_eks` (variant B): the instances of the instance map are looked up again with their
    tags, and each one tagged with an EKS cluster name is listed under that cluster. Records are
    those the lookup delivered; a ClientError part-way returns what was gathered so far. */
module EksHandler {
  import opened Wrappers
  import opened PyStr
  import opened Dicts
  import opened Holders

  const ClusterNameTag: string := "eks:cluster-name"
  const ClusterTagPrefix: string := "kubernetes.io/cluster/"

  /** An instance record of the lookup by id, with its `Tags` list as key/value pairs. */
  datatype TaggedInstance = TaggedInstance(instanceId: string, privateIp: Option<string>, tags: seq<(string, string)>)

  /** An element of a cluster's list: the id, the private address or "N/A", and the tags under
      `show_tags` (otherwise an empty dict). */
  datatype EksEntry = EksEntry(instanceId: string, ip: string, tags: Dict<string>)

  /** The ids sent to the lookup: the distinct holders starting "i-", cut at the first '/'. */
  function Candidates(instMap: AddressMap): set<string> {
    set a | a in instMap && StartsWith(instMap[a], "i-") :: Split(instMap[a], '/')[0]
  }

  /** There is no candidate exactly when no holder starts "i-" (ENI descriptors start "eni-"),
      and no candidate has a slash. */
  lemma CandidatesAreCutHolders(instMap: AddressMap)
    ensures Candidates(instMap) == {} <==> forall a :: a in instMap ==> !StartsWith(instMap[a], "i-")
    ensures forall id :: id in Candidates(instMap) ==> '/' !in id
  {
    var ids := Candidates(instMap);
    forall id | id in ids ensures '/' !in id {
      var a :| a in instMap && StartsWith(instMap[a], "i-") && id == Split(instMap[a], '/')[0];
      SplitFieldsLackSeparator(instMap[a], '/');
    }
    if exists a :: a in instMap && StartsWith(instMap[a], "i-") {
      var a :| a in instMap && StartsWith(instMap[a], "i-");
      assert Split(instMap[a], '/')[0] in ids;
    }
  }

  /** `'kubernetes.io/cluster/' in str(tags)`. The text of a dict of strings shows every key and
      value between quotes, and quoting and escaping never create this text, which has no quote,
      backslash or separator, so it occurs exactly when it occurs in some key or value. */
  predicate MentionsClusterTag(tags: Dict<string>) {
    exists k :: k in tags.vals && (Contains(k, ClusterTagPrefix) || Contains(tags.vals[k], ClusterTagPrefix))
  }

  /** `key.split('/')[-1]` */
  function LastSegment(key: string): string {
    var parts := Split(key, '/');
    parts[|parts| - 1]
  }

  /** The index of the first key, in insertion order, starting with the cluster-tag prefix. */
  function FirstPrefixedKey(keys: seq<string>): (r: Option<nat>)
    ensures r.Some? ==>
      r.value < |keys| && StartsWith(keys[r.value], ClusterTagPrefix)
      && forall j :: 0 <= j < r.value ==> !StartsWith(keys[j], ClusterTagPrefix)
    ensures r.None? ==> forall j :: 0 <= j < |keys| ==> !StartsWith(keys[j], ClusterTagPrefix)
    decreases |keys|
  {
    if |keys| == 0 then None
    else if StartsWith(keys[0], ClusterTagPrefix) then Some(0)
    else
      var r := FirstPrefixedKey(keys[1..]);
      if r.Some? then Some(r.value + 1) else None
  }

  /** The `cluster_name` the script settles on (`None` or a string, possibly empty). */
  function ClusterName(tags: Dict<string>): Option<string> {
    if ClusterNameTag in tags.vals then Some(tags.vals[ClusterNameTag])
    else if MentionsClusterTag(tags) then
      match FirstPrefixedKey(tags.keys)
      case Some(i) => Some(LastSegment(tags.keys[i]))
      case None => None
    else None
  }

  /** `if cluster_name:` */
  predicate Counted(name: Option<string>) {
    name.Some? && name.value != ""
  }

  /** The source's loop body for one instance, before the append: the `eks:cluster-name` tag
      first, else the `for key in tags` loop with its `break`. */
  method FindClusterName(tags: Dict<string>) returns (name: Option<string>)
    ensures name == ClusterName(tags)
  {
    name := None;
    if ClusterNameTag in tags.vals {
      name := Some(tags.vals[ClusterNameTag]);
    } else if MentionsClusterTag(tags) {
      for i := 0 to |tags.keys|
        invariant name == None
        invariant forall j :: 0 <= j < i ==> !StartsWith(tags.keys[j], ClusterTagPrefix)
      {
        if StartsWith(tags.keys[i], ClusterTagPrefix) {
          name := Some(LastSegment(tags.keys[i]));
          assert FirstPrefixedKey(tags.keys) == Some(i);
          break;
        }
      }
      if name.None? {
        assert FirstPrefixedKey(tags.keys).None?;
      }
    }
  }

  /** The `str(tags)` test never decides anything: a key starting with the prefix mentions it.
      The name is the `eks:cluster-name` value, else the last segment of the first prefixed key. */
  lemma MentionTestIsRedundant(tags: Dict<string>)
    requires Valid(tags)
    ensures ClusterName(tags) ==
      if ClusterNameTag in tags.vals then Some(tags.vals[ClusterNameTag])
      else if FirstPrefixedKey(tags.keys).Some? then Some(LastSegment(tags.keys[FirstPrefixedKey(tags.keys).value]))
      else None
  {
    var r := FirstPrefixedKey(tags.keys);
    if r.Some? {
      var k := tags.keys[r.value];
      assert OccursAt(k, ClusterTagPrefix, 0);
      assert k in tags.vals;
    }
  }

  /** A key "kubernetes.io/cluster/<name>" names the cluster `<name>` when that has no slash. */
  lemma PrefixedKeyNamesItsSuffix(name: string)
    requires '/' !in name
    ensures LastSegment(ClusterTagPrefix + name) == name
  {
    assert ClusterTagPrefix + name == "kubernetes.io/cluster" + ['/'] + name;
    SplitLastField("kubernetes.io/cluster", '/', name);
  }

  function EntryFor(inst: TaggedInstance, showTags: bool): EksEntry {
    EksEntry(inst.instanceId, inst.privateIp.GetOr("N/A"), if showTags then FromPairs(inst.tags) else Empty())
  }

  /** The cluster name of one record, from its tag dict. */
  function NameOf(inst: TaggedInstance): Option<string> {
    ClusterName(FromPairs(inst.tags))
  }

  function Labels(records: seq<TaggedInstance>): (r: seq<Option<string>>)
    ensures |r| == |records|
  {
    seq(|records|, i requires 0 <= i < |records| => NameOf(records[i]))
  }

  function Entries(records: seq<TaggedInstance>, showTags: bool): (r: seq<EksEntry>)
    ensures |r| == |records|
  {
    seq(|records|, i requires 0 <= i < |records| => EntryFor(records[i], showTags))
  }

  /** What one labelled entry does to the lists: `eks_instances[cluster_name].append(...)` when
      the name counts. */
  function AddLabelled(g: Dict<seq<EksEntry>>, tag: Option<string>, entry: EksEntry): (r: Dict<seq<EksEntry>>)
    requires Valid(g)
    ensures Valid(r)
  {
    if Counted(tag) then Append(g, tag.value, entry) else g
  }

  /** The lists built from labelled entries in order. */
  function GroupBy(labels: seq<Option<string>>, entries: seq<EksEntry>): (g: Dict<seq<EksEntry>>)
    requires |labels| == |entries|
    ensures Valid(g)
    decreases |labels|
  {
    if |labels| == 0 then Empty()
    else
      var n := |labels| - 1;
      AddLabelled(GroupBy(labels[..n], entries[..n]), labels[n], entries[n])
  }

  /** How many labels count. */
  function CountNamed(labels: seq<Option<string>>): nat
    decreases |labels|
  {
    if |labels| == 0 then 0
    else CountNamed(labels[..|labels| - 1]) + (if Counted(labels[|labels| - 1]) then 1 else 0)
  }

  /** The entries labelled `c`, in order. */
  function Select(labels: seq<Option<string>>, entries: seq<EksEntry>, c: string): seq<EksEntry>
    requires |labels| == |entries|
    decreases |labels|
  {
    if |labels| == 0 then []
    else
      var n := |labels| - 1;
      Select(labels[..n], entries[..n], c) + (if labels[n] == Some(c) then [entries[n]] else [])
  }

  /** The loop body of `_handle_eks` for one record. */
  method VisitRecord(count0: nat, groups0: Dict<seq<EksEntry>>, inst: TaggedInstance, showTags: bool)
    returns (count: nat, groups: Dict<seq<EksEntry>>)
    requires Valid(groups0) && count0 == TotalLength(groups0)
    ensures groups == AddLabelled(groups0, NameOf(inst), EntryFor(inst, showTags))
    ensures count == count0 + (if Counted(NameOf(inst)) then 1 else 0)
    ensures Valid(groups) && count == TotalLength(groups)
  {
    count, groups := count0, groups0;
    var tags := FromPairs(inst.tags);
    var clusterName := FindClusterName(tags);
    if clusterName.Some? && clusterName.value != "" {
      var entry := EksEntry(inst.instanceId, inst.privateIp.GetOr("N/A"), if showTags then tags else Empty());
      VisitNamed(count0, groups0, inst, showTags);
      count := count + 1;
      groups := Append(groups, clusterName.value, entry);
    }
  }

  /** A named record adds its entry to the list of its cluster and one to the count. */
  lemma VisitNamed(count0: nat, groups0: Dict<seq<EksEntry>>, inst: TaggedInstance, showTags: bool)
    requires Valid(groups0) && count0 == TotalLength(groups0) && Counted(NameOf(inst))
    ensures var g := Append(groups0, NameOf(inst).value, EntryFor(inst, showTags));
      g == AddLabelled(groups0, NameOf(inst), EntryFor(inst, showTags)) && count0 + 1 == TotalLength(g)
  {
    AppendAddsOne(groups0, NameOf(inst).value, EntryFor(inst, showTags));
  }

  /** `_handle_eks`. `describe(ids)` is what the lookup by those ids delivered. No candidate gives
      (0, {}) without a lookup; otherwise the lists group the delivered records by cluster name,
      the count is the number of named records, and it equals the total length of the lists. */
  method HandleEks(instMap: AddressMap, describe: set<string> -> seq<TaggedInstance>, showTags: bool)
    returns (count: nat, groups: Dict<seq<EksEntry>>)
    ensures Valid(groups) && count == TotalLength(groups)
    ensures Candidates(instMap) == {} ==> count == 0 && groups == Empty()
    ensures Candidates(instMap) != {} ==>
      var records := describe(Candidates(instMap));
      count == CountNamed(Labels(records)) && groups == GroupBy(Labels(records), Entries(records, showTags))
  {
    var ids := Candidates(instMap);
    if ids == {} {
      return 0, Empty();
    }
    var records := describe(ids);
    ghost var labels, entries := Labels(records), Entries(records, showTags);
    count, groups := 0, Empty();
    for i := 0 to |records|
      invariant count == CountNamed(labels[..i]) && groups == GroupBy(labels[..i], entries[..i])
      invariant Valid(groups) && count == TotalLength(groups)
    {
      count, groups := VisitRecord(count, groups, records[i], showTags);
      GroupByStep(labels, entries, i);
      assert labels[i] == NameOf(records[i]) && entries[i] == EntryFor(records[i], showTags);
    }
    assert labels[..|records|] == labels && entries[..|records|] == entries;
  }

  /** One more labelled entry extends the grouping and the count by that entry. */
  lemma GroupByStep(labels: seq<Option<string>>, entries: seq<EksEntry>, i: nat)
    requires |labels| == |entries| && i < |labels|
    ensures GroupBy(labels[..i + 1], entries[..i + 1]) == AddLabelled(GroupBy(labels[..i], entries[..i]), labels[i], entries[i])
    ensures CountNamed(labels[..i + 1]) == CountNamed(labels[..i]) + (if Counted(labels[i]) then 1 else 0)
  {
    assert labels[..i + 1][..i] == labels[..i] && entries[..i + 1][..i] == entries[..i];
  }

  /** A cluster is listed exactly when some record is labelled with it; its list holds exactly
      the entries labelled with it, in order, and is never empty. */
  lemma {:induction false} GroupByIsSelection(labels: seq<Option<string>>, entries: seq<EksEntry>, c: string)
    requires |labels| == |entries|
    ensures c in GroupBy(labels, entries).vals <==> c != "" && exists i :: 0 <= i < |labels| && labels[i] == Some(c)
    ensures c in GroupBy(labels, entries).vals ==>
      GroupBy(labels, entries).vals[c] == Select(labels, entries, c) && |Select(labels, entries, c)| > 0
    decreases |labels|
  {
    if |labels| > 0 {
      var n := |labels| - 1;
      var init := labels[..n];
      GroupByIsSelection(init, entries[..n], c);
      if exists i :: 0 <= i < |labels| && labels[i] == Some(c) {
        var i :| 0 <= i < |labels| && labels[i] == Some(c);
        if i < n {
          assert init[i] == labels[i];
        }
      }
      if exists i :: 0 <= i < |init| && init[i] == Some(c) {
        var i :| 0 <= i < |init| && init[i] == Some(c);
        assert labels[i] == init[i];
      }
      if c != "" && c !in GroupBy(init, entries[..n]).vals {
        SelectEmpty(init, entries[..n], c);
      }
    }
  }

  /** Every named record adds one entry to one list, so the count printed is the total length of
      the lists. */
  lemma {:induction false} GroupByCount(labels: seq<Option<string>>, entries: seq<EksEntry>)
    requires |labels| == |entries|
    ensures TotalLength(GroupBy(labels, entries)) == CountNamed(labels)
    decreases |labels|
  {
    if |labels| > 0 {
      var n := |labels| - 1;
      GroupByCount(labels[..n], entries[..n]);
      if Counted(labels[n]) {
        AppendAddsOne(GroupBy(labels[..n], entries[..n]), labels[n].value, entries[n]);
      }
    }
  }

  /** No label `c` selects nothing. */
  lemma {:induction false} SelectEmpty(labels: seq<Option<string>>, entries: seq<EksEntry>, c: string)
    requires |labels| == |entries|
    requires forall i :: 0 <= i < |labels| ==> labels[i] != Some(c)
    ensures Select(labels, entries, c) == []
    decreases |labels|
  {
    if |labels| > 0 {
      var n := |labels| - 1;
      assert forall i :: 0 <= i < n ==> labels[..n][i] == labels[i];
      SelectEmpty(labels[..n], entries[..n], c);
    }
  }
}
