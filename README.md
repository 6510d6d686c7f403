# Subnet IP usage and folder comparison, modelled in Dafny

This project models two groups of scripts from a DevOps toolbox.

**Subnet IP usage (`aws_subnet_usage.py`).** For one subnet, the script finds:

- which addresses are in use, and by whom;
- how many addresses Classic/Application load balancers, network load balancers, auto-scaling
  groups and EKS nodes use now;
- how many they could use once fully scaled.

The file holds two versions of the `AWSIPUsage` class. The later one (variant B) is the reference.
The earlier one (variant A) differs in five places, selected by a `Variant` flag:

- the instance map comes from one subnet-id pass that maps every present private address to the
  bare instance id, in the pool or not, where variant B runs two passes with the
  private/public/interface precedence and fails on a record without a private address;
- the ASG maximum is the absolute `MaxSize`, not the headroom;
- the theoretical total leaves out network load balancers;
- several matching subnets give the first one instead of an error;
- a lookup failure is not caught.

Every cloud call becomes an input: ENI, instance, ASG and load-balancer records as sequences, the
subnet lookup and the per-name ENI lookup of `_handle_elbs` as functions. Where a `ClientError`
stops a listing part-way and the script keeps what it has, the input is the records delivered
before the error. Each regular expression is an explicit matcher, with a lemma that it accepts
exactly the strings the pattern describes (with `$` allowing one final newline).

**Folder comparison (`compare-files/*.py`, `folder-compare.py`).** These are the pure text and
counting helpers of five scripts:

- sanitising text for CSV;
- detecting binary chunks;
- accumulating `SequenceMatcher` opcodes;
- fixed-width side-by-side rows;
- the walk over `Differ` output;
- bucketing unified-diff lines by prefix;
- colouring diff lines and stripping ANSI escape codes (ECMA-48 sections 5.3 and 5.4);
- the per-file status and totals of the tabular summary;
- grouping paths by directory;
- the recursive collection over a directory-comparison tree;
- the sorted-union dispatch of `folder-compare.py`. With `-m` and `-u` or `-n`, `compare_files`
  returns a generator and `print(diff[0])` raises a `TypeError`: the run ends right after the
  heading of the first key present on both sides. The model ends the transcript there.

Outputs of `difflib`, `filecmp` and `os.walk` are inputs.

Modules:

- `AddressSpace`, `Patterns`, `SubnetQuery`, `Holders`, `ElbHandler`, `AsgHandler`, `NlbHandler`,
  `EksHandler` and `SubnetUsage` cover the subnet script.
- `GitDiffs`, `GitDiff`, `FolderDiffs`, `CompareDirs` and `FolderCompare` cover one comparison script
  each.
- `DiffLines`, `Ansi`, `DirWalk` and `Ordering` hold what several of those scripts share.
- `PyStr`, `Seqs`, `Sums`, `Dicts` and `Wrappers` hold Python's string, slice and dict semantics and
  small library lemmas. `Dicts` is an insertion-ordered dictionary.

In `_handle_elbs`, the script applies only `ENI_ELB_RE`, which also captures `ELB net/<name>/<id>`
descriptors, as the name `net/<name>/<id>`. `ENI_NLB_RE` is used only for logging and never matches
a map value (`ElbHandler.NetworkEniCountedAsElb`, `Patterns.NlbPatternMissesEniDescriptors`).

## Model

| member | source | states |
|---|---|---|
| AddressSpace.Addresses | aws_subnet_usage.py:668 | `list(net)` of a valid block has 2^(32-prefix) addresses |
| AddressSpace.UsablePool | aws_subnet_usage.py:665-669 | the pool `net[4:-1]` is network+4 up to broadcast-1 in ascending order, so it has max(0, size-5) addresses |
| AddressSpace.InPoolIff | aws_subnet_usage.py:206-209 | an address is in the pool iff first+4 <= a < first+size-1 |
| AddressSpace.PoolSizeForSlash24 | aws_subnet_usage.py:665-669 | a /24 gives 251 usable addresses |
| Patterns.SubnetIdMatcherIsPattern | aws_subnet_usage.py:673 | the id matcher accepts exactly "subnet-" + one or more hex digits, optionally followed by one final newline |
| Patterns.FieldIsSpan | aws_subnet_usage.py:675 | one `\d{1,3}` group plus separator succeeds at the index after the separator iff one to three digits are followed by it |
| Patterns.CidrMatcherIsPattern | aws_subnet_usage.py:675 | the CIDR matcher accepts exactly four dot-separated 1-3 digit groups, a slash and a digit, with anything after (no end anchor) |
| Patterns.ElbCaptureOfParts | aws_subnet_usage.py:300 | "eni-" + lower-hex + " / ELB " + name (+ optional newline) is matched with `name` captured |
| Patterns.ElbCaptureSound | aws_subnet_usage.py:300 | every capture comes from a descriptor of that shape |
| Patterns.ElbCaptureIsPattern | aws_subnet_usage.py:300 | `ENI_ELB_RE` captures `name` iff the descriptor has the pattern's shape with that name |
| Patterns.NetworkEniCapturedAsElbName | aws_subnet_usage.py:300-301 | an "eni-… / ELB net/x/y" descriptor is captured by the ELB pattern as "net/x/y" |
| Patterns.NlbCapture | aws_subnet_usage.py:301 | `ENI_NLB_RE` matches only text starting "ELB net/" |
| Patterns.NlbCaptureIsPattern | aws_subnet_usage.py:301 | `ENI_NLB_RE` captures `g` iff the text is "ELB net/", a non-empty slash-free `g`, "/", and one line with at most one final newline |
| Patterns.NlbPatternMissesEniDescriptors | aws_subnet_usage.py:435-439 | the NLB pattern never matches an "<eni-id> / <description>" value of the address map |
| SubnetQuery.ClassifyFollowsPatterns | aws_subnet_usage.py:671-681 | the id pattern is tried first, then the CIDR pattern; anything matching neither is rejected (all three as iffs) |
| SubnetQuery.CidrPatternIsLoose | aws_subnet_usage.py:675 | "999.1.1.1/99x" is looked up as a CIDR block |
| SubnetQuery.FindSubnet | aws_subnet_usage.py:671-718 | an unrecognised query fails with the invalid-identifier error; success returns the first subnet of the lookup its class selects; variant B succeeds iff the answer is exactly one subnet, variant A iff it is non-empty; no subnet gives NotFound, several give Ambiguous(n) in B, a ClientError gives NoMatchingSubnet in B and LookupRaised in A |
| Holders.FindUsedEni | aws_subnet_usage.py:607-618 | the loop builds the ENI map of the records |
| Holders.EniMapHolder | aws_subnet_usage.py:614-617 | an address is in the ENI map iff some ENI lists it, and it maps to "<id> / <description>" of the last ENI that lists it |
| Holders.Claim | aws_subnet_usage.py:634-643 | a private address in the pool maps to the bare id, else a public address in the pool does, else an interface address in the pool makes the private address map to "id/<NetworkInterfaceId or 0>"; otherwise nothing (iff) |
| Holders.RunPassB | aws_subnet_usage.py:632-643 | one variant-B pass over the records equals the functional pass, including its failure on a record without a private address |
| Holders.RunPassA | aws_subnet_usage.py:194-204 | the loop equals variant A's pass `PassA`, which `Holders.PassAHolds` characterises |
| Holders.PassAHolds | aws_subnet_usage.py:199-203 | after variant A's pass a key is present iff it was before or some record has it as its private address (in the pool or not); it holds the id of the last such record, and keeps the old value when no record names it |
| Holders.FindUsedInstances | aws_subnet_usage.py:620-663 | variant B runs the interface-subnet pass, then the subnet-id pass on top of it; variant A runs the subnet-id pass alone |
| Holders.PassBFails | aws_subnet_usage.py:635 | a pass fails iff some record lacks a private address, with the error naming the first such record |
| Holders.PassBOverwrites | aws_subnet_usage.py:651-663 | after a pass a key is present iff it was present before or some record claims it; it holds the claim of the last record that claims it, and keeps the old value when no record claims it |
| Holders.Merge | aws_subnet_usage.py:337-345 | the used map's keys are the union of both maps; instance entries win over ENI entries; its size is between either map's and their sum |
| ElbHandler.CollectElbNames | aws_subnet_usage.py:559-566 | the first loop collects exactly the set of captures over the map values |
| ElbHandler.SumOverNames | aws_subnet_usage.py:567-577 | current use is the sum of the per-name ENI counts; max is 8 per name |
| ElbHandler.HandleElbs | aws_subnet_usage.py:548-578 | count = number of names, max = 8·count whatever is in use now, current = sum of the lookups |
| ElbHandler.ElbNamesArePatternCaptures | aws_subnet_usage.py:560-566 | a name is counted iff some map value has the pattern's shape with that name |
| ElbHandler.NetworkEniCountedAsElb | aws_subnet_usage.py:561-566 | an NLB interface descriptor adds "net/x/y" to the Classic/ALB names |
| ElbHandler.InstanceHoldersNeverCaptured | aws_subnet_usage.py:561-563 | instance holders ("i-…") are never captured |
| AsgHandler.HandleAsgs | aws_subnet_usage.py:580-605 | the loop's count, current and maximum equal the functional totals for the variant |
| AsgHandler.HeadroomIsMaxLessMembers | aws_subnet_usage.py:603 | the two variants agree on count and current; variant B's max is variant A's less the number of members of the included groups |
| AsgHandler.CurrentAtMostMembers | aws_subnet_usage.py:600-602 | current use never exceeds the members of the included groups, and count never exceeds the number of groups |
| AsgHandler.HeadroomCanBeNegative | aws_subnet_usage.py:603 | a group with MaxSize 1 and two members gives a maximum of -1 (not clamped) |
| AsgHandler.IncludedIdsAreFields | aws_subnet_usage.py:597-598 | an included subnet id contains no comma and is one of the comma-split fields |
| AsgHandler.SpaceAfterCommaIsNotTrimmed | aws_subnet_usage.py:597-598 | "a, b" does not include subnet "b" |
| NlbHandler.Matching | aws_subnet_usage.py:445-452 | exactly the network load balancers with some zone in the subnet are counted |
| NlbHandler.Scan | aws_subnet_usage.py:442-488 | max = 8 per matching load balancer; each adds at least 1 to current; the ARNs are those of the matching load balancers; details are listed only with `show_tags` |
| NlbHandler.VisitZones | aws_subnet_usage.py:450-484 | the zone loop adds one load balancer at most once (the `break`) |
| NlbHandler.HandleNlbs | aws_subnet_usage.py:420-488 | count = number of distinct ARNs, current and max as the scan over the records delivered (before any ClientError) |
| NlbHandler.ShorterNameCountsAtLeastAsMany | aws_subnet_usage.py:455-458 | the substring test means a name contained in another counts at least the addresses of the longer one |
| EksHandler.CandidatesAreCutHolders | aws_subnet_usage.py:501-507 | there are no candidates iff no holder starts "i-"; candidates hold no '/' |
| EksHandler.FirstPrefixedKey | aws_subnet_usage.py:527-530 | finds the first tag key starting "kubernetes.io/cluster/", or reports that there is none |
| EksHandler.FindClusterName | aws_subnet_usage.py:523-530 | the loop finds the same cluster name as the functional rule |
| EksHandler.MentionTestIsRedundant | aws_subnet_usage.py:524-530 | the `in str(tags)` guard changes nothing: the name is the eks:cluster-name tag, else the last segment of the first prefixed key, else none |
| EksHandler.PrefixedKeyNamesItsSuffix | aws_subnet_usage.py:529 | "kubernetes.io/cluster/<name>" gives `name` |
| EksHandler.VisitRecord | aws_subnet_usage.py:532-542 | one record with a non-empty name adds one entry to its cluster's list and one to the count; the count stays the total list length |
| EksHandler.HandleEks | aws_subnet_usage.py:490-546 | no candidates give (0, {}); otherwise the groups are the records grouped by cluster name and the count is the number of named records, which is the total list length |
| EksHandler.GroupByIsSelection | aws_subnet_usage.py:532-542 | a cluster has a list iff some record is named by it (and the name is non-empty); the list is exactly its records in order |
| EksHandler.GroupByCount | aws_subnet_usage.py:533-542 | the total length of the lists equals the number of named records |
| SubnetUsage.ShowSubnetUsage | aws_subnet_usage.py:318-418 | the method computes the report of the usage specification (or its fatal error) |
| SubnetUsage.Summarise | aws_subnet_usage.py:337-418 | the figures after the subnet is found equal the tally of the handlers |
| SubnetUsage.RunNlbs | aws_subnet_usage.py:359-361 | network load balancers are handled only in variant B |
| SubnetUsage.RunEks | aws_subnet_usage.py:389-391 | EKS instances are handled only in variant B |
| SubnetUsage.UsageFails | aws_subnet_usage.py:320-326 | the run fails iff the subnet lookup fails or (variant B) an instance record lacks a private address |
| SubnetUsage.ReportFigures | aws_subnet_usage.py:409-413 | used = union of ENI and instance maps; the warning fires iff used ≠ pool size − available; total = used + elb_max (+ nlb_max in B) + asg_max, with B's ASG max being A's less members |
| SubnetUsage.TallyFigures | aws_subnet_usage.py:334-418 | the same figures for a given subnet and maps |
| SubnetUsage.EveryEniAddressIsUsed | aws_subnet_usage.py:338-341 | every private address of every ENI is counted as used |
| SubnetUsage.EksCountIsListedEntries | aws_subnet_usage.py:389-392 | in variant B the EKS count equals the number of listed instances |
| SubnetUsage.DriftForSlashTwentyFour | aws_subnet_usage.py:409 | for a /24 the warning fires iff used + available ≠ 251 |
| GitDiffs.EscapeLeavesNoControls | compare-files/git-diffs.py:165-166 | the escaped text holds no CR, LF, TAB or NUL |
| GitDiffs.ReplaceChainIsEscape | compare-files/git-diffs.py:165-166 | the chain of `replace` calls equals a one-pass escaping in which CRLF gives one `\n` |
| GitDiffs.SanitizeForCsv | compare-files/git-diffs.py:154-168 | `None` gives ""; otherwise the text cut to the limit by `DiffLines.Cut` (first limit-3 characters plus "...") and then escaped; the result has no control characters |
| GitDiffs.EscapeOfPlainText | compare-files/git-diffs.py:165-166 | text without CR, LF, TAB or NUL is unchanged |
| GitDiffs.SanitizedCanExceedLimit | compare-files/git-diffs.py:161-166 | escaping after truncation can exceed the limit ("\n" with limit 1 gives 2 characters) |
| GitDiffs.DeleteTextNonEmpty | compare-files/git-diffs.py:149-150 | deleting the text bytes leaves something iff some byte is not a text byte |
| GitDiffs.BinaryIffNonTextByte | compare-files/git-diffs.py:141-152 | a readable file is binary iff one of its first 1024 bytes is not a text byte (NUL included); an empty file is not binary; an unreadable one is |
| GitDiffs.FileComparison.constructor | compare-files/git-diffs.py:27-40 | lists empty and every counter zero |
| GitDiffs.FileComparison.Compare | compare-files/git-diffs.py:42-86 | fails, changing nothing, iff a side is unreadable; otherwise the totals are the line counts, the opcode sums are added to the counters, the removed and added lines are extended, and `changed_lines` is left alone |
| GitDiffs.Tally | compare-files/git-diffs.py:69-80 | the opcode loop's sums and line lists equal the opcode specification |
| GitDiffs.OpcodeStep | compare-files/git-diffs.py:70-80 | delete adds i2-i1 deletions, insert j2-j1 additions, replace max(i2-i1, j2-j1) modifications and both line ranges; equal changes nothing |
| GitDiffs.LinesAccounted | compare-files/git-diffs.py:69-80 | for opcodes tiling both files, removed lines = deletions + replaced left lines, added lines = additions + replaced right lines, and each side's lines are all accounted for |
| GitDiffs.ModificationsCoverBothSides | compare-files/git-diffs.py:80 | modifications are at least the replaced lines of either side |
| GitDiffs.FormatLine | compare-files/git-diffs.py:973-976 | always 80 characters with no tab: the tab-expanded line cut or padded with spaces |
| GitDiffs.WriteComparisonRows | compare-files/git-diffs.py:996-1019 | the loop's rows and failure flag equal the cursor walk over the Differ lines |
| GitDiffs.WalkLine | compare-files/git-diffs.py:999-1019 | one Differ line is one step of the walk |
| GitDiffs.WalkRowsHaveLineLength | compare-files/git-diffs.py:969-1019 | every row is `LINE_LENGTH` = 163 characters long |
| GitDiffs.WalkPositions | compare-files/git-diffs.py:996-1013 | without failure the left cursor counts "  " and "- " lines, the right cursor "  " and "+ " lines |
| GitDiffs.WalkFailureIsFinal | compare-files/git-diffs.py:1032-1033 | once an index is out of range the rest of the walk changes nothing |
| GitDiffs.Summarise | compare-files/git-diffs.py:1023-1028 | the summary's line counts are the files' and its added/removed counts are bounded by the diff |
| GitDiff.GetDiffSummary | compare-files/git-diff.py:106-116 | the counters are the bucket counts; additions + deletions + context = total - lines starting "@@", "+++" or "---" |
| GitDiff.SideBySideDiff | compare-files/git-diff.py:173-205 | an unreadable pair gives the error line; otherwise max(len1, len2) rows, row i built from line i of each side or "" |
| GitDiff.SideRows | compare-files/git-diff.py:184-203 | the row loop produces max(len1, len2) rows, each built from the lines at its index |
| GitDiff.FormatRow | compare-files/git-diff.py:187-203 | one row is the two cut and left-justified cells around " \| " |
| GitDiff.RowLayout | compare-files/git-diff.py:192-203 | every row is 2·width+3 long with " \| " at width; a long left cell shows its first width-3 characters and "..." |
| GitDiff.FilePaths | compare-files/git-diff.py:234-235 | only entries of type file are grouped |
| GitDiff.GroupByDirectory | compare-files/git-diff.py:222-251 | the groups are exactly the items grouped by directory key ("." at top level), in order |
| GitDiff.AddDiffs | compare-files/git-diff.py:225-231 | the diff loop adds each item to its directory's group |
| GitDiff.AddFiles | compare-files/git-diff.py:234-251 | the left/right-only loops add each file to its directory's group |
| GitDiff.AddAllGroups | compare-files/git-diff.py:225-251 | adding a sequence of paths keeps the grouping exact |
| GitDiff.GroupingIsExact | compare-files/git-diff.py:222-251 | every group holds exactly the items with its key, in their order |
| GitDiff.GroupsAreNonEmpty | compare-files/git-diff.py:229-231 | no group is empty |
| GitDiff.ExactlyOneGroup | compare-files/git-diff.py:225-231 | each diff item lands in its own directory's group and in no other |
| GitDiff.DirKeyOfJoin | compare-files/git-diff.py:226-228 | a joined path is grouped under its directory, or "." at top level |
| GitDiff.CsvLineFollowsKind | compare-files/git-diff.py:383-392 | the CSV label follows the line's bucket: FILE/SECTION for headers, ADDED/REMOVED without the sign, CONTEXT unless blank |
| GitDiff.CsvEntriesCount | compare-files/git-diff.py:381-392 | ADDED entries = additions, REMOVED entries = deletions, and only blank lines are dropped |
| GitDiff.CsvDiffText | compare-files/git-diff.py:381-396 | the text is the mapped first 50 lines joined by newlines, plus the truncation note when there are more than 50 |
| GitDiff.DiffReporter.constructor | compare-files/git-diff.py:25-35 | the report starts empty |
| GitDiff.DiffReporter.AnalyzeDirectories | compare-files/git-diff.py:37-40 | the collection starts at the root with relative path "" |
| GitDiff.DiffReporter.CollectDiffData | compare-files/git-diff.py:42-87 | the report gains the recursive collection of the tree and the file diffs are recorded for its diff items |
| GitDiff.DiffReporter.CollectLevel | compare-files/git-diff.py:46-81 | one level adds its left-only, right-only, different and identical entries |
| GitDiff.DiffReporter.CollectSubdirs | compare-files/git-diff.py:84-87 | the subdirectory loop adds each subdirectory's path and then its collection |
| GitDiff.DiffReporter.CollectChild | compare-files/git-diff.py:85-87 | one subdirectory is appended before its own contents are collected |
| GitDiff.RecordHolds | compare-files/git-diff.py:72-75 | the keys are those of the old map and the item paths; each path maps to the diff of the last item with that path; other entries are kept |
| GitDiff.CollectParentsFirst | compare-files/git-diff.py:84-87 | subdirectories are listed in pre-order: each one's parent is listed before it |
| GitDiff.DiffGroupsAreListed | compare-files/git-diff.py:63-87 | the directory of every diff item is "." or a listed subdirectory |
| DiffLines.ColorDiff | compare-files/folder1-diffs.py:10-20 | one line out per line in, in order; a line starting "+", "-", "!" or "?" is wrapped in green, red or yellow and the reset code, any other line is unchanged |
| DiffLines.StripUndoesColour | folder-compare.py:5-14 | stripping the codes from a coloured line gives the line back |
| DiffLines.StripUndoesColorDiff | folder-compare.py:5-14 | stripping the codes from the coloured diff gives the diff back, line by line |
| DiffLines.HeaderIffPrefixed | compare-files/git-diff.py:110-115 | a line is in no bucket iff it starts "@@", "+++" or "---" |
| DiffLines.BucketsPartitionLines | compare-files/git-diff.py:109-115 | every line falls in exactly one of the four buckets |
| DiffLines.BucketsMissOnlyHeaders | compare-files/git-diff.py:106-116 | additions + deletions + context = total - lines starting "@@", "+++" or "---" |
| DiffLines.Cut | compare-files/git-diff.py:192-195 | a cell within the width is unchanged; a longer one is its first width-3 characters and "..." |
| Ansi.StripAnsi | compare-files/folder1-diffs.py:78-82 | stripping never lengthens the text and keeps only characters of the text |
| Ansi.StripAnsiWithoutEsc | compare-files/folder1-diffs.py:78-82 | text with no ESC is unchanged |
| Ansi.StripAnsiKeepsPlainPrefix | compare-files/folder1-diffs.py:81 | a prefix without ESC is kept as it is |
| Ansi.FeEscapeRemoved | compare-files/folder1-diffs.py:81 | ESC followed by a byte in 0x40-0x5A or 0x5C-0x5F is removed |
| Ansi.ControlSequenceRemoved | compare-files/folder1-diffs.py:81 | ESC "[" parameters intermediates final is removed |
| Ansi.SgrThenPlain | compare-files/folder1-diffs.py:81 | a colour code followed by plain text leaves the text |
| Ansi.StripAnsiNotIdempotent | compare-files/folder1-diffs.py:81 | one pass can leave a new escape: ESC ESC "@" "@" strips to ESC "@" |
| DirWalk.NormaliseKey | compare-files/folder1-diffs.py:42 | normalised keys contain no backslash |
| DirWalk.CollectFiles | compare-files/folder1-diffs.py:34-44 | the dict is the one built from the walk's (key, full path) pairs in walk order |
| DirWalk.CollectStep | compare-files/folder1-diffs.py:38-43 | the inner loop puts each file of one directory under its key |
| DirWalk.CollectedKeys | folder-compare.py:20-27 | a key is present iff some file of the walk has it |
| DirWalk.CollectedLastWins | folder-compare.py:26 | a key maps to the full path of the last file with that key |
| DirWalk.NormalisedKeysMerge | compare-files/folder1-diffs.py:42 | "a\\b" and "a/b" share one key |
| Ordering.SortedUnion | folder-compare.py:63 | strictly ascending, holding exactly the keys of either side, as many as the union |
| FolderDiffs.CountSignedIsBucket | compare-files/folder1-diffs.py:57-58 | the two sums are the addition and deletion buckets |
| FolderDiffs.GetDiffStats | compare-files/folder1-diffs.py:47-75 | an unreadable pair gives the error record; otherwise total_changes = additions + deletions and the line counts are the files' |
| FolderDiffs.DiffStatsAreBuckets | compare-files/folder1-diffs.py:55-58 | additions and deletions are the bucket counts of the unified diff |
| FolderDiffs.SideRows | compare-files/folder1-diffs.py:130-171 | max(len1, len2) rows |
| FolderDiffs.PrintSideBySideDiff | compare-files/folder1-diffs.py:85-173 | a read error gives the error line; identical files give nothing; an empty diff gives only the header; otherwise header, one row per padded line pair and the closing rule |
| FolderDiffs.FormatRows | compare-files/folder1-diffs.py:139-171 | the row loop over the padded lists produces the side-by-side rows |
| FolderDiffs.PadLines | compare-files/folder1-diffs.py:133-136 | padding extends a list with "" to the common length |
| FolderDiffs.FormatSideRow | compare-files/folder1-diffs.py:140-171 | one row follows the colour rules for equal, added, deleted and changed lines |
| FolderDiffs.CellLayout | compare-files/folder1-diffs.py:143-151 | a cell is exactly the column width and adds no ESC |
| FolderDiffs.PlainRowWidth | compare-files/folder1-diffs.py:150-151 | an uncoloured row is 2·width+3 long |
| FolderDiffs.ConsoleRowStripsToFileRow | compare-files/folder1-diffs.py:153-171 | the file row is the uncoloured row, and stripping the console row gives it too |
| FolderDiffs.DisplayPath | compare-files/folder1-diffs.py:248 | at most 40 characters; a longer path keeps its first 37 and ends in "..." |
| FolderDiffs.OutcomeStatus | compare-files/folder1-diffs.py:250-295 | ADDED iff no left file, REMOVED iff left only, IDENTICAL/MODIFIED/ERROR iff both; only MODIFIED rows carry change counts |
| FolderDiffs.TotalsCountRows | compare-files/folder1-diffs.py:233-295 | each counter is the number of rows with that status and the change totals are the sums over modified rows |
| FolderDiffs.PrintTabularSummary | compare-files/folder1-diffs.py:217-312 | keys are the sorted union; one row per key with its outcome; the totals are those of the outcomes |
| FolderDiffs.SummaryRows | compare-files/folder1-diffs.py:243-301 | the row loop produces the outcome rows and their totals |
| FolderDiffs.SummaryStep | compare-files/folder1-diffs.py:244-295 | one key's outcome follows the presence and comparison of its two files |
| FolderDiffs.CountRow | compare-files/folder1-diffs.py:255-295 | one row updates the counters its status names; ERROR updates none |
| FolderDiffs.StatusesPartition | compare-files/folder1-diffs.py:250-295 | every row has exactly one of the five statuses |
| FolderDiffs.CountersMissOnlyErrors | compare-files/folder1-diffs.py:233-295 | identical + modified + added + removed = total_files - ERROR rows |
| FolderDiffs.SummaryTotals | compare-files/folder1-diffs.py:231-295 | the totals for the sorted keys satisfy both facts above |
| FolderDiffs.CompareFiles | compare-files/folder1-diffs.py:315-337 | a failed read gives the single "Error reading files: " line; after a good read, the page iff `-m` wins, otherwise one line per line of the chosen diff |
| FolderDiffs.ReadableComparisonStripsToDiff | compare-files/folder1-diffs.py:326-337 | after a good read, stripping the colour gives the chosen diff back |
| FolderDiffs.SummaryFooter | compare-files/folder1-diffs.py:305-312 | seven summary lines, plus the total-changes line iff some change was counted |
| CompareDirs.Padded | compare-files/compare-dirs.py:11-13 | the list keeps its lines and gains "" up to the common length |
| CompareDirs.FormatCentre | compare-files/compare-dirs.py:15 | `{s:^5}` keeps a long text and centres a short one in exactly w characters |
| CompareDirs.DiffHeadingLeansLeft | compare-files/compare-dirs.py:15 | "DIFF" centred in 5 is "DIFF " (the f-string), where `str.center` would give " DIFF" |
| CompareDirs.MarkerCases | compare-files/compare-dirs.py:25-41 | the marker is " " iff equal, "-" iff only the left is non-empty, "+" iff only the right is, "\|" otherwise |
| CompareDirs.SideBySideDiff | compare-files/compare-dirs.py:10-47 | both caller lists are padded in place to the longer length; the console and file outputs are the header, the separator and one row per pair |
| CompareDirs.EmitRows | compare-files/compare-dirs.py:24-47 | the zip loop produces the coloured and the plain rows |
| CompareDirs.FormatPair | compare-files/compare-dirs.py:25-44 | one pair gives its coloured row and its plain row from the right-stripped lines |
| CompareDirs.UncolouredRowIsPlain | compare-files/compare-dirs.py:32-44 | without colour the console row is the file row |
| CompareDirs.ColouredRowStrips | compare-files/compare-dirs.py:43-44 | stripping a coloured row gives the plain cells, each coloured cell justified to width-9 |
| CompareDirs.ColouredRowsShowShort | compare-files/compare-dirs.py:43-44 | a coloured row of short lines shows fewer characters than the plain row of 2·width+9 |
| CompareDirs.ReadOrNote | compare-files/compare-dirs.py:50-60 | an unreadable side becomes the single line "[Could not read: …]" |
| CompareDirs.CompareFiles | compare-files/compare-dirs.py:49-62 | the comparison runs on the read or replaced lines, always coloured |
| FolderCompare.FormatPrecedence | folder-compare.py:37-44 | `-u` wins over `-n` over `-m` over the default context diff, and `-c` does not change the choice |
| FolderCompare.CompareFiles | folder-compare.py:29-46 | HTML gives the page; the other formats give one coloured line per diff line |
| FolderCompare.ComparedLinesAreTheChosenDiff | folder-compare.py:37-46 | stripping the colour gives back the diff of the chosen format |
| FolderCompare.ActionCases | folder-compare.py:69-78 | both sides → diff of the two paths, only from → "Only in fromdir", only to → "Only in todir", neither → nothing |
| FolderCompare.MWithLineFormatRaises | folder-compare.py:37-72 | a diffed pair raises (`diff[0]` on a generator) iff `-m` is set together with `-u` or `-n` |
| FolderCompare.AnyRaisesIff | folder-compare.py:64-72 | a run raises iff one of its entries does |
| FolderCompare.TranscriptHeadings | folder-compare.py:64-78 | each key's section starts with its "=== Comparing" heading and sits between the output of the keys before and after it; nothing follows a key that raises, and a key after a raise prints nothing |
| FolderCompare.CompareTrees | folder-compare.py:63-78 | the keys are the sorted union of both maps; the visited entries are those of the first keys; the run stops exactly at the first key that raises, or visits every key; the output is the transcript of all the keys' entries |
| FolderCompare.VisitKeys | folder-compare.py:64-78 | the loop over the keys, with the same stop and output as above |
| FolderCompare.VisitKey | folder-compare.py:65-78 | one key's branch is the one its presence on the two sides selects |
| FolderCompare.VisitStep | folder-compare.py:68-78 | after a run with no raise, visiting a key adds its entry and its section, and the run raises iff that entry does |
| FolderCompare.CompleteRun | folder-compare.py:64-78 | a run stopped by a raise has the transcript and raise of the full key list |
| FolderCompare.EveryFileVisitedOnce | folder-compare.py:63-64 | each key of either side is visited exactly once, with the action its presence selects |
| FolderCompare.Comparer | folder-compare.py:69-70 | a pair present on both sides is compared by `compare_files` with the options |
| FolderCompare.CompareFolders | folder-compare.py:58-78 | the same, with both file maps collected from the walks and each pair compared with the options |

## Left out

- Cloud plumbing (boto3 clients, paginators, `describe_tags`, logging, argparse) is left out. Its
  results are record inputs.
- `netaddr` parsing and address rendering are left out. A block is given as (first address,
  prefix), and an address is a number below 2^32.
- AddressSpace.UsablePool: `net[4:-1]` follows Python's list-slice rule, which gives an empty pool
  for a /30 to a /32. `IPNetwork.__getitem__` of `netaddr` can give a /32's single address instead.
  That case is not modelled: subnets of a VPC are /16 to /28.
- Python's `\d` also matches non-ASCII decimal digits. The query matcher accepts ASCII digits only.
- The pattern `.*eks.*` and the variant-A NLB and node-group listings only print. They are not
  modelled.
- The EKS tag test `'kubernetes.io/cluster/' in str(tags)` is modelled as "some key or value
  contains the text". The `repr` around keys and values adds only quotes, colons, commas, braces
  and escapes, none of which can complete the text.
- All printing and report rendering are left out, apart from the lines whose content the model
  states: the HTML, CSV and text report templates, colours of headers, and the size thousands
  separators of the tabular summary.
- The `difflib` algorithms, `filecmp.dircmp`, `os.walk`, `os.stat`, `os.path.relpath`,
  `os.path.isdir` and MD5 hashing are left out. Their results are inputs.
- `os.path.normcase` is the identity, as on POSIX. Windows case folding is not modelled.
- File reading with encoding fallbacks is left out. A read is a `Result`.
- `file_mtime` (a clock read) is left out.
- Exceptions other than an unreadable file and the `-m` `TypeError` of `folder-compare.py` are
  left out. An example is a file that disappears between the walk and the read in
  `folder-compare.py`.
- The `main` of `compare-files/folder1-diffs.py` is left out: its `try:` has no body, so that file
  does not parse as a whole. Of its other functions, `color_diff`, `collect_files`,
  `get_diff_stats`, `strip_ansi_codes`, `print_side_by_side_diff`, `print_tabular_summary` and
  `compare_files` are modelled. `file_size` is an `os.stat` read, given as input. The
  `print_report_header` and `print_subdirectory_section` functions only print (the first prints
  the clock too), so they are left out.
- `compare-files/remove-ansi.py` is not part of this model. Its pattern is the control-sequence
  half of `Ansi.StripAnsi`.
- `walk_and_compare` of `compare-files/compare-dirs.py` is left out. It prints `dircmp` listings.
- The page content of `HtmlDiff` is an input string.
- FolderDiffs.PrintTabularSummary: requires the collected paths to be non-empty strings. Every
  path the walk reports is non-empty, and the script's truthiness test then means "present".
- GitDiffs.Summarise: states only the bounds of the added/removed counts. Their relation to the
  cursor positions is `GitDiffs.WalkPositions`.
