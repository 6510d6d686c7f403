/** The counting, layout and grouping parts of `DiffReporter` in `compare-files/git-diff.py`:
    the diff summary, the side-by-side rows, the grouping of the report by directory, the CSV
    rendering of a unified diff, and the recursive collection over a directory comparison tree.
    The tree `filecmp.dircmp` builds, the `isdir` answers and the unified diffs are inputs. */
module GitDiff {
  import opened Wrappers
  import opened PyStr
  import opened DiffLines
  import Dicts
  import Seqs

  // ------------------------------------------------------------------------ _get_diff_summary

  datatype Summary = Summary(additions: nat, deletions: nat, context: nat)

  /** `_get_diff_summary`: the three bucket counts of the lines; together they count every line
      except the "@@", "+++" and "---" headers. */
  method GetDiffSummary(lines: seq<string>) returns (s: Summary)
    ensures s == Summary(CountKind(lines, Addition), CountKind(lines, Deletion), CountKind(lines, Context))
    ensures s.additions + s.deletions + s.context == |lines| - CountHeaderPrefixed(lines)
  {
    s := Summary(0, 0, 0);
    for k := 0 to |lines|
      invariant s == Summary(CountKind(lines[..k], Addition), CountKind(lines[..k], Deletion), CountKind(lines[..k], Context))
    {
      var line := lines[k];
      assert lines[..k + 1][..k] == lines[..k];
      if StartsWith(line, "+") && !StartsWith(line, "+++") {
        s := s.(additions := s.additions + 1);
      } else if StartsWith(line, "-") && !StartsWith(line, "---") {
        s := s.(deletions := s.deletions + 1);
      } else if !StartsWith(line, "@@") && !StartsWith(line, "+++") && !StartsWith(line, "---") {
        s := s.(context := s.context + 1);
      }
    }
    assert lines[..|lines|] == lines;
    BucketsMissOnlyHeaders(lines);
  }

  // ------------------------------------------------------------ _generate_side_by_side_diff

  /** One row: both cells cut and left-justified to the width, with " | " between them whether
      or not the lines are equal. */
  function Row(left: string, right: string, width: int): string {
    LJust(Cut(left, width), width) + " | " + LJust(Cut(right, width), width)
  }

  /** `line.rstrip('\n')` over every line read. */
  function StripNewlines(lines: seq<string>): (r: seq<string>)
    ensures |r| == |lines|
  {
    seq(|lines|, i requires 0 <= i < |lines| => RStripChar(lines[i], '\n'))
  }

  /** `_generate_side_by_side_diff` after the files are read (`Err` carries the message of a
      failed read): one row per line of the longer file, the shorter one filled with "". */
  method SideBySideDiff(read: Result<(seq<string>, seq<string>), string>, width: int) returns (rows: seq<string>)
    ensures read.Err? ==> rows == ["Error reading files: " + read.error]
    ensures read.Ok? ==>
      var f1, f2 := StripNewlines(read.value.0), StripNewlines(read.value.1);
      |rows| == (if |f1| >= |f2| then |f1| else |f2|)
      && forall i :: 0 <= i < |rows| ==> rows[i] == Row(LineAt(f1, i), LineAt(f2, i), width)
  {
    if read.Err? {
      return ["Error reading files: " + read.error];
    }
    rows := SideRows(StripNewlines(read.value.0), StripNewlines(read.value.1), width);
  }

  /** The row loop over the stripped lines. */
  method SideRows(f1: seq<string>, f2: seq<string>, width: int) returns (rows: seq<string>)
    ensures |rows| == (if |f1| >= |f2| then |f1| else |f2|)
    ensures forall i :: 0 <= i < |rows| ==> rows[i] == Row(LineAt(f1, i), LineAt(f2, i), width)
  {
    rows := [];
    var maxLines := if |f1| >= |f2| then |f1| else |f2|;
    ghost var row := (j: nat) => Row(LineAt(f1, j), LineAt(f2, j), width);
    for i := 0 to maxLines
      invariant rows == Seqs.Tabulate(row, i)
    {
      var r := FormatRow(f1, f2, i, width);
      assert r == row(i);
      rows := rows + [r];
    }
    Seqs.TabulateIndex(row, maxLines);
  }

  /** The body of the loop: the two lines at `i` ("" past the end), each cut when longer than
      the width, left-justified and joined by " | ". */
  method FormatRow(f1: seq<string>, f2: seq<string>, i: nat, width: int) returns (row: string)
    ensures row == Row(LineAt(f1, i), LineAt(f2, i), width)
  {
    var leftLine := if i < |f1| then f1[i] else "";
    var rightLine := if i < |f2| then f2[i] else "";
    if |leftLine| > width {
      leftLine := SliceTo(leftLine, width - 3) + "...";
    }
    if |rightLine| > width {
      rightLine := SliceTo(rightLine, width - 3) + "...";
    }
    var marker := if leftLine == rightLine then " | " else " | ";
    row := LJust(leftLine, width) + marker + LJust(rightLine, width);
  }

  /** From a width of 3 up every row is exactly `2 * width + 3` characters, a line that fits
      opens its cell unchanged, and one that does not keeps its first `width - 3` characters. */
  lemma RowLayout(left: string, right: string, width: int)
    requires width >= 3
    ensures |Row(left, right, width)| == 2 * width + 3
    ensures var row := Row(left, right, width);
      row[width..width + 3] == " | "
      && (|left| <= width ==> row[..|left|] == left)
      && (|left| > width ==> row[..width] == left[..width - 3] + "...")
  {
    var row := Row(left, right, width);
    var l := LJust(Cut(left, width), width);
    assert row == l + (" | " + LJust(Cut(right, width), width));
    assert row[..width] == l;
    if |left| <= width {
      assert row[..|left|] == l[..|left|];
    }
  }

  // --------------------------------------------------------- save_tabular_diff_report grouping

  /** An item of the left-only or right-only list: its relative path, its path under the
      compared directory, and whether it is a directory (`os.path.isdir`). */
  datatype Entry = Entry(path: string, fullPath: string, isDir: bool)

  /** The group key of a path: its directory, "." at the top level. */
  function DirKey(path: string): string {
    if DirName(path) == "" then "." else DirName(path)
  }

  /** `{'diff': [...], 'left_only': [...], 'right_only': [...]}` with the paths of the items. */
  datatype Group = Group(diff: seq<string>, leftOnly: seq<string>, rightOnly: seq<string>)

  /** The paths among `paths` whose key is `k`, in order. */
  function InGroup(paths: seq<string>, keyOf: string -> string, k: string): (r: seq<string>)
    ensures forall p :: p in r <==> p in paths && keyOf(p) == k
    ensures |r| <= |paths|
    decreases |paths|
  {
    if |paths| == 0 then []
    else InGroup(paths[..|paths| - 1], keyOf, k) + (if keyOf(paths[|paths| - 1]) == k then [paths[|paths| - 1]] else [])
  }

  /** The paths of the entries that are files, in order. */
  function FilePaths(entries: seq<Entry>): (r: seq<string>)
    ensures |r| <= |entries|
    ensures forall p :: p in r <==> exists i :: 0 <= i < |entries| && !entries[i].isDir && entries[i].path == p
    decreases |entries|
  {
    if |entries| == 0 then []
    else
      var e := entries[|entries| - 1];
      var init := entries[..|entries| - 1];
      var r := FilePaths(init) + (if e.isDir then [] else [e.path]);
      assert forall i :: 0 <= i < |init| ==> init[i] == entries[i];
      r
  }

  /** The groups are exactly the keys of the listed paths, and each group holds, in order, the
      diff paths, the left-only paths and the right-only paths with its key. */
  ghost predicate GroupedBy(groups: Dicts.Dict<Group>, keyOf: string -> string, g: Group) {
    Dicts.Valid(groups)
    && (forall p :: p in g.diff || p in g.leftOnly || p in g.rightOnly ==> keyOf(p) in groups.vals)
    && (forall k :: k in groups.vals ==>
          exists p :: (p in g.diff || p in g.leftOnly || p in g.rightOnly) && keyOf(p) == k)
    && (forall k :: k in groups.vals ==>
          groups.vals[k] == Group(InGroup(g.diff, keyOf, k), InGroup(g.leftOnly, keyOf, k), InGroup(g.rightOnly, keyOf, k)))
  }

  /** The list `which` (0 diff, 1 left only, 2 right only) with `path` appended. */
  function Extend(g: Group, path: string, which: nat): Group {
    if which == 0 then g.(diff := g.diff + [path])
    else if which == 1 then g.(leftOnly := g.leftOnly + [path])
    else g.(rightOnly := g.rightOnly + [path])
  }

  /** `if dir_path not in files_by_dir: files_by_dir[dir_path] = {...}` followed by the append to
      the list `which` of that group. */
  function AddTo(groups: Dicts.Dict<Group>, keyOf: string -> string, path: string, which: nat): (r: Dicts.Dict<Group>)
    requires Dicts.Valid(groups)
    ensures Dicts.Valid(r)
  {
    var k := keyOf(path);
    var g := if k in groups.vals then groups.vals[k] else Group([], [], []);
    Dicts.Put(groups, k, Extend(g, path, which))
  }

  /** `AddTo` for each path in turn. */
  function AddAll(groups: Dicts.Dict<Group>, keyOf: string -> string, paths: seq<string>, which: nat): (r: Dicts.Dict<Group>)
    requires Dicts.Valid(groups)
    ensures Dicts.Valid(r)
    decreases |paths|
  {
    if |paths| == 0 then groups
    else AddTo(AddAll(groups, keyOf, paths[..|paths| - 1], which), keyOf, paths[|paths| - 1], which)
  }

  /** The different files, then the left-only files, then the right-only files, each added to
      its group. */
  function Grouping(keyOf: string -> string, g: Group): Dicts.Dict<Group> {
    AddAll(AddAll(AddAll(Dicts.Empty(), keyOf, g.diff, 0), keyOf, g.leftOnly, 1), keyOf, g.rightOnly, 2)
  }

  /** The three loops of `save_tabular_diff_report` that fill `files_by_dir`: every different
      file goes to the group of its directory, and so does every left-only or right-only item
      that is a file; directories among them are skipped. */
  method GroupByDirectory(diffs: seq<string>, leftOnly: seq<Entry>, rightOnly: seq<Entry>)
    returns (groups: Dicts.Dict<Group>)
    ensures GroupedBy(groups, DirKey, Group(diffs, FilePaths(leftOnly), FilePaths(rightOnly)))
  {
    groups := AddDiffs(Dicts.Empty(), diffs);
    groups := AddFiles(groups, leftOnly, 1);
    groups := AddFiles(groups, rightOnly, 2);
    GroupingIsExact(DirKey, Group(diffs, FilePaths(leftOnly), FilePaths(rightOnly)));
  }

  /** The loop over the different files. */
  method AddDiffs(groups: Dicts.Dict<Group>, diffs: seq<string>) returns (r: Dicts.Dict<Group>)
    requires Dicts.Valid(groups)
    ensures Dicts.Valid(r) && r == AddAll(groups, DirKey, diffs, 0)
  {
    r := groups;
    for k := 0 to |diffs|
      invariant Dicts.Valid(r)
      invariant r == AddAll(groups, DirKey, diffs[..k], 0)
    {
      assert diffs[..k + 1][..k] == diffs[..k];
      r := AddTo(r, DirKey, diffs[k], 0);
    }
    assert diffs[..|diffs|] == diffs;
  }

  /** The loop over the left-only (`which` 1) or right-only (`which` 2) items, skipping
      directories. */
  method AddFiles(groups: Dicts.Dict<Group>, entries: seq<Entry>, which: nat) returns (r: Dicts.Dict<Group>)
    requires Dicts.Valid(groups)
    ensures Dicts.Valid(r) && r == AddAll(groups, DirKey, FilePaths(entries), which)
  {
    r := groups;
    for k := 0 to |entries|
      invariant Dicts.Valid(r)
      invariant r == AddAll(groups, DirKey, FilePaths(entries[..k]), which)
    {
      FilePathsStep(entries, k);
      ghost var before := FilePaths(entries[..k]);
      if !entries[k].isDir {
        AddAllStep(groups, DirKey, before, entries[k].path, which);
        r := AddTo(r, DirKey, entries[k].path, which);
      } else {
        assert before + [] == before;
      }
    }
    assert entries[..|entries|] == entries;
  }

  lemma AddAllStep(groups: Dicts.Dict<Group>, keyOf: string -> string, paths: seq<string>, path: string, which: nat)
    requires Dicts.Valid(groups)
    ensures AddAll(groups, keyOf, paths + [path], which) == AddTo(AddAll(groups, keyOf, paths, which), keyOf, path, which)
  {
    assert (paths + [path])[..|paths|] == paths;
  }

  /** The list `which` with all of `paths` appended. */
  function ExtendAll(g: Group, paths: seq<string>, which: nat): Group {
    if which == 0 then g.(diff := g.diff + paths)
    else if which == 1 then g.(leftOnly := g.leftOnly + paths)
    else g.(rightOnly := g.rightOnly + paths)
  }

  lemma ExtendAllStep(g: Group, paths: seq<string>, path: string, which: nat)
    ensures ExtendAll(g, paths + [path], which) == Extend(ExtendAll(g, paths, which), path, which)
  {
    assert g.diff + (paths + [path]) == g.diff + paths + [path];
    assert g.leftOnly + (paths + [path]) == g.leftOnly + paths + [path];
    assert g.rightOnly + (paths + [path]) == g.rightOnly + paths + [path];
  }

  /** Adding every path of a list to a grouping keeps it exact. */
  lemma {:induction false} AddAllGroups(groups: Dicts.Dict<Group>, keyOf: string -> string, g: Group, paths: seq<string>, which: nat)
    requires GroupedBy(groups, keyOf, g) && which <= 2
    ensures GroupedBy(AddAll(groups, keyOf, paths, which), keyOf, ExtendAll(g, paths, which))
    decreases |paths|
  {
    if |paths| == 0 {
      assert g.diff + paths == g.diff && g.leftOnly + paths == g.leftOnly && g.rightOnly + paths == g.rightOnly;
      assert ExtendAll(g, paths, which) == g;
    } else {
      var init, last := paths[..|paths| - 1], paths[|paths| - 1];
      assert init + [last] == paths;
      ExtendAllStep(g, init, last, which);
      AddAllGroups(groups, keyOf, g, init, which);
      AddToGroups(AddAll(groups, keyOf, init, which), keyOf, ExtendAll(g, init, which), last, which);
    }
  }

  /** The grouping of the three lists is exact. */
  lemma GroupingIsExact(keyOf: string -> string, g: Group)
    ensures GroupedBy(Grouping(keyOf, g), keyOf, g)
  {
    var g0, g1, g2 := Group([], [], []), Group(g.diff, [], []), Group(g.diff, g.leftOnly, []);
    ExtendAllOfEmpty(g);
    var d0: Dicts.Dict<Group> := Dicts.Empty();
    AddAllGroups(d0, keyOf, g0, g.diff, 0);
    var d1 := AddAll(d0, keyOf, g.diff, 0);
    AddAllGroups(d1, keyOf, g1, g.leftOnly, 1);
    var d2 := AddAll(d1, keyOf, g.leftOnly, 1);
    AddAllGroups(d2, keyOf, g2, g.rightOnly, 2);
  }

  lemma ExtendAllOfEmpty(g: Group)
    ensures ExtendAll(Group([], [], []), g.diff, 0) == Group(g.diff, [], [])
    ensures ExtendAll(Group(g.diff, [], []), g.leftOnly, 1) == Group(g.diff, g.leftOnly, [])
    ensures ExtendAll(Group(g.diff, g.leftOnly, []), g.rightOnly, 2) == g
  {
    var empty: seq<string> := [];
    assert empty + g.diff == g.diff;
    assert empty + g.leftOnly == g.leftOnly;
    assert empty + g.rightOnly == g.rightOnly;
  }

  lemma FilePathsStep(entries: seq<Entry>, k: nat)
    requires k < |entries|
    ensures FilePaths(entries[..k + 1]) == FilePaths(entries[..k]) + (if entries[k].isDir then [] else [entries[k].path])
  {
    assert entries[..k + 1][..k] == entries[..k];
  }

  /** Appending a path keeps `InGroup` in step. */
  lemma InGroupAppend(paths: seq<string>, keyOf: string -> string, path: string, k: string)
    ensures InGroup(paths + [path], keyOf, k) == InGroup(paths, keyOf, k) + (if keyOf(path) == k then [path] else [])
  {
    assert (paths + [path])[..|paths|] == paths;
  }

  /** A key no path has selects nothing. */
  lemma InGroupNone(paths: seq<string>, keyOf: string -> string, k: string)
    requires forall p :: p in paths ==> keyOf(p) != k
    ensures InGroup(paths, keyOf, k) == []
  {
  }

  /** The group of one key after `AddTo`. */
  lemma AddToGroup(groups: Dicts.Dict<Group>, keyOf: string -> string, g: Group, path: string, which: nat, k: string)
    requires GroupedBy(groups, keyOf, g) && which <= 2
    requires k in AddTo(groups, keyOf, path, which).vals
    ensures var e := Extend(g, path, which);
      AddTo(groups, keyOf, path, which).vals[k] == Group(InGroup(e.diff, keyOf, k), InGroup(e.leftOnly, keyOf, k), InGroup(e.rightOnly, keyOf, k))
  {
    var e := Extend(g, path, which);
    var r := AddTo(groups, keyOf, path, which);
    var want := Group(InGroup(e.diff, keyOf, k), InGroup(e.leftOnly, keyOf, k), InGroup(e.rightOnly, keyOf, k));
    InGroupAppend(g.diff, keyOf, path, k);
    InGroupAppend(g.leftOnly, keyOf, path, k);
    InGroupAppend(g.rightOnly, keyOf, path, k);
    if k != keyOf(path) {
      assert r.vals[k] == groups.vals[k];
    } else {
      var old_ := if k in groups.vals then groups.vals[k] else Group([], [], []);
      if k !in groups.vals {
        InGroupNone(g.diff, keyOf, k);
        InGroupNone(g.leftOnly, keyOf, k);
        InGroupNone(g.rightOnly, keyOf, k);
      }
      assert old_ == Group(InGroup(g.diff, keyOf, k), InGroup(g.leftOnly, keyOf, k), InGroup(g.rightOnly, keyOf, k));
      assert r.vals[k] == Extend(old_, path, which);
      if which == 0 {
        assert e == Group(g.diff + [path], g.leftOnly, g.rightOnly);
      } else if which == 1 {
        assert e == Group(g.diff, g.leftOnly + [path], g.rightOnly);
      } else {
        assert e == Group(g.diff, g.leftOnly, g.rightOnly + [path]);
      }
    }
  }

  /** The paths of the extended group are those of the group and the new one. */
  lemma ExtendMembers(g: Group, path: string, which: nat)
    requires which <= 2
    ensures var e := Extend(g, path, which);
      forall p :: p in e.diff || p in e.leftOnly || p in e.rightOnly <==>
        p in g.diff || p in g.leftOnly || p in g.rightOnly || p == path
  {
  }

  /** The keys after `AddTo` are the keys before and the key of the new path. */
  lemma AddToKeys(groups: Dicts.Dict<Group>, keyOf: string -> string, g: Group, path: string, which: nat)
    requires GroupedBy(groups, keyOf, g) && which <= 2
    ensures var e, r := Extend(g, path, which), AddTo(groups, keyOf, path, which);
      (forall p :: p in e.diff || p in e.leftOnly || p in e.rightOnly ==> keyOf(p) in r.vals)
      && (forall k :: k in r.vals ==> exists p :: (p in e.diff || p in e.leftOnly || p in e.rightOnly) && keyOf(p) == k)
  {
    var e, r := Extend(g, path, which), AddTo(groups, keyOf, path, which);
    assert r.vals.Keys == groups.vals.Keys + {keyOf(path)};
    ExtendMembers(g, path, which);
    forall k | k in r.vals
      ensures exists p :: (p in e.diff || p in e.leftOnly || p in e.rightOnly) && keyOf(p) == k
    {
      if k != keyOf(path) {
        var p :| (p in g.diff || p in g.leftOnly || p in g.rightOnly) && keyOf(p) == k;
        assert p in e.diff || p in e.leftOnly || p in e.rightOnly;
      } else {
        assert path in e.diff || path in e.leftOnly || path in e.rightOnly;
      }
    }
  }

  /** Adding a path to one of the three lists of its group keeps the grouping exact. */
  lemma AddToGroups(groups: Dicts.Dict<Group>, keyOf: string -> string, g: Group, path: string, which: nat)
    requires GroupedBy(groups, keyOf, g) && which <= 2
    ensures GroupedBy(AddTo(groups, keyOf, path, which), keyOf, Extend(g, path, which))
  {
    var e := Extend(g, path, which);
    var r := AddTo(groups, keyOf, path, which);
    forall k | k in r.vals
      ensures r.vals[k] == Group(InGroup(e.diff, keyOf, k), InGroup(e.leftOnly, keyOf, k), InGroup(e.rightOnly, keyOf, k))
    {
      AddToGroup(groups, keyOf, g, path, which, k);
    }
    AddToKeys(groups, keyOf, g, path, which);
  }

  /** Every group the report visits holds at least one item, so the `continue` for a group with
      three empty lists never runs. */
  lemma GroupsAreNonEmpty(groups: Dicts.Dict<Group>, keyOf: string -> string, g: Group, k: string)
    requires GroupedBy(groups, keyOf, g) && k in groups.vals
    ensures var h := groups.vals[k]; |h.diff| + |h.leftOnly| + |h.rightOnly| > 0
  {
    var p :| (p in g.diff || p in g.leftOnly || p in g.rightOnly) && keyOf(p) == k;
    var h := groups.vals[k];
    assert p in h.diff || p in h.leftOnly || p in h.rightOnly;
  }

  /** A different file lands in exactly one group, the one of its key. */
  lemma ExactlyOneGroup(groups: Dicts.Dict<Group>, keyOf: string -> string, g: Group, p: string)
    requires GroupedBy(groups, keyOf, g) && p in g.diff
    ensures keyOf(p) in groups.vals && p in groups.vals[keyOf(p)].diff
    ensures forall k :: k in groups.vals && k != keyOf(p) ==> p !in groups.vals[k].diff
  {
  }

  /** The key of a file in a subdirectory is that subdirectory, and of a top-level file ".". */
  lemma DirKeyOfJoin(dir: string, name: string)
    requires name != "" && '/' !in name
    requires dir == "" || dir[|dir| - 1] != '/'
    ensures DirKey(PathJoin(dir, name)) == if dir == "" then "." else dir
  {
    if dir == "" {
      assert !StartsWith(name, "/") by { assert name[0] != '/'; }
      assert PathJoin(dir, name) == name;
      DirNameOfName(name);
    } else {
      DirNameOfJoin(dir, name);
    }
  }

  // ----------------------------------------------------------------- save_csv_report diff text

  /** The CSV rendering of one unified-diff line: file headers, hunk headers, additions and
      deletions without their sign, and context lines that are not blank; blank context lines
      are dropped. */
  function CsvLine(line: string): Option<string> {
    if StartsWith(line, "+++") || StartsWith(line, "---") then Some("FILE: " + line)
    else if StartsWith(line, "@@") then Some("SECTION: " + line)
    else if StartsWith(line, "+") && !StartsWith(line, "+++") then Some("ADDED: " + line[1..])
    else if StartsWith(line, "-") && !StartsWith(line, "---") then Some("REMOVED: " + line[1..])
    else if !IsBlank(line) then Some("CONTEXT: " + line)
    else None
  }

  /** The label follows the bucket `_get_diff_summary` puts the line in: an addition becomes
      "ADDED: ", a deletion "REMOVED: ", a context line "CONTEXT: " unless it is blank, and a
      header "SECTION: " or "FILE: ". */
  lemma CsvLineFollowsKind(line: string)
    ensures CsvLine(line) == match KindOf(line)
      case Addition => Some("ADDED: " + line[1..])
      case Deletion => Some("REMOVED: " + line[1..])
      case Context => if IsBlank(line) then None else Some("CONTEXT: " + line)
      case Header => Some((if StartsWith(line, "@@") then "SECTION: " else "FILE: ") + line)
  {
    HeaderIffPrefixed(line);
    if StartsWith(line, "@@") {
      assert line[0] == '@';
      assert !StartsWith(line, "+") && !StartsWith(line, "-");
    }
  }

  /** The rendered lines, in order, of those that are kept. */
  function CsvEntries(lines: seq<string>): (r: seq<string>)
    ensures |r| <= |lines|
    decreases |lines|
  {
    if |lines| == 0 then []
    else
      var last := CsvLine(lines[|lines| - 1]);
      CsvEntries(lines[..|lines| - 1]) + (if last.Some? then [last.value] else [])
  }

  /** How many lines are blank context lines. */
  function CountBlank(lines: seq<string>): (n: nat)
    ensures n <= |lines|
    decreases |lines|
  {
    if |lines| == 0 then 0
    else CountBlank(lines[..|lines| - 1]) + (if KindOf(lines[|lines| - 1]) == Context && IsBlank(lines[|lines| - 1]) then 1 else 0)
  }

  lemma CsvLabelsDiffer(x: string)
    ensures !StartsWith("REMOVED: " + x, "ADDED: ") && !StartsWith("CONTEXT: " + x, "ADDED: ")
    ensures !StartsWith("FILE: " + x, "ADDED: ") && !StartsWith("SECTION: " + x, "ADDED: ")
    ensures !StartsWith("ADDED: " + x, "REMOVED: ") && !StartsWith("CONTEXT: " + x, "REMOVED: ")
    ensures !StartsWith("FILE: " + x, "REMOVED: ") && !StartsWith("SECTION: " + x, "REMOVED: ")
    ensures StartsWith("ADDED: " + x, "ADDED: ") && StartsWith("REMOVED: " + x, "REMOVED: ")
  {
    assert ("REMOVED: " + x)[0] == 'R' && ("CONTEXT: " + x)[0] == 'C';
    assert ("FILE: " + x)[0] == 'F' && ("SECTION: " + x)[0] == 'S';
    assert ("ADDED: " + x)[0] == 'A';
    assert ("ADDED: " + x)[..7] == "ADDED: ";
    assert ("REMOVED: " + x)[..9] == "REMOVED: ";
  }

  /** The CSV text holds one "ADDED: " entry per addition and one "REMOVED: " entry per
      deletion that `_get_diff_summary` counts, and drops exactly the blank context lines. */
  lemma {:induction false} CsvEntriesCount(lines: seq<string>)
    ensures CountPrefix(CsvEntries(lines), "ADDED: ") == CountKind(lines, Addition)
    ensures CountPrefix(CsvEntries(lines), "REMOVED: ") == CountKind(lines, Deletion)
    ensures |CsvEntries(lines)| == |lines| - CountBlank(lines)
    decreases |lines|
  {
    if |lines| > 0 {
      var init, line := lines[..|lines| - 1], lines[|lines| - 1];
      CsvEntriesCount(init);
      CsvLineFollowsKind(line);
      var e := CsvEntries(lines);
      var extra := if CsvLine(line).Some? then [CsvLine(line).value] else [];
      assert e == CsvEntries(init) + extra;
      assert e[..|e| - |extra|] == CsvEntries(init);
      if CsvLine(line).Some? {
        var v := CsvLine(line).value;
        assert e[..|e| - 1] == CsvEntries(init) && e[|e| - 1] == v;
        var x := if KindOf(line) == Addition || KindOf(line) == Deletion then line[1..] else line;
        CsvLabelsDiffer(x);
        assert StartsWith(v, "ADDED: ") <==> KindOf(line) == Addition;
        assert StartsWith(v, "REMOVED: ") <==> KindOf(line) == Deletion;
      } else {
        assert e == CsvEntries(init);
      }
    }
  }

  const TruncationNote: string := "\n... (truncated - see full diff in HTML report)"

  /** The "Diff Content" cell of a different file: the CSV lines of the first 50 diff lines
      joined by newlines, and a note when the diff is longer than that. */
  method CsvDiffText(diffLines: seq<string>) returns (text: string)
    ensures text == Join("\n", CsvEntries(SliceTo(diffLines, 50))) + (if |diffLines| > 50 then TruncationNote else "")
  {
    var first := SliceTo(diffLines, 50);
    var content: seq<string> := [];
    for k := 0 to |first|
      invariant content == CsvEntries(first[..k])
    {
      assert first[..k + 1][..k] == first[..k];
      var entry := CsvLine(first[k]);
      if entry.Some? {
        content := content + [entry.value];
      }
    }
    assert first[..|first|] == first;
    text := Join("\n", content);
    if |diffLines| > 50 {
      text := text + TruncationNote;
    }
  }

  // ------------------------------------------------------------------------ _collect_diff_data

  /** What `filecmp.dircmp` reports about one pair of directories: their paths, the names found
      on one side only, the names of files that differ and of files that are the same, and the
      comparison of each common subdirectory under its name. */
  datatype DirCmp = DirCmp(left: string, right: string, leftOnly: seq<string>, rightOnly: seq<string>,
                           diffFiles: seq<string>, sameFiles: seq<string>, subdirs: seq<(string, DirCmp)>)

  datatype DiffItem = DiffItem(path: string, leftPath: string, rightPath: string)

  /** `report_data`: the five lists the collection appends to. */
  datatype Report = Report(leftOnly: seq<Entry>, rightOnly: seq<Entry>, diffFiles: seq<DiffItem>,
                           identical: seq<string>, subdirs: seq<string>)
  {
    /** Every list of this report followed by the same list of `other`. */
    function Plus(other: Report): Report {
      Report(leftOnly + other.leftOnly, rightOnly + other.rightOnly, diffFiles + other.diffFiles,
             identical + other.identical, subdirs + other.subdirs)
    }
  }

  const NoReport := Report([], [], [], [], [])

  /** The relative path of a subdirectory: its name at the top, joined to the parent's below. */
  function SubPath(rel: string, name: string): string {
    if rel != "" then PathJoin(rel, name) else name
  }

  function OnlyEntries(names: seq<string>, rel: string, dir: string, isDir: string -> bool): (r: seq<Entry>)
    ensures |r| == |names|
  {
    seq(|names|, i requires 0 <= i < |names| =>
      Entry(PathJoin(rel, names[i]), PathJoin(dir, names[i]), isDir(PathJoin(dir, names[i]))))
  }

  function DiffItems(d: DirCmp, rel: string): (r: seq<DiffItem>)
    ensures |r| == |d.diffFiles|
  {
    seq(|d.diffFiles|, i requires 0 <= i < |d.diffFiles| =>
      DiffItem(PathJoin(rel, d.diffFiles[i]), PathJoin(d.left, d.diffFiles[i]), PathJoin(d.right, d.diffFiles[i])))
  }

  function SameItems(d: DirCmp, rel: string): (r: seq<string>)
    ensures |r| == |d.sameFiles|
  {
    seq(|d.sameFiles|, i requires 0 <= i < |d.sameFiles| => PathJoin(rel, d.sameFiles[i]))
  }

  /** What one level adds before its subdirectories are visited. */
  function Own(d: DirCmp, rel: string, isDir: string -> bool): Report {
    Report(OnlyEntries(d.leftOnly, rel, d.left, isDir), OnlyEntries(d.rightOnly, rel, d.right, isDir),
           DiffItems(d, rel), SameItems(d, rel), [])
  }

  /** The report of a whole comparison tree rooted at relative path `rel`: this level's items,
      then each subdirectory's path followed by the report of its own tree. */
  function Collect(d: DirCmp, rel: string, isDir: string -> bool): Report
    decreases d, |d.subdirs| + 1
  {
    Own(d, rel, isDir).Plus(Children(d, |d.subdirs|, rel, isDir))
  }

  /** The part of the report the first `n` subdirectories contribute. */
  function Children(d: DirCmp, n: nat, rel: string, isDir: string -> bool): Report
    requires n <= |d.subdirs|
    decreases d, n
  {
    if n == 0 then NoReport
    else
      var (name, sub) := d.subdirs[n - 1];
      var path := SubPath(rel, name);
      Children(d, n - 1, rel, isDir).Plus(Report([], [], [], [], [path]).Plus(Collect(sub, path, isDir)))
  }

  /** `self.file_diffs[path] = ...` for each item in turn. */
  function Record(m: map<string, seq<string>>, items: seq<DiffItem>, fileDiff: (string, string) -> seq<string>): map<string, seq<string>>
    decreases |items|
  {
    if |items| == 0 then m
    else
      var last := items[|items| - 1];
      Record(m, items[..|items| - 1], fileDiff)[last.path := fileDiff(last.leftPath, last.rightPath)]
  }

  lemma {:induction false} RecordAppend(m: map<string, seq<string>>, a: seq<DiffItem>, b: seq<DiffItem>, fileDiff: (string, string) -> seq<string>)
    ensures Record(m, a + b, fileDiff) == Record(Record(m, a, fileDiff), b, fileDiff)
    decreases |b|
  {
    if |b| == 0 {
      assert a + b == a;
    } else {
      RecordAppend(m, a, b[..|b| - 1], fileDiff);
      assert (a + b)[..|a + b| - 1] == a + b[..|b| - 1];
    }
  }

  /** Every different file's recorded diff is the diff of its two full paths: of the last item
      with that path when several share it. Entries of `m` no item names are kept. */
  lemma RecordHolds(m: map<string, seq<string>>, items: seq<DiffItem>, fileDiff: (string, string) -> seq<string>)
    ensures forall it :: it in items ==> it.path in Record(m, items, fileDiff)
    ensures forall p :: p in m ==> p in Record(m, items, fileDiff)
    ensures forall p :: p in Record(m, items, fileDiff) ==> p in m || exists it :: it in items && it.path == p
    ensures forall i :: 0 <= i < |items| && (forall j :: i < j < |items| ==> items[j].path != items[i].path) ==>
      Record(m, items, fileDiff)[items[i].path] == fileDiff(items[i].leftPath, items[i].rightPath)
    ensures forall p :: p in m && (forall it :: it in items ==> it.path != p) ==> Record(m, items, fileDiff)[p] == m[p]
  {
    RecordKeys(m, items, fileDiff);
    forall i | 0 <= i < |items| && (forall j :: i < j < |items| ==> items[j].path != items[i].path)
      ensures Record(m, items, fileDiff)[items[i].path] == fileDiff(items[i].leftPath, items[i].rightPath)
    {
      RecordLastWins(m, items, fileDiff, i);
    }
    forall p | p in m && (forall it :: it in items ==> it.path != p)
      ensures Record(m, items, fileDiff)[p] == m[p]
    {
      RecordKeeps(m, items, fileDiff, p);
    }
  }

  /** The recorded paths are those of `m` and of the items. */
  lemma {:induction false} RecordKeys(m: map<string, seq<string>>, items: seq<DiffItem>, fileDiff: (string, string) -> seq<string>)
    ensures forall it :: it in items ==> it.path in Record(m, items, fileDiff)
    ensures forall p :: p in m ==> p in Record(m, items, fileDiff)
    ensures forall p :: p in Record(m, items, fileDiff) ==> p in m || exists it :: it in items && it.path == p
    decreases |items|
  {
    if |items| > 0 {
      RecordKeys(m, items[..|items| - 1], fileDiff);
      assert forall it :: it in items[..|items| - 1] ==> it in items;
      assert forall it :: it in items ==> it in items[..|items| - 1] || it == items[|items| - 1];
    }
  }

  /** The item at `i`, when no later item has its path, fixes that path's entry. */
  lemma {:induction false} RecordLastWins(m: map<string, seq<string>>, items: seq<DiffItem>, fileDiff: (string, string) -> seq<string>, i: nat)
    requires i < |items| && forall j :: i < j < |items| ==> items[j].path != items[i].path
    ensures items[i].path in Record(m, items, fileDiff)
    ensures Record(m, items, fileDiff)[items[i].path] == fileDiff(items[i].leftPath, items[i].rightPath)
    decreases |items|
  {
    var n := |items| - 1;
    if i < n {
      assert items[..n][i] == items[i];
      assert forall j :: i < j < n ==> items[..n][j] == items[j];
      RecordLastWins(m, items[..n], fileDiff, i);
    }
  }

  /** A path of `m` that no item names keeps its entry. */
  lemma {:induction false} RecordKeeps(m: map<string, seq<string>>, items: seq<DiffItem>, fileDiff: (string, string) -> seq<string>, p: string)
    requires p in m && forall it :: it in items ==> it.path != p
    ensures p in Record(m, items, fileDiff) && Record(m, items, fileDiff)[p] == m[p]
    decreases |items|
  {
    if |items| > 0 {
      assert items[|items| - 1] in items;
      assert forall it :: it in items[..|items| - 1] ==> it in items;
      RecordKeeps(m, items[..|items| - 1], fileDiff, p);
    }
  }

  /** `DiffReporter`: the two compared paths, the report it collects and the unified diff of
      each different file, keyed by its relative path. */
  class DiffReporter {
    const path1: string
    const path2: string
    var reportData: Report
    var fileDiffs: map<string, seq<string>>

    constructor (path1: string, path2: string)
      ensures this.path1 == path1 && this.path2 == path2
      ensures reportData == NoReport && fileDiffs == map[]
    {
      this.path1 := path1;
      this.path2 := path2;
      reportData := NoReport;
      fileDiffs := map[];
    }

    /** `analyze_directories`, given the comparison tree of the two paths. */
    method AnalyzeDirectories(d: DirCmp, isDir: string -> bool, fileDiff: (string, string) -> seq<string>)
      modifies this
      ensures reportData == old(reportData).Plus(Collect(d, "", isDir))
      ensures fileDiffs == Record(old(fileDiffs), Collect(d, "", isDir).diffFiles, fileDiff)
    {
      CollectDiffData(d, "", isDir, fileDiff);
    }

    /** `_collect_diff_data`: appends this level's left-only, right-only, different and identical
        items, recording the diff of each different file, then each subdirectory's path followed
        by everything below it. */
    method CollectDiffData(d: DirCmp, rel: string, isDir: string -> bool, fileDiff: (string, string) -> seq<string>)
      modifies this
      ensures reportData == old(reportData).Plus(Collect(d, rel, isDir))
      ensures fileDiffs == Record(old(fileDiffs), Collect(d, rel, isDir).diffFiles, fileDiff)
      decreases d, 2
    {
      CollectLevel(d, rel, isDir, fileDiff);
      CollectSubdirs(d, rel, isDir, fileDiff);
      PlusAssociative(old(reportData), Own(d, rel, isDir), Children(d, |d.subdirs|, rel, isDir));
      RecordAppend(old(fileDiffs), Own(d, rel, isDir).diffFiles, Children(d, |d.subdirs|, rel, isDir).diffFiles, fileDiff);
    }

    /** The loop of `_collect_diff_data` over the common subdirectories: each one's relative path
        is appended to `subdirs` before its own tree is collected. */
    method CollectSubdirs(d: DirCmp, rel: string, isDir: string -> bool, fileDiff: (string, string) -> seq<string>)
      modifies this
      ensures reportData == old(reportData).Plus(Children(d, |d.subdirs|, rel, isDir))
      ensures fileDiffs == Record(old(fileDiffs), Children(d, |d.subdirs|, rel, isDir).diffFiles, fileDiff)
      decreases d, 1
    {
      assert old(reportData).Plus(NoReport) == old(reportData);
      for k := 0 to |d.subdirs|
        invariant reportData == old(reportData).Plus(Children(d, k, rel, isDir))
        invariant fileDiffs == Record(old(fileDiffs), Children(d, k, rel, isDir).diffFiles, fileDiff)
      {
        CollectChild(d, k, rel, isDir, fileDiff, old(reportData), old(fileDiffs));
      }
    }

    /** One turn of that loop: the subdirectory's path, then its tree. */
    method CollectChild(d: DirCmp, k: nat, rel: string, isDir: string -> bool, fileDiff: (string, string) -> seq<string>,
                        ghost r0: Report, ghost m0: map<string, seq<string>>)
      requires k < |d.subdirs|
      requires reportData == r0.Plus(Children(d, k, rel, isDir))
      requires fileDiffs == Record(m0, Children(d, k, rel, isDir).diffFiles, fileDiff)
      modifies this
      ensures reportData == r0.Plus(Children(d, k + 1, rel, isDir))
      ensures fileDiffs == Record(m0, Children(d, k + 1, rel, isDir).diffFiles, fileDiff)
      decreases d, 0
    {
      var (name, sub) := d.subdirs[k];
      var path := SubPath(rel, name);
      reportData := reportData.(subdirs := reportData.subdirs + [path]);
      CollectDiffData(sub, path, isDir, fileDiff);
      ChildStep(r0, m0, d, k, rel, isDir, fileDiff);
    }

    /** The four loops of `_collect_diff_data` over this level's names, each appending one
        item per name. */
    method CollectLevel(d: DirCmp, rel: string, isDir: string -> bool, fileDiff: (string, string) -> seq<string>)
      modifies this
      ensures reportData == old(reportData).Plus(Own(d, rel, isDir))
      ensures fileDiffs == Record(old(fileDiffs), Own(d, rel, isDir).diffFiles, fileDiff)
    {
      var left := LevelEntries(d.leftOnly, rel, d.left, isDir);
      var right := LevelEntries(d.rightOnly, rel, d.right, isDir);
      var items, diffs := LevelDiffs(d, rel, fileDiff, fileDiffs);
      var same: seq<string> := [];
      for k := 0 to |d.sameFiles|
        invariant same == SameItems(d, rel)[..k]
      {
        assert SameItems(d, rel)[..k + 1] == same + [PathJoin(rel, d.sameFiles[k])];
        same := same + [PathJoin(rel, d.sameFiles[k])];
      }
      assert SameItems(d, rel)[..|d.sameFiles|] == SameItems(d, rel);
      reportData := reportData.Plus(Report(left, right, items, same, []));
      fileDiffs := diffs;
    }

    /** The loop over the names found on one side only. */
    static method LevelEntries(names: seq<string>, rel: string, dir: string, isDir: string -> bool) returns (entries: seq<Entry>)
      ensures entries == OnlyEntries(names, rel, dir, isDir)
    {
      entries := [];
      for k := 0 to |names|
        invariant entries == OnlyEntries(names, rel, dir, isDir)[..k]
      {
        var full := PathJoin(dir, names[k]);
        var e := Entry(PathJoin(rel, names[k]), full, isDir(full));
        assert OnlyEntries(names, rel, dir, isDir)[..k + 1] == entries + [e];
        entries := entries + [e];
      }
      assert OnlyEntries(names, rel, dir, isDir)[..|names|] == OnlyEntries(names, rel, dir, isDir);
    }

    /** The loop over the different files, which also records each file's diff. */
    static method LevelDiffs(d: DirCmp, rel: string, fileDiff: (string, string) -> seq<string>, m: map<string, seq<string>>)
      returns (items: seq<DiffItem>, diffs: map<string, seq<string>>)
      ensures items == DiffItems(d, rel)
      ensures diffs == Record(m, items, fileDiff)
    {
      items, diffs := [], m;
      for k := 0 to |d.diffFiles|
        invariant items == DiffItems(d, rel)[..k]
        invariant diffs == Record(m, items, fileDiff)
      {
        var name := d.diffFiles[k];
        var item := DiffItem(PathJoin(rel, name), PathJoin(d.left, name), PathJoin(d.right, name));
        assert DiffItems(d, rel)[..k + 1] == items + [item];
        assert (items + [item])[..k] == items;
        items := items + [item];
        diffs := diffs[item.path := fileDiff(item.leftPath, item.rightPath)];
      }
      assert DiffItems(d, rel)[..|d.diffFiles|] == DiffItems(d, rel);
    }
  }

  lemma PlusAssociative(a: Report, b: Report, c: Report)
    ensures a.Plus(b).Plus(c) == a.Plus(b.Plus(c))
  {
  }

  /** One more subdirectory: its path, then its tree. */
  lemma ChildStep(r: Report, m: map<string, seq<string>>, d: DirCmp, k: nat, rel: string, isDir: string -> bool,
                  fileDiff: (string, string) -> seq<string>)
    requires k < |d.subdirs|
    ensures var path := SubPath(rel, d.subdirs[k].0);
      var sub := Collect(d.subdirs[k].1, path, isDir);
      && r.Plus(Children(d, k, rel, isDir)).(subdirs := r.Plus(Children(d, k, rel, isDir)).subdirs + [path]).Plus(sub)
         == r.Plus(Children(d, k + 1, rel, isDir))
      && Record(Record(m, Children(d, k, rel, isDir).diffFiles, fileDiff), sub.diffFiles, fileDiff)
         == Record(m, Children(d, k + 1, rel, isDir).diffFiles, fileDiff)
  {
    var path := SubPath(rel, d.subdirs[k].0);
    var sub := Collect(d.subdirs[k].1, path, isDir);
    PlusStep(r, Children(d, k, rel, isDir), path, sub);
    RecordAppend(m, Children(d, k, rel, isDir).diffFiles, sub.diffFiles, fileDiff);
  }

  lemma PlusStep(r: Report, done: Report, path: string, sub: Report)
    ensures r.Plus(done).(subdirs := r.Plus(done).subdirs + [path]).Plus(sub)
         == r.Plus(done.Plus(Report([], [], [], [], [path]).Plus(sub)))
    ensures done.Plus(Report([], [], [], [], [path]).Plus(sub)).diffFiles == done.diffFiles + sub.diffFiles
  {
  }

  // ------------------------------------------------------------------- paths of the collection

  /** The names `filecmp.dircmp` reports are plain directory entries: not empty, without a
      slash. */
  predicate PlainName(name: string) {
    name != "" && '/' !in name
  }

  predicate WellNamed(d: DirCmp)
    decreases d
  {
    (forall i :: 0 <= i < |d.diffFiles| ==> PlainName(d.diffFiles[i]))
    && forall i :: 0 <= i < |d.subdirs| ==> PlainName(d.subdirs[i].0) && WellNamed(d.subdirs[i].1)
  }

  /** A relative path as the collection builds them: empty at the top, else not ending in a
      slash. */
  predicate ProperRel(rel: string) {
    rel == "" || rel[|rel| - 1] != '/'
  }

  /** Every path's parent is `rel` or a path listed before it. */
  ghost predicate ParentsFirst(s: seq<string>, rel: string, parentOf: string -> string) {
    forall j :: 0 <= j < |s| ==> parentOf(s[j]) == rel || parentOf(s[j]) in s[..j]
  }

  /** The directory of a name joined below `rel` is `rel`, and the join is again proper. */
  lemma JoinBelow(rel: string, name: string)
    requires ProperRel(rel) && PlainName(name)
    ensures DirName(PathJoin(rel, name)) == rel && DirName(SubPath(rel, name)) == rel
    ensures ProperRel(SubPath(rel, name))
  {
    if rel == "" {
      assert !StartsWith(name, "/") by { assert name[0] != '/'; }
      assert PathJoin(rel, name) == name;
      DirNameOfName(name);
    } else {
      DirNameOfJoin(rel, name);
    }
  }

  lemma ParentsFirstConcat(a: seq<string>, path: string, b: seq<string>, rel: string, parentOf: string -> string)
    requires ParentsFirst(a, rel, parentOf) && parentOf(path) == rel && ParentsFirst(b, path, parentOf)
    ensures ParentsFirst(a + ([path] + b), rel, parentOf)
  {
    var s := a + ([path] + b);
    forall j | 0 <= j < |s| && parentOf(s[j]) != rel
      ensures parentOf(s[j]) in s[..j]
    {
      if j < |a| {
        assert s[..j] == a[..j];
      } else if j > |a| {
        var jb := j - |a| - 1;
        assert s[j] == b[jb];
        assert s[..j] == a + [path] + b[..jb];
      }
    }
  }

  /** `parentOf` takes the relative path of a subdirectory back to its parent's. */
  ghost predicate UndoesSubPath(parentOf: string -> string) {
    forall rel, name :: ProperRel(rel) && PlainName(name) ==>
      parentOf(SubPath(rel, name)) == rel && parentOf(PathJoin(rel, name)) == rel && ProperRel(SubPath(rel, name))
  }

  lemma {:induction false} CollectParentsFirstBy(d: DirCmp, rel: string, isDir: string -> bool, parentOf: string -> string)
    requires WellNamed(d) && ProperRel(rel) && UndoesSubPath(parentOf)
    ensures ParentsFirst(Collect(d, rel, isDir).subdirs, rel, parentOf)
    decreases d, |d.subdirs| + 1
  {
    ChildrenParentsFirst(d, |d.subdirs|, rel, isDir, parentOf);
    assert Collect(d, rel, isDir).subdirs == Children(d, |d.subdirs|, rel, isDir).subdirs;
  }

  lemma {:induction false} ChildrenParentsFirst(d: DirCmp, n: nat, rel: string, isDir: string -> bool, parentOf: string -> string)
    requires n <= |d.subdirs| && WellNamed(d) && ProperRel(rel) && UndoesSubPath(parentOf)
    ensures ParentsFirst(Children(d, n, rel, isDir).subdirs, rel, parentOf)
    decreases d, n
  {
    if n > 0 {
      var (name, sub) := d.subdirs[n - 1];
      var path := SubPath(rel, name);
      ChildrenParentsFirst(d, n - 1, rel, isDir, parentOf);
      CollectParentsFirstBy(sub, path, isDir, parentOf);
      var a, b := Children(d, n - 1, rel, isDir).subdirs, Collect(sub, path, isDir).subdirs;
      ParentsFirstConcat(a, path, b, rel, parentOf);
      assert Children(d, n, rel, isDir).subdirs == a + ([path] + b);
    }
  }

  /** `subdirs` lists parents before children: the directory part of every listed subdirectory
      is the starting path or a subdirectory listed earlier, so the listing is in pre-order. */
  lemma CollectParentsFirst(d: DirCmp, rel: string, isDir: string -> bool)
    requires WellNamed(d) && ProperRel(rel)
    ensures ParentsFirst(Collect(d, rel, isDir).subdirs, rel, DirName)
  {
    DirNameUndoesSubPath();
    CollectParentsFirstBy(d, rel, isDir, DirName);
  }

  lemma DirNameUndoesSubPath()
    ensures UndoesSubPath(DirName)
  {
    forall r, name | ProperRel(r) && PlainName(name)
      ensures DirName(SubPath(r, name)) == r && DirName(PathJoin(r, name)) == r && ProperRel(SubPath(r, name))
    {
      JoinBelow(r, name);
    }
  }

  /** Every different file's parent is the starting path or a listed subdirectory. */
  ghost predicate DiffsUnderListed(r: Report, rel: string, parentOf: string -> string) {
    forall i :: 0 <= i < |r.diffFiles| ==> parentOf(r.diffFiles[i].path) == rel || parentOf(r.diffFiles[i].path) in r.subdirs
  }

  lemma {:induction false} CollectDiffsUnderBy(d: DirCmp, rel: string, isDir: string -> bool, parentOf: string -> string)
    requires WellNamed(d) && ProperRel(rel) && UndoesSubPath(parentOf)
    ensures DiffsUnderListed(Collect(d, rel, isDir), rel, parentOf)
    decreases d, |d.subdirs| + 1
  {
    var own, kids := Own(d, rel, isDir), Children(d, |d.subdirs|, rel, isDir);
    ChildrenDiffsUnder(d, |d.subdirs|, rel, isDir, parentOf);
    var r := Collect(d, rel, isDir);
    assert r == own.Plus(kids);
    forall i | 0 <= i < |r.diffFiles|
      ensures parentOf(r.diffFiles[i].path) == rel || parentOf(r.diffFiles[i].path) in r.subdirs
    {
      if i < |own.diffFiles| {
        assert r.diffFiles[i].path == PathJoin(rel, d.diffFiles[i]);
      } else {
        assert r.diffFiles[i] == kids.diffFiles[i - |own.diffFiles|];
        assert r.subdirs == kids.subdirs;
      }
    }
  }

  lemma {:induction false} ChildrenDiffsUnder(d: DirCmp, n: nat, rel: string, isDir: string -> bool, parentOf: string -> string)
    requires n <= |d.subdirs| && WellNamed(d) && ProperRel(rel) && UndoesSubPath(parentOf)
    ensures DiffsUnderListed(Children(d, n, rel, isDir), rel, parentOf)
    decreases d, n
  {
    if n > 0 {
      var (name, sub) := d.subdirs[n - 1];
      var path := SubPath(rel, name);
      ChildrenDiffsUnder(d, n - 1, rel, isDir, parentOf);
      CollectDiffsUnderBy(sub, path, isDir, parentOf);
      DiffsUnderJoin(Children(d, n - 1, rel, isDir), Collect(sub, path, isDir), rel, path, parentOf);
    }
  }

  /** A report followed by a subdirectory's path and that subdirectory's report keeps every
      different file under a listed directory. */
  lemma DiffsUnderJoin(a: Report, b: Report, rel: string, path: string, parentOf: string -> string)
    requires DiffsUnderListed(a, rel, parentOf) && DiffsUnderListed(b, path, parentOf)
    ensures DiffsUnderListed(a.Plus(Report([], [], [], [], [path]).Plus(b)), rel, parentOf)
  {
    var r := a.Plus(Report([], [], [], [], [path]).Plus(b));
    assert r.diffFiles == a.diffFiles + b.diffFiles;
    assert r.subdirs == a.subdirs + ([path] + b.subdirs);
    forall i | 0 <= i < |r.diffFiles|
      ensures parentOf(r.diffFiles[i].path) == rel || parentOf(r.diffFiles[i].path) in r.subdirs
    {
      if i >= |a.diffFiles| {
        assert r.diffFiles[i] == b.diffFiles[i - |a.diffFiles|];
      }
    }
  }

  /** Every different file of the whole tree falls in the group of "." or of a subdirectory the
      collection listed. */
  lemma DiffGroupsAreListed(d: DirCmp, isDir: string -> bool)
    requires WellNamed(d)
    ensures var r := Collect(d, "", isDir);
      forall i :: 0 <= i < |r.diffFiles| ==> DirKey(r.diffFiles[i].path) == "." || DirKey(r.diffFiles[i].path) in r.subdirs
  {
    DirNameUndoesSubPath();
    CollectDiffsUnderBy(d, "", isDir, DirName);
  }
}
