/** The counting and layout parts of `compare-files/folder1-diffs.py`: the statistics of a
    unified diff, the side-by-side view of two files, and the per-file rows and totals of the
    tabular summary. Reading files, `difflib`, `os.stat` and printing are inputs or left out. */
module FolderDiffs {
  import opened Wrappers
  import opened PyStr
  import opened DiffLines
  import Ansi
  import Ordering
  import Seqs
  import FolderCompare

  // --------------------------------------------------------------------------- get_diff_stats

  /** The dict `get_diff_stats` returns: the counts, or `'?'` in every field and the error text
      when reading failed. */
  datatype DiffStats =
    | Counted(additions: nat, deletions: nat, totalChanges: nat, lines1: nat, lines2: nat)
    | Unreadable(error: string)

  /** `sum(1 for line in diff if line.startswith(sign) and not line.startswith(header))` */
  function CountSigned(diff: seq<string>, sign: string, header: string): (n: nat)
    ensures n <= |diff|
    decreases |diff|
  {
    if |diff| == 0 then 0
    else
      var line := diff[|diff| - 1];
      CountSigned(diff[..|diff| - 1], sign, header) + (if StartsWith(line, sign) && !StartsWith(line, header) then 1 else 0)
  }

  /** The two sums count exactly the additions and deletions `_get_diff_summary` of
      `git-diff.py` counts. */
  lemma {:induction false} CountSignedIsBucket(diff: seq<string>)
    ensures CountSigned(diff, "+", "+++") == CountKind(diff, Addition)
    ensures CountSigned(diff, "-", "---") == CountKind(diff, Deletion)
    decreases |diff|
  {
    if |diff| > 0 {
      var line := diff[|diff| - 1];
      CountSignedIsBucket(diff[..|diff| - 1]);
      if StartsWith(line, "-") {
        assert line[0] == '-';
        assert !StartsWith(line, "+");
      }
    }
  }

  /** `get_diff_stats` on the result of reading the two files; `unifiedDiff` stands for
      `difflib.unified_diff`. */
  function GetDiffStats(read: Result<(seq<string>, seq<string>), string>,
                        unifiedDiff: (seq<string>, seq<string>) -> seq<string>): (r: DiffStats)
    ensures read.Err? ==> r == Unreadable(read.error)
    ensures read.Ok? ==>
      r.Counted? && r.totalChanges == r.additions + r.deletions
      && r.lines1 == |read.value.0| && r.lines2 == |read.value.1|
  {
    match read
    case Err(e) => Unreadable(e)
    case Ok((lines1, lines2)) =>
      var diff := unifiedDiff(lines1, lines2);
      var additions := CountSigned(diff, "+", "+++");
      var deletions := CountSigned(diff, "-", "---");
      Counted(additions, deletions, additions + deletions, |lines1|, |lines2|)
  }

  /** The counted additions and deletions are the buckets of the diff. */
  lemma DiffStatsAreBuckets(read: Result<(seq<string>, seq<string>), string>,
                            unifiedDiff: (seq<string>, seq<string>) -> seq<string>)
    requires read.Ok?
    ensures var diff := unifiedDiff(read.value.0, read.value.1);
      GetDiffStats(read, unifiedDiff).additions == CountKind(diff, Addition)
      && GetDiffStats(read, unifiedDiff).deletions == CountKind(diff, Deletion)
  {
    CountSignedIsBucket(unifiedDiff(read.value.0, read.value.1));
  }

  // ------------------------------------------------------------------ print_side_by_side_diff

  /** `(terminal_width - 3) // 2`: Python's floor division, which `/` matches for a positive
      divisor. */
  function ColumnWidth(terminalWidth: int): int {
    (terminalWidth - 3) / 2
  }

  /** `output_line`: written to the output file with its escape codes stripped, or printed as it
      is. */
  function Emit(line: string, toFile: bool): string {
    if toFile then Ansi.StripAnsi(line) else line
  }

  /** One side of a row: the line without its trailing newlines, cut and left-justified. */
  function Cell(line: string, width: int): string {
    LJust(Cut(RStripChar(line, '\n'), width), width)
  }

  function PlainRow(l1: string, l2: string, width: int): string {
    Cell(l1, width) + " | " + Cell(l2, width)
  }

  /** The row for the `i`-th lines of both files: on the console, a differing pair is coloured
      green on the right when the left line is blank, red on the left when the right line is
      blank, and yellow on both sides otherwise; equal pairs, and every pair written to the
      file, go through `output_line`. */
  function SideRow(l1: string, l2: string, width: int, toFile: bool): string {
    if l1 != l2 && !toFile then
      if IsBlank(l1) then Cell(l1, width) + " | " + Wrap(Green, Cell(l2, width))
      else if IsBlank(l2) then Wrap(Red, Cell(l1, width)) + " | " + Cell(l2, width)
      else Wrap(Yellow, Cell(l1, width)) + " | " + Wrap(Yellow, Cell(l2, width))
    else Emit(PlainRow(l1, l2, width), toFile)
  }

  /** The four lines written before the rows. */
  function Header(relPath: string, terminalWidth: int, toFile: bool): seq<string> {
    var w := ColumnWidth(terminalWidth);
    [Emit("Comparing: " + relPath, toFile), Emit(Times('-', terminalWidth), toFile),
     Emit(Center("LEFT", w) + " | " + Center("RIGHT", w), toFile), Emit(Times('-', terminalWidth), toFile)]
  }

  /** One row per line of the longer file, the shorter one read as empty past its end. */
  function SideRows(f1: seq<string>, f2: seq<string>, width: int, toFile: bool): (r: seq<string>)
    ensures |r| == (if |f1| >= |f2| then |f1| else |f2|)
  {
    var n := if |f1| >= |f2| then |f1| else |f2|;
    seq(n, i requires 0 <= i < n => SideRow(LineAt(f1, i), LineAt(f2, i), width, toFile))
  }

  /** `print_side_by_side_diff`, returning the lines it outputs. A read error is printed (never
      written to the file); identical files give nothing; otherwise the header, and, unless the
      unified diff is empty, one row per line of the longer file and a closing rule. */
  method PrintSideBySideDiff(read: Result<(seq<string>, seq<string>), string>, relPath: string, terminalWidth: int,
                             toFile: bool, unifiedDiff: (seq<string>, seq<string>) -> seq<string>)
    returns (out: seq<string>)
    ensures read.Err? ==> out == ["Error reading files: " + read.error]
    ensures read.Ok? && read.value.0 == read.value.1 ==> out == []
    ensures read.Ok? && read.value.0 != read.value.1 && |unifiedDiff(read.value.0, read.value.1)| == 0 ==>
      out == Header(relPath, terminalWidth, toFile)
    ensures read.Ok? && read.value.0 != read.value.1 && |unifiedDiff(read.value.0, read.value.1)| > 0 ==>
      out == Header(relPath, terminalWidth, toFile)
             + SideRows(read.value.0, read.value.1, ColumnWidth(terminalWidth), toFile)
             + [Emit(Times('-', terminalWidth), toFile)]
  {
    if read.Err? {
      return ["Error reading files: " + read.error];
    }
    var lines1, lines2 := read.value.0, read.value.1;
    if lines1 == lines2 {
      return [];
    }
    var colWidth := (terminalWidth - 3) / 2;
    out := Header(relPath, terminalWidth, toFile);
    var diffLines := unifiedDiff(lines1, lines2);
    if |diffLines| == 0 {
      return;
    }
    var maxLines := if |lines1| >= |lines2| then |lines1| else |lines2|;
    lines1 := PadLines(lines1, maxLines);
    lines2 := PadLines(lines2, maxLines);
    var rows := FormatRows(lines1, lines2, read.value.0, read.value.1, colWidth, toFile);
    out := out + rows + [Emit(Times('-', terminalWidth), toFile)];
  }

  /** The row loop over the padded lines. */
  method FormatRows(lines1: seq<string>, lines2: seq<string>, ghost f1: seq<string>, ghost f2: seq<string>,
                    colWidth: int, toFile: bool)
    returns (rows: seq<string>)
    requires |lines1| == |lines2| == (if |f1| >= |f2| then |f1| else |f2|)
    requires forall i :: 0 <= i < |lines1| ==> lines1[i] == LineAt(f1, i) && lines2[i] == LineAt(f2, i)
    ensures rows == SideRows(f1, f2, colWidth, toFile)
  {
    ghost var all := SideRows(f1, f2, colWidth, toFile);
    rows := [];
    for i := 0 to |lines1|
      invariant rows == all[..i]
    {
      var r := FormatSideRow(lines1[i], lines2[i], colWidth, toFile);
      assert r == all[i];
      Seqs.PrefixStep(all, i);
      rows := rows + [r];
    }
    assert all[..|lines1|] == all;
  }

  /** The two `while` loops that append empty lines until a list is `n` long. */
  method PadLines(lines: seq<string>, n: nat) returns (padded: seq<string>)
    requires |lines| <= n
    ensures |padded| == n && forall i :: 0 <= i < n ==> padded[i] == LineAt(lines, i)
  {
    padded := lines;
    while |padded| < n
      invariant |lines| <= |padded| <= n
      invariant forall i :: 0 <= i < |padded| ==> padded[i] == LineAt(lines, i)
      decreases n - |padded|
    {
      padded := padded + [""];
    }
  }

  /** The body of the row loop: the cells, then the colour choice. */
  method FormatSideRow(l1: string, l2: string, colWidth: int, toFile: bool) returns (row: string)
    ensures row == SideRow(l1, l2, colWidth, toFile)
  {
    var left := RStripChar(l1, '\n');
    var right := RStripChar(l2, '\n');
    if |left| > colWidth {
      left := SliceTo(left, colWidth - 3) + "...";
    }
    if |right| > colWidth {
      right := SliceTo(right, colWidth - 3) + "...";
    }
    left := LJust(left, colWidth);
    right := LJust(right, colWidth);
    if l1 != l2 {
      if IsBlank(l1) {
        row := if toFile then Ansi.StripAnsi(left + " | " + right) else left + " | " + Wrap(Green, right);
      } else if IsBlank(l2) {
        row := if toFile then Ansi.StripAnsi(left + " | " + right) else Wrap(Red, left) + " | " + right;
      } else {
        row := if toFile then Ansi.StripAnsi(left + " | " + right)
               else Wrap(Yellow, left) + " | " + Wrap(Yellow, right);
      }
    } else {
      row := Emit(left + " | " + right, toFile);
    }
  }

  /** A cell is exactly the column width when that is at least 3, and brings in no ESC. */
  lemma CellLayout(line: string, width: int)
    ensures width >= 3 ==> |Cell(line, width)| == width
    ensures Ansi.Esc !in line ==> Ansi.Esc !in Cell(line, width)
  {
    var s := RStripChar(line, '\n');
    var c := Cut(s, width);
    if Ansi.Esc in c {
      var k :| 0 <= k < |c| && c[k] == Ansi.Esc;
      if |s| > width {
        assert c == SliceTo(s, width - 3) + "...";
        assert k < |SliceTo(s, width - 3)|;
        assert c[k] in s;
      } else {
        assert c[k] in s;
      }
      assert Ansi.Esc in line;
    }
  }

  /** Every row is twice the column width plus the separator, whatever the colours. */
  lemma PlainRowWidth(l1: string, l2: string, width: int)
    requires width >= 3
    ensures |PlainRow(l1, l2, width)| == 2 * width + 3
  {
    CellLayout(l1, width);
    CellLayout(l2, width);
  }

  /** For lines without ESC, the row written to the file is the plain row, and stripping the
      colours from the console row gives that same row. */
  lemma ConsoleRowStripsToFileRow(l1: string, l2: string, width: int)
    requires Ansi.Esc !in l1 && Ansi.Esc !in l2
    ensures SideRow(l1, l2, width, true) == PlainRow(l1, l2, width)
    ensures Ansi.StripAnsi(SideRow(l1, l2, width, false)) == PlainRow(l1, l2, width)
  {
    var a, b := Cell(l1, width), Cell(l2, width);
    CellLayout(l1, width);
    CellLayout(l2, width);
    PlainRowStrips(a, b);
    if l1 != l2 {
      if IsBlank(l1) {
        GreenRowStrips(a, b);
      } else if IsBlank(l2) {
        RedRowStrips(a, b);
      } else {
        YellowRowStrips(a, b);
      }
    }
  }

  /** The plain row holds no ESC and so strips to itself. */
  lemma PlainRowStrips(a: string, b: string)
    requires Ansi.Esc !in a && Ansi.Esc !in b
    ensures Ansi.StripAnsi(a + " | " + b) == a + " | " + b
  {
    assert Ansi.Esc !in a + " | " + b;
    Ansi.StripAnsiWithoutEsc(a + " | " + b);
  }

  /** An added line: the right cell is green. */
  lemma GreenRowStrips(a: string, b: string)
    requires Ansi.Esc !in a && Ansi.Esc !in b
    ensures Ansi.StripAnsi(a + " | " + Wrap(Green, b)) == a + " | " + b
  {
    Ansi.StripAnsiKeepsPlainPrefix(a + " | ", Wrap(Green, b));
    StripsToCell('2', b);
  }

  /** A deleted line: the left cell is red. */
  lemma RedRowStrips(a: string, b: string)
    requires Ansi.Esc !in a && Ansi.Esc !in b
    ensures Ansi.StripAnsi(Wrap(Red, a) + " | " + b) == a + " | " + b
  {
    Concat3(Wrap(Red, a), " | ", b);
    StripUndoesWrapping('1', a, " | " + b);
    assert Ansi.Esc !in " | " + b;
    Ansi.StripAnsiWithoutEsc(" | " + b);
    Concat3(a, " | ", b);
  }

  /** A changed line: both cells are yellow. */
  lemma YellowRowStrips(a: string, b: string)
    requires Ansi.Esc !in a && Ansi.Esc !in b
    ensures Ansi.StripAnsi(Wrap(Yellow, a) + " | " + Wrap(Yellow, b)) == a + " | " + b
  {
    Concat3(Wrap(Yellow, a), " | ", Wrap(Yellow, b));
    StripUndoesWrapping('3', a, " | " + Wrap(Yellow, b));
    Ansi.StripAnsiKeepsPlainPrefix(" | ", Wrap(Yellow, b));
    StripsToCell('3', b);
    Concat3(a, " | ", b);
  }

  /** A wrapped cell on its own strips to the cell. */
  lemma StripsToCell(d: char, b: string)
    requires Ansi.IsParameter(d) && Ansi.Esc !in b
    ensures Ansi.StripAnsi(Wrap([Ansi.Esc, '[', '3', d, 'm'], b)) == b
  {
    StripUndoesWrapping(d, b, "");
    assert Wrap([Ansi.Esc, '[', '3', d, 'm'], b) + "" == Wrap([Ansi.Esc, '[', '3', d, 'm'], b);
    assert Ansi.StripAnsi("") == "";
  }

  // -------------------------------------------------------------------- print_tabular_summary

  datatype Status = Identical | Modified | Removed | Added | Error

  /** What opening both files of a key gives: an exception, equal contents with their sizes, or
      different contents with their sizes and the diff statistics. */
  datatype Probe = ReadError | SameBytes(size1: nat, size2: nat) | OtherBytes(size1: nat, size2: nat, stats: DiffStats)

  /** A size column: a byte count, or the marks "-" and "?". */
  datatype SizeCell = Bytes(n: nat) | Mark(text: string)

  datatype SummaryRow = SummaryRow(displayPath: string, status: Status, size1: SizeCell, size2: SizeCell,
                                   diffInfo: string, changes: string)

  /** A row and what it adds to the two change totals. */
  datatype Outcome = Outcome(row: SummaryRow, additions: nat, deletions: nat)

  /** The counters `print_tabular_summary` keeps in `stats`. */
  datatype Totals = Totals(totalFiles: nat, modified: nat, added: nat, removed: nat, identical: nat,
                           totalAdditions: nat, totalDeletions: nat)

  /** Python truthiness of `dict.get`: present and not empty. */
  predicate Truthy(p: Option<string>) {
    p.Some? && p.value != ""
  }

  /** A key longer than 40 characters is shown as its first 37 and "...". */
  function DisplayPath(rel: string): (r: string)
    ensures |r| <= 40
    ensures |rel| <= 40 ==> r == rel
    ensures |rel| > 40 ==> |r| == 40 && r[..37] == rel[..37]
  {
    if |rel| > 40 then SliceTo(rel, 37) + "..." else rel
  }

  function Get(m: map<string, string>, k: string): Option<string> {
    if k in m then Some(m[k]) else None
  }

  /** The row of one key: both paths present gives the outcome of opening them, only the left
      one "REMOVED", anything else "ADDED". */
  function OutcomeFor(rel: string, fromPath: Option<string>, toPath: Option<string>,
                      probe: (string, string) -> Probe, sizeOf: string -> nat): (o: Outcome)
    requires Truthy(fromPath) || Truthy(toPath)
  {
    var display := DisplayPath(rel);
    if Truthy(fromPath) && Truthy(toPath) then
      match probe(fromPath.value, toPath.value)
      case ReadError => Outcome(SummaryRow(display, Error, Mark("?"), Mark("?"), "?/?", "?"), 0, 0)
      case SameBytes(s1, s2) => Outcome(SummaryRow(display, Identical, Bytes(s1), Bytes(s2), "", "0"), 0, 0)
      case OtherBytes(s1, s2, stats) =>
        if stats.Counted? then
          Outcome(SummaryRow(display, Modified, Bytes(s1), Bytes(s2),
                             "+" + NatToString(stats.additions) + "/-" + NatToString(stats.deletions),
                             NatToString(stats.totalChanges)), stats.additions, stats.deletions)
        else Outcome(SummaryRow(display, Modified, Bytes(s1), Bytes(s2), "?/?", "?"), 0, 0)
    else if Truthy(fromPath) then
      Outcome(SummaryRow(display, Removed, Bytes(sizeOf(fromPath.value)), Mark("-"), "", "?"), 0, 0)
    else
      Outcome(SummaryRow(display, Added, Mark("-"), Bytes(sizeOf(toPath.value)), "", "?"), 0, 0)
  }

  /** Which branch a key takes: ADDED exactly when there is no left file, REMOVED exactly when
      there is a left file and no right one, and one of the three outcomes of opening both
      files otherwise; only a modified file brings changes. */
  lemma OutcomeStatus(rel: string, fromPath: Option<string>, toPath: Option<string>,
                      probe: (string, string) -> Probe, sizeOf: string -> nat)
    requires Truthy(fromPath) || Truthy(toPath)
    ensures var o := OutcomeFor(rel, fromPath, toPath, probe, sizeOf);
      o.row.displayPath == DisplayPath(rel)
      && (o.row.status == Added <==> !Truthy(fromPath))
      && (o.row.status == Removed <==> Truthy(fromPath) && !Truthy(toPath))
      && (o.row.status in {Identical, Modified, Error} <==> Truthy(fromPath) && Truthy(toPath))
      && ChangesOnlyIfModified(o)
  {
  }

  function Outcomes(keys: seq<string>, fromFiles: map<string, string>, toFiles: map<string, string>,
                    probe: (string, string) -> Probe, sizeOf: string -> nat): (os: seq<Outcome>)
    requires forall k :: k in keys ==> Truthy(Get(fromFiles, k)) || Truthy(Get(toFiles, k))
    ensures |os| == |keys|
  {
    seq(|keys|, i requires 0 <= i < |keys| => OutcomeFor(keys[i], Get(fromFiles, keys[i]), Get(toFiles, keys[i]), probe, sizeOf))
  }

  function CountStatus(os: seq<Outcome>, s: Status): (n: nat)
    ensures n <= |os|
    decreases |os|
  {
    if |os| == 0 then 0
    else CountStatus(os[..|os| - 1], s) + (if os[|os| - 1].row.status == s then 1 else 0)
  }

  function SumAdditions(os: seq<Outcome>): nat
    decreases |os|
  {
    if |os| == 0 then 0 else SumAdditions(os[..|os| - 1]) + os[|os| - 1].additions
  }

  function SumDeletions(os: seq<Outcome>): nat
    decreases |os|
  {
    if |os| == 0 then 0 else SumDeletions(os[..|os| - 1]) + os[|os| - 1].deletions
  }

  /** Only a modified file brings changes. */
  predicate ChangesOnlyIfModified(o: Outcome) {
    o.row.status != Modified ==> o.additions == 0 && o.deletions == 0
  }

  /** The counters after one more row: the counter of its status goes up, and a modified file
      adds its changes to the totals; a row whose files could not be opened changes nothing. */
  function Tally(t: Totals, o: Outcome): Totals {
    match o.row.status
    case Identical => t.(identical := t.identical + 1)
    case Modified => t.(modified := t.modified + 1, totalAdditions := t.totalAdditions + o.additions,
                        totalDeletions := t.totalDeletions + o.deletions)
    case Removed => t.(removed := t.removed + 1)
    case Added => t.(added := t.added + 1)
    case Error => t
  }

  /** The counters after the rows `os`, starting from zero. */
  function TotalsOf(totalFiles: nat, os: seq<Outcome>): Totals
    decreases |os|
  {
    if |os| == 0 then Totals(totalFiles, 0, 0, 0, 0, 0, 0)
    else Tally(TotalsOf(totalFiles, os[..|os| - 1]), os[|os| - 1])
  }

  /** Each counter counts the rows of its status, and the change totals sum the rows' changes. */
  lemma {:induction false} TotalsCountRows(totalFiles: nat, os: seq<Outcome>)
    requires forall i :: 0 <= i < |os| ==> ChangesOnlyIfModified(os[i])
    ensures TotalsOf(totalFiles, os) == Totals(totalFiles, CountStatus(os, Modified), CountStatus(os, Added),
      CountStatus(os, Removed), CountStatus(os, Identical), SumAdditions(os), SumDeletions(os))
    decreases |os|
  {
    if |os| > 0 {
      var init := os[..|os| - 1];
      assert forall i :: 0 <= i < |init| ==> ChangesOnlyIfModified(init[i]) by {
        forall i | 0 <= i < |init| ensures ChangesOnlyIfModified(init[i]) {
          assert init[i] == os[i];
        }
      }
      TotalsCountRows(totalFiles, init);
      assert ChangesOnlyIfModified(os[|os| - 1]);
    }
  }

  /** `print_tabular_summary`: the keys of either side in ascending order, one row per key, and
      the counters of the summary. Every path the walk reports is non-empty. */
  method PrintTabularSummary(fromFiles: map<string, string>, toFiles: map<string, string>,
                             probe: (string, string) -> Probe, sizeOf: string -> nat)
    returns (keys: seq<string>, rows: seq<SummaryRow>, stats: Totals)
    requires forall k :: k in fromFiles ==> fromFiles[k] != ""
    requires forall k :: k in toFiles ==> toFiles[k] != ""
    ensures Ordering.Sorted(keys)
    ensures forall k :: k in keys <==> k in fromFiles || k in toFiles
    ensures |rows| == |keys|
    ensures forall i :: 0 <= i < |keys| ==> rows[i] == Outcomes(keys, fromFiles, toFiles, probe, sizeOf)[i].row
    ensures stats == TotalsOf(|keys|, Outcomes(keys, fromFiles, toFiles, probe, sizeOf))
  {
    keys := Ordering.SortedUnion(fromFiles.Keys, toFiles.Keys);
    assert forall k :: k in keys ==> Truthy(Get(fromFiles, k)) || Truthy(Get(toFiles, k));
    rows, stats := SummaryRows(keys, fromFiles, toFiles, probe, sizeOf);
  }

  /** The loop over the sorted keys. */
  method SummaryRows(keys: seq<string>, fromFiles: map<string, string>, toFiles: map<string, string>,
                     probe: (string, string) -> Probe, sizeOf: string -> nat)
    returns (rows: seq<SummaryRow>, stats: Totals)
    requires forall k :: k in keys ==> Truthy(Get(fromFiles, k)) || Truthy(Get(toFiles, k))
    ensures rows == RowsOf(Outcomes(keys, fromFiles, toFiles, probe, sizeOf))
    ensures stats == TotalsOf(|keys|, Outcomes(keys, fromFiles, toFiles, probe, sizeOf))
  {
    ghost var all := Outcomes(keys, fromFiles, toFiles, probe, sizeOf);
    stats := Totals(|keys|, 0, 0, 0, 0, 0, 0);
    rows := [];
    for i := 0 to |keys|
      invariant rows == RowsOf(all[..i])
      invariant stats == TotalsOf(|keys|, all[..i])
    {
      var rel := keys[i];
      var o := SummaryStep(rel, Get(fromFiles, rel), Get(toFiles, rel), probe, sizeOf);
      assert o == all[i];
      TotalsStep(|keys|, all, i);
      RowsOfStep(all, i);
      stats := CountRow(stats, o);
      rows := rows + [o.row];
    }
    assert all[..|keys|] == all;
  }

  /** The rows of the outcomes, in order. */
  function RowsOf(os: seq<Outcome>): (rows: seq<SummaryRow>)
    ensures |rows| == |os| && forall i :: 0 <= i < |os| ==> rows[i] == os[i].row
    decreases |os|
  {
    if |os| == 0 then [] else RowsOf(os[..|os| - 1]) + [os[|os| - 1].row]
  }

  lemma RowsOfStep(os: seq<Outcome>, i: nat)
    requires i < |os|
    ensures RowsOf(os[..i + 1]) == RowsOf(os[..i]) + [os[i].row]
  {
    assert os[..i + 1][..i] == os[..i];
  }

  /** The increments of `stats` for one row. */
  method CountRow(stats: Totals, o: Outcome) returns (t: Totals)
    ensures t == Tally(stats, o)
  {
    t := stats;
    match o.row.status {
      case Identical => t := t.(identical := t.identical + 1);
      case Modified =>
        t := t.(modified := t.modified + 1, totalAdditions := t.totalAdditions + o.additions,
                totalDeletions := t.totalDeletions + o.deletions);
      case Removed => t := t.(removed := t.removed + 1);
      case Added => t := t.(added := t.added + 1);
      case Error =>
    }
  }

  lemma TotalsStep(totalFiles: nat, os: seq<Outcome>, i: nat)
    requires i < |os|
    ensures TotalsOf(totalFiles, os[..i + 1]) == Tally(TotalsOf(totalFiles, os[..i]), os[i])
  {
    assert os[..i + 1][..i] == os[..i];
  }

  /** The body of the loop of `print_tabular_summary` for one key. */
  method SummaryStep(rel: string, fromPath: Option<string>, toPath: Option<string>,
                     probe: (string, string) -> Probe, sizeOf: string -> nat)
    returns (o: Outcome)
    requires Truthy(fromPath) || Truthy(toPath)
    ensures o == OutcomeFor(rel, fromPath, toPath, probe, sizeOf)
  {
    var display := if |rel| > 40 then SliceTo(rel, 37) + "..." else rel;
    if fromPath.Some? && fromPath.value != "" && toPath.Some? && toPath.value != "" {
      var p := probe(fromPath.value, toPath.value);
      if p.ReadError? {
        o := Outcome(SummaryRow(display, Error, Mark("?"), Mark("?"), "?/?", "?"), 0, 0);
      } else if p.SameBytes? {
        o := Outcome(SummaryRow(display, Identical, Bytes(p.size1), Bytes(p.size2), "", "0"), 0, 0);
      } else if p.stats.Counted? {
        var changes := NatToString(p.stats.totalChanges);
        var diffInfo := "+" + NatToString(p.stats.additions) + "/-" + NatToString(p.stats.deletions);
        o := Outcome(SummaryRow(display, Modified, Bytes(p.size1), Bytes(p.size2), diffInfo, changes),
                     p.stats.additions, p.stats.deletions);
      } else {
        o := Outcome(SummaryRow(display, Modified, Bytes(p.size1), Bytes(p.size2), "?/?", "?"), 0, 0);
      }
    } else if fromPath.Some? && fromPath.value != "" {
      o := Outcome(SummaryRow(display, Removed, Bytes(sizeOf(fromPath.value)), Mark("-"), "", "?"), 0, 0);
    } else {
      o := Outcome(SummaryRow(display, Added, Mark("-"), Bytes(sizeOf(toPath.value)), "", "?"), 0, 0);
    }
  }

  /** Every row has exactly one of the five statuses. */
  lemma {:induction false} StatusesPartition(os: seq<Outcome>)
    ensures CountStatus(os, Identical) + CountStatus(os, Modified) + CountStatus(os, Removed)
      + CountStatus(os, Added) + CountStatus(os, Error) == |os|
    decreases |os|
  {
    if |os| > 0 {
      StatusesPartition(os[..|os| - 1]);
    }
  }

  /** The four counters of the summary add up to the number of files less the rows whose files
      could not be opened. */
  lemma CountersMissOnlyErrors(totalFiles: nat, os: seq<Outcome>)
    requires totalFiles == |os|
    requires forall i :: 0 <= i < |os| ==> ChangesOnlyIfModified(os[i])
    ensures var t := TotalsOf(totalFiles, os);
      t.modified + t.added + t.removed + t.identical + CountStatus(os, Error) == t.totalFiles
  {
    StatusesPartition(os);
    TotalsCountRows(totalFiles, os);
  }

  /** The counters of a whole summary: each counts the rows of its status, the totals sum the
      modified files' changes, and with the unopenable pairs they account for every key. */
  lemma SummaryTotals(keys: seq<string>, fromFiles: map<string, string>, toFiles: map<string, string>,
                      probe: (string, string) -> Probe, sizeOf: string -> nat)
    requires forall k :: k in keys ==> Truthy(Get(fromFiles, k)) || Truthy(Get(toFiles, k))
    ensures var os := Outcomes(keys, fromFiles, toFiles, probe, sizeOf);
      var t := TotalsOf(|keys|, os);
      t == Totals(|keys|, CountStatus(os, Modified), CountStatus(os, Added), CountStatus(os, Removed),
                  CountStatus(os, Identical), SumAdditions(os), SumDeletions(os))
      && t.modified + t.added + t.removed + t.identical + CountStatus(os, Error) == |keys|
  {
    var os := Outcomes(keys, fromFiles, toFiles, probe, sizeOf);
    forall i | 0 <= i < |os| ensures ChangesOnlyIfModified(os[i]) {
      OutcomeStatus(keys[i], Get(fromFiles, keys[i]), Get(toFiles, keys[i]), probe, sizeOf);
    }
    TotalsCountRows(|keys|, os);
    CountersMissOnlyErrors(|keys|, os);
  }

  /** The lines printed after the table; the change totals only when one of them is not zero. */
  function SummaryFooter(t: Totals): (r: seq<string>)
    ensures |r| == (if t.totalAdditions != 0 || t.totalDeletions != 0 then 8 else 7)
    ensures r[6] == "  Identical:   " + NatToString(t.identical)
    ensures |r| == 8 ==> StartsWith(r[7], "  Total changes: +")
  {
    ["", "SUMMARY:", "  Total files: " + NatToString(t.totalFiles), "  Modified:    " + NatToString(t.modified),
     "  Added:       " + NatToString(t.added), "  Removed:     " + NatToString(t.removed),
     "  Identical:   " + NatToString(t.identical)]
    + (if t.totalAdditions != 0 || t.totalDeletions != 0
       then ["  Total changes: +" + NatToString(t.totalAdditions) + "/-" + NatToString(t.totalDeletions)]
       else [])
  }

  // ------------------------------------------------------------------------ compare_files

  /** `compare_files` of this script: the `folder-compare.py` comparison of the lines read,
      except that a failed read gives the single line "Error reading files: " and the error.
      `difflib` stands for the four `difflib` outputs on the two line lists. */
  function CompareFiles(o: FolderCompare.Options, read: Result<(seq<string>, seq<string>), string>,
                        difflib: (seq<string>, seq<string>) -> FolderCompare.DifflibOutputs)
    : (r: FolderCompare.Comparison)
    ensures read.Err? ==> r == FolderCompare.Lines(["Error reading files: " + read.error])
    ensures read.Ok? ==> (r.Page? <==> FolderCompare.FormatOf(o) == FolderCompare.Html)
    ensures read.Ok? && r.Page? ==> r.html == difflib(read.value.0, read.value.1).html
    ensures read.Ok? && r.Lines? ==>
      |r.lines| == |FolderCompare.DiffOf(FolderCompare.FormatOf(o), difflib(read.value.0, read.value.1))|
  {
    match read
    case Err(e) => FolderCompare.Lines(["Error reading files: " + e])
    case Ok((lines1, lines2)) => FolderCompare.CompareFiles(o, difflib(lines1, lines2))
  }

  /** After a good read, stripping the colour from the lines gives the chosen diff back, one
      line for one. */
  lemma ReadableComparisonStripsToDiff(o: FolderCompare.Options, read: Result<(seq<string>, seq<string>), string>,
                                       difflib: (seq<string>, seq<string>) -> FolderCompare.DifflibOutputs)
    requires read.Ok? && FolderCompare.FormatOf(o) != FolderCompare.Html
    requires var diff := FolderCompare.DiffOf(FolderCompare.FormatOf(o), difflib(read.value.0, read.value.1));
      forall i :: 0 <= i < |diff| ==> Ansi.Esc !in diff[i]
    ensures var r := CompareFiles(o, read, difflib);
      var diff := FolderCompare.DiffOf(FolderCompare.FormatOf(o), difflib(read.value.0, read.value.1));
      r.Lines? && |r.lines| == |diff| && forall i :: 0 <= i < |diff| ==> Ansi.StripAnsi(r.lines[i]) == diff[i]
  {
    FolderCompare.ComparedLinesAreTheChosenDiff(o, difflib(read.value.0, read.value.1));
  }
}
