/** `side_by_side_diff` and the read fallback of `compare_files` in
    `compare-files/compare-dirs.py`: the caller's two line lists are padded in place to the same
    length, then one row per pair is printed, with a marker column and colorama colours on the
    console, and written plain to the report file. The colour codes are colorama's
    `Fore.RED`/`GREEN`/`YELLOW` and `Style.RESET_ALL`. */
module CompareDirs {
  import opened Wrappers
  import opened PyStr
  import opened DiffLines
  import Ansi

  /** A Python list of lines, which `side_by_side_diff` extends in place with `+=`. */
  class LineList {
    var lines: seq<string>

    constructor (lines: seq<string>)
      ensures this.lines == lines
    {
      this.lines := lines;
    }
  }

  /** `[''] * n` */
  function Blanks(n: int): (r: seq<string>)
    ensures |r| == (if n > 0 then n else 0) && forall i :: 0 <= i < |r| ==> r[i] == ""
  {
    if n > 0 then seq(n, _ => "") else []
  }

  /** `lines` extended with empty lines up to length `n`. */
  function Padded(lines: seq<string>, n: int): (r: seq<string>)
    ensures |r| == (if n > |lines| then n else |lines|)
    ensures r[..|lines|] == lines && forall i :: |lines| <= i < |r| ==> r[i] == ""
  {
    lines + Blanks(n - |lines|)
  }

  function Longest(a: seq<string>, b: seq<string>): nat {
    if |a| >= |b| then |a| else |b|
  }

  /** `f"{s:^w}"`: unlike `str.center`, the format specification puts the extra space of an odd
      margin on the right. */
  function FormatCentre(s: string, w: int): (r: string)
    ensures |s| >= w ==> r == s
    ensures |s| < w ==> |r| == w && r[(w - |s|) / 2..(w - |s|) / 2 + |s|] == s
  {
    if |s| >= w then s
    else
      var marg := w - |s|;
      Repeat(' ', marg / 2) + s + Repeat(' ', marg - marg / 2)
  }

  /** The heading of the marker column is "DIFF" followed by the space, where `str.center` would
      have put the space first. */
  lemma DiffHeadingLeansLeft()
    ensures FormatCentre("DIFF", 5) == "DIFF " && Center("DIFF", 5) == " DIFF"
  {
    assert Repeat(' ', 0) + "DIFF" + Repeat(' ', 1) == "DIFF ";
    assert Repeat(' ', 1) + "DIFF" + Repeat(' ', 0) == " DIFF";
  }

  function Header(width: int): string {
    LJust("LEFT", width) + " | " + FormatCentre("DIFF", 5) + " | " + LJust("RIGHT", width)
  }

  function Separator(width: int): string {
    Times('-', width) + "-+-----+-" + Times('-', width)
  }

  /** The marker of a pair of right-stripped lines: " " when they are equal, "-" when only the
      left one is non-empty, "+" when only the right one is, "|" when both are and differ. */
  function Marker(l: string, r: string): string {
    if l == r then " "
    else if l != "" && r == "" then "-"
    else if l == "" && r != "" then "+"
    else "|"
  }

  /** The four markers are exhaustive and each one says exactly which case the pair is in. */
  lemma MarkerCases(l: string, r: string)
    ensures var m := Marker(l, r);
      (m == " " <==> l == r) && (m == "-" <==> l != "" && r == "")
      && (m == "+" <==> l == "" && r != "") && (m == "|" <==> l != r && l != "" && r != "")
      && m in {" ", "-", "+", "|"}
  {
  }

  /** The cells printed on the console: with `color`, a line only on the left is red, a line only
      on the right green, and a changed pair yellow on the left and green on the right. */
  function ConsoleCells(l: string, r: string, color: bool): (string, string) {
    var m := Marker(l, r);
    if m == " " then (l, r)
    else if m == "-" then (if color then Wrap(Red, l) else l, "")
    else if m == "+" then ("", if color then Wrap(Green, r) else r)
    else (if color then Wrap(Yellow, l) else l, if color then Wrap(Green, r) else r)
  }

  /** The marker column between the two cells. */
  function Middle(m: string): string {
    " |  " + m + "  | "
  }

  /** `line_col`: the cells are left-justified after colouring, so the codes count towards the
      width. */
  function ConsoleRow(l: string, r: string, width: int, color: bool): string {
    var cells := ConsoleCells(l, r, color);
    LJust(cells.0, width) + Middle(Marker(l, r)) + LJust(cells.1, width)
  }

  /** `line_plain`, built from the uncoloured lines. */
  function PlainRow(l: string, r: string, width: int): string {
    LJust(l, width) + Middle(Marker(l, r)) + LJust(r, width)
  }

  /** The rows of `zip(left_lines, right_lines)`, each line right-stripped first. */
  function ConsoleRows(ls: seq<string>, rs: seq<string>, width: int, color: bool): (rows: seq<string>)
    ensures |rows| == (if |ls| <= |rs| then |ls| else |rs|)
  {
    var n := if |ls| <= |rs| then |ls| else |rs|;
    seq(n, i requires 0 <= i < n => ConsoleRow(RStrip(ls[i]), RStrip(rs[i]), width, color))
  }

  function PlainRows(ls: seq<string>, rs: seq<string>, width: int): (rows: seq<string>)
    ensures |rows| == (if |ls| <= |rs| then |ls| else |rs|)
  {
    var n := if |ls| <= |rs| then |ls| else |rs|;
    seq(n, i requires 0 <= i < n => PlainRow(RStrip(ls[i]), RStrip(rs[i]), width))
  }

  /** `side_by_side_diff`: both lists are extended in place to the longer length (when the caller
      passes one list twice, nothing changes), then the header, the separator and one row per
      pair go to the console, and the same lines uncoloured to the file when there is one. */
  method SideBySideDiff(left: LineList, right: LineList, width: int, color: bool, toFile: bool)
    returns (console: seq<string>, fileOut: seq<string>)
    modifies left, right
    ensures left.lines == Padded(old(left.lines), Longest(old(left.lines), old(right.lines)))
    ensures right.lines == Padded(old(right.lines), Longest(old(left.lines), old(right.lines)))
    ensures console == [Header(width), Separator(width)] + ConsoleRows(left.lines, right.lines, width, color)
    ensures fileOut == if toFile then [Header(width), Separator(width)] + PlainRows(left.lines, right.lines, width) else []
  {
    var maxLines := if |left.lines| >= |right.lines| then |left.lines| else |right.lines|;
    left.lines := left.lines + Blanks(maxLines - |left.lines|);
    right.lines := right.lines + Blanks(maxLines - |right.lines|);
    var header := LJust("LEFT", width) + " | " + FormatCentre("DIFF", 5) + " | " + LJust("RIGHT", width);
    var separator := Times('-', width) + "-+-----+-" + Times('-', width);
    console := [header, separator];
    fileOut := if toFile then [header, separator] else [];
    var rows, plain := EmitRows(left.lines, right.lines, width, color);
    console := console + rows;
    if toFile {
      fileOut := fileOut + plain;
    }
  }

  /** `rows` are the console rows of the first `|rows|` pairs. */
  ghost predicate ConsoleRowsSoFar(rows: seq<string>, ls: seq<string>, rs: seq<string>, width: int, color: bool) {
    |rows| <= |ls| && |rows| <= |rs|
    && forall j :: 0 <= j < |rows| ==> rows[j] == ConsoleRow(RStrip(ls[j]), RStrip(rs[j]), width, color)
  }

  /** `plain` are the file rows of the first `|plain|` pairs. */
  ghost predicate PlainRowsSoFar(plain: seq<string>, ls: seq<string>, rs: seq<string>, width: int) {
    |plain| <= |ls| && |plain| <= |rs|
    && forall j :: 0 <= j < |plain| ==> plain[j] == PlainRow(RStrip(ls[j]), RStrip(rs[j]), width)
  }

  /** The loop over `zip(left_lines, right_lines)`. */
  method EmitRows(ls: seq<string>, rs: seq<string>, width: int, color: bool)
    returns (rows: seq<string>, plain: seq<string>)
    ensures rows == ConsoleRows(ls, rs, width, color) && plain == PlainRows(ls, rs, width)
  {
    var n := if |ls| <= |rs| then |ls| else |rs|;
    rows, plain := [], [];
    for i := 0 to n
      invariant |rows| == |plain| == i
      invariant ConsoleRowsSoFar(rows, ls, rs, width, color) && PlainRowsSoFar(plain, ls, rs, width)
    {
      var lineCol, linePlain := FormatPair(ls[i], rs[i], width, color);
      ConsoleRowStep(rows, lineCol, ls, rs, width, color);
      PlainRowStep(plain, linePlain, ls, rs, width);
      rows := rows + [lineCol];
      plain := plain + [linePlain];
    }
    ConsoleRowsComplete(rows, ls, rs, width, color);
    PlainRowsComplete(plain, ls, rs, width);
  }

  lemma ConsoleRowStep(rows: seq<string>, row: string, ls: seq<string>, rs: seq<string>, width: int, color: bool)
    requires ConsoleRowsSoFar(rows, ls, rs, width, color) && |rows| < |ls| && |rows| < |rs|
    requires row == ConsoleRow(RStrip(ls[|rows|]), RStrip(rs[|rows|]), width, color)
    ensures ConsoleRowsSoFar(rows + [row], ls, rs, width, color)
  {
  }

  lemma PlainRowStep(plain: seq<string>, row: string, ls: seq<string>, rs: seq<string>, width: int)
    requires PlainRowsSoFar(plain, ls, rs, width) && |plain| < |ls| && |plain| < |rs|
    requires row == PlainRow(RStrip(ls[|plain|]), RStrip(rs[|plain|]), width)
    ensures PlainRowsSoFar(plain + [row], ls, rs, width)
  {
  }

  lemma ConsoleRowsComplete(rows: seq<string>, ls: seq<string>, rs: seq<string>, width: int, color: bool)
    requires ConsoleRowsSoFar(rows, ls, rs, width, color) && |rows| == (if |ls| <= |rs| then |ls| else |rs|)
    ensures rows == ConsoleRows(ls, rs, width, color)
  {
  }

  lemma PlainRowsComplete(plain: seq<string>, ls: seq<string>, rs: seq<string>, width: int)
    requires PlainRowsSoFar(plain, ls, rs, width) && |plain| == (if |ls| <= |rs| then |ls| else |rs|)
    ensures plain == PlainRows(ls, rs, width)
  {
  }

  /** The body of the row loop: the marker chain, then `line_col` and `line_plain`. */
  method FormatPair(l: string, r: string, width: int, color: bool) returns (lineCol: string, linePlain: string)
    ensures lineCol == ConsoleRow(RStrip(l), RStrip(r), width, color)
    ensures linePlain == PlainRow(RStrip(l), RStrip(r), width)
  {
    var lStr, rStr := RStrip(l), RStrip(r);
    var diff, lOut, rOut;
    if lStr == rStr {
      diff, lOut, rOut := " ", lStr, rStr;
    } else if lStr != "" && rStr == "" {
      diff, lOut, rOut := "-", if color then Red + lStr + Reset else lStr, "";
    } else if lStr == "" && rStr != "" {
      diff, lOut, rOut := "+", "", if color then Green + rStr + Reset else rStr;
    } else {
      diff := "|";
      lOut := if color then Yellow + lStr + Reset else lStr;
      rOut := if color then Green + rStr + Reset else rStr;
    }
    var mid := " |  " + diff + "  | ";
    lineCol := LJust(lOut, width) + mid + LJust(rOut, width);
    linePlain := LJust(lStr, width) + mid + LJust(rStr, width);
  }

  /** Without colour the console row is the plain row. */
  lemma UncolouredRowIsPlain(l: string, r: string, width: int)
    ensures ConsoleRow(l, r, width, false) == PlainRow(l, r, width)
  {
  }

  /** What a terminal shows of a coloured row: each coloured cell is padded 9 columns short, the
      length of its two escape codes. */
  function VisibleRow(l: string, r: string, width: int): string {
    var m := Marker(l, r);
    var lw := if m == "-" || m == "|" then width - 9 else width;
    var rw := if m == "+" || m == "|" then width - 9 else width;
    LJust(l, lw) + Middle(m) + LJust(r, rw)
  }

  /** A coloured cell, left-justified, then the rest: stripping leaves the text justified to 9
      columns less. */
  lemma StripJustifiedWrap(d: char, x: string, width: int, rest: string)
    requires Ansi.IsParameter(d) && Ansi.Esc !in x
    ensures Ansi.StripAnsi(LJust(Wrap([Ansi.Esc, '[', '3', d, 'm'], x), width) + rest)
      == LJust(x, width - 9) + Ansi.StripAnsi(rest)
  {
    var w := Wrap([Ansi.Esc, '[', '3', d, 'm'], x);
    var pad := Repeat(' ', if |x| + 9 >= width then 0 else width - 9 - |x|);
    assert |w| == |x| + 9;
    LJustIsPadded(w, width);
    LJustIsPadded(x, width - 9);
    Concat3(w, pad, rest);
    StripUndoesWrapping(d, x, pad + rest);
    Ansi.StripAnsiKeepsPlainPrefix(pad, rest);
    Concat3(x, pad, Ansi.StripAnsi(rest));
  }

  /** A cell left-justified, coloured with digit `d` or not, then the rest: stripping leaves the
      text justified to the width less the 9 code characters if it was coloured. */
  lemma StripCell(x: string, coloured: bool, d: char, width: int, rest: string)
    requires Ansi.IsParameter(d) && Ansi.Esc !in x
    ensures Ansi.StripAnsi(LJust(if coloured then Wrap([Ansi.Esc, '[', '3', d, 'm'], x) else x, width) + rest)
      == LJust(x, if coloured then width - 9 else width) + Ansi.StripAnsi(rest)
  {
    if coloured {
      StripJustifiedWrap(d, x, width, rest);
    } else {
      LJustIsPadded(x, width);
      assert Ansi.Esc !in LJust(x, width);
      Ansi.StripAnsiKeepsPlainPrefix(LJust(x, width), rest);
    }
  }

  /** Two cells around a middle column without codes, each coloured or not: stripping leaves
      the texts, each justified 9 columns short if it was coloured. */
  lemma StripRow(x: string, lc: bool, ld: char, mid: string, y: string, rc: bool, rd: char, width: int)
    requires Ansi.IsParameter(ld) && Ansi.IsParameter(rd)
    requires Ansi.Esc !in x && Ansi.Esc !in mid && Ansi.Esc !in y
    ensures Ansi.StripAnsi(LJust(if lc then Wrap([Ansi.Esc, '[', '3', ld, 'm'], x) else x, width) + mid
                           + LJust(if rc then Wrap([Ansi.Esc, '[', '3', rd, 'm'], y) else y, width))
      == LJust(x, if lc then width - 9 else width) + mid + LJust(y, if rc then width - 9 else width)
  {
    var left := LJust(if lc then Wrap([Ansi.Esc, '[', '3', ld, 'm'], x) else x, width);
    var right := LJust(if rc then Wrap([Ansi.Esc, '[', '3', rd, 'm'], y) else y, width);
    Concat3(left, mid, right);
    StripCell(x, lc, ld, width, mid + right);
    assert mid + right == mid + (right + "");
    Ansi.StripAnsiKeepsPlainPrefix(mid, right + "");
    StripCell(y, rc, rd, width, "");
    assert Ansi.StripAnsi("") == "";
    Concat3(LJust(x, if lc then width - 9 else width), mid, LJust(y, if rc then width - 9 else width));
  }

  /** Stripping the codes from a coloured row gives the row the terminal shows. */
  lemma ColouredRowStrips(l: string, r: string, width: int)
    requires Ansi.Esc !in l && Ansi.Esc !in r
    ensures Ansi.StripAnsi(ConsoleRow(l, r, width, true)) == VisibleRow(l, r, width)
  {
    if l == r {
      EqualRowStrips(l, r, width);
    } else if l != "" && r == "" {
      RemovedRowStrips(l, r, width);
    } else if l == "" && r != "" {
      AddedRowStrips(l, r, width);
    } else {
      ChangedRowStrips(l, r, width);
    }
  }

  lemma EqualRowStrips(l: string, r: string, width: int)
    requires Ansi.Esc !in l && Ansi.Esc !in r && l == r
    ensures Ansi.StripAnsi(ConsoleRow(l, r, width, true)) == VisibleRow(l, r, width)
  {
    var mid := Middle(Marker(l, r));
    MiddlePlain(l, r);
    assert ConsoleRow(l, r, width, true) == LJust(l, width) + mid + LJust(r, width);
    assert VisibleRow(l, r, width) == LJust(l, width) + mid + LJust(r, width);
    StripRow(l, false, '0', mid, r, false, '0', width);
  }

  lemma RemovedRowStrips(l: string, r: string, width: int)
    requires Ansi.Esc !in l && Ansi.Esc !in r && l != "" && r == ""
    ensures Ansi.StripAnsi(ConsoleRow(l, r, width, true)) == VisibleRow(l, r, width)
  {
    var mid := Middle(Marker(l, r));
    MiddlePlain(l, r);
    assert Red == [Ansi.Esc, '[', '3', '1', 'm'];
    assert Marker(l, r) == "-";
    assert ConsoleCells(l, r, true) == (Wrap(Red, l), "");
    assert ConsoleRow(l, r, width, true) == LJust(Wrap(Red, l), width) + mid + LJust(r, width);
    assert VisibleRow(l, r, width) == LJust(l, width - 9) + mid + LJust(r, width);
    StripRow(l, true, '1', mid, r, false, '0', width);
  }

  lemma AddedRowStrips(l: string, r: string, width: int)
    requires Ansi.Esc !in l && Ansi.Esc !in r && l == "" && r != ""
    ensures Ansi.StripAnsi(ConsoleRow(l, r, width, true)) == VisibleRow(l, r, width)
  {
    var mid := Middle(Marker(l, r));
    MiddlePlain(l, r);
    assert Green == [Ansi.Esc, '[', '3', '2', 'm'];
    assert Marker(l, r) == "+";
    assert ConsoleCells(l, r, true) == ("", Wrap(Green, r));
    assert ConsoleRow(l, r, width, true) == LJust(l, width) + mid + LJust(Wrap(Green, r), width);
    assert VisibleRow(l, r, width) == LJust(l, width) + mid + LJust(r, width - 9);
    StripRow(l, false, '0', mid, r, true, '2', width);
  }

  lemma ChangedRowStrips(l: string, r: string, width: int)
    requires Ansi.Esc !in l && Ansi.Esc !in r && l != r && l != "" && r != ""
    ensures Ansi.StripAnsi(ConsoleRow(l, r, width, true)) == VisibleRow(l, r, width)
  {
    var mid := Middle(Marker(l, r));
    MiddlePlain(l, r);
    assert Green == [Ansi.Esc, '[', '3', '2', 'm'] && Yellow == [Ansi.Esc, '[', '3', '3', 'm'];
    assert Marker(l, r) == "|";
    assert ConsoleCells(l, r, true) == (Wrap(Yellow, l), Wrap(Green, r));
    assert ConsoleRow(l, r, width, true) == LJust(Wrap(Yellow, l), width) + mid + LJust(Wrap(Green, r), width);
    assert VisibleRow(l, r, width) == LJust(l, width - 9) + mid + LJust(r, width - 9);
    StripRow(l, true, '3', mid, r, true, '2', width);
  }

  /** The middle column holds no ESC. */
  lemma MiddlePlain(l: string, r: string)
    ensures Ansi.Esc !in Middle(Marker(l, r))
  {
    MarkerCases(l, r);
  }

  /** So a row with a coloured cell that fits shows shorter than the plain row written to the
      file: the console columns do not line up with the header. */
  lemma ColouredRowsShowShort(l: string, r: string, width: int)
    requires l != r && |l| + 9 < width && |r| + 9 < width
    ensures |VisibleRow(l, r, width)| < |PlainRow(l, r, width)| == 2 * width + 9
  {
  }

  /** `compare_files`: a side that cannot be read becomes the single line naming the error, and
      the comparison runs regardless. */
  function ReadOrNote(read: Result<seq<string>, string>): (lines: seq<string>)
    ensures read.Ok? ==> lines == read.value
    ensures read.Err? ==> lines == ["[Could not read: " + read.error + "]"]
  {
    match read
    case Ok(lines) => lines
    case Err(e) => ["[Could not read: " + e + "]"]
  }

  /** `compare_files`, with colour on. */
  method CompareFiles(leftRead: Result<seq<string>, string>, rightRead: Result<seq<string>, string>,
                      width: int, toFile: bool)
    returns (console: seq<string>, fileOut: seq<string>)
    ensures var ls, rs := ReadOrNote(leftRead), ReadOrNote(rightRead);
      var n := Longest(ls, rs);
      console == [Header(width), Separator(width)] + ConsoleRows(Padded(ls, n), Padded(rs, n), width, true)
      && fileOut == if toFile then [Header(width), Separator(width)] + PlainRows(Padded(ls, n), Padded(rs, n), width) else []
  {
    var leftLines := new LineList(ReadOrNote(leftRead));
    var rightLines := new LineList(ReadOrNote(rightRead));
    console, fileOut := SideBySideDiff(leftLines, rightLines, width, true, toFile);
  }
}
