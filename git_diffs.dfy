/** The text and counting helpers of `compare-files/git-diffs.py`: the CSV cell sanitiser, the
    binary-file test, the opcode loop of `FileComparison.compare`, and the fixed-width columns
    and Differ walk of the tabular report. What `difflib` computes (opcodes, Differ lines) and
    what the file system returns (split lines, the first bytes of a file) are inputs. */
module GitDiffs {
  import opened Wrappers
  import opened PyStr
  import opened DiffLines

  // ------------------------------------------------------------------------ sanitize_for_csv

  /** The default cell limit, Excel's maximum cell length. */
  const ExcelCellLimit: int := 32767

  /** The five `replace` calls, in the order the source makes them. */
  function ReplaceControls(s: string): string {
    var crlf := Replace(s, "\r\n", "\\n");
    AfterCrLf(crlf)
  }

  /** The four one-character replacements after the CRLF one. */
  function AfterCrLf(s: string): string {
    Replace(Replace(Replace(Replace(s, "\r", "\\n"), "\n", "\\n"), "\t", "\\t"), "\0", "\\0")
  }

  /** The escaping in one pass: CRLF, a lone CR and a lone LF each become the two characters
      backslash and "n", TAB becomes backslash "t" and NUL backslash "0". */
  function Escape(s: string): (r: string)
    ensures |r| >= |s| - 1
    decreases |s|
  {
    if |s| == 0 then ""
    else if |s| >= 2 && s[0] == '\r' && s[1] == '\n' then "\\n" + Escape(s[2..])
    else EscapeChar(s[0]) + Escape(s[1..])
  }

  /** The escaping of a character that does not open a CRLF pair. */
  function EscapeChar(x: char): string {
    if x == '\r' || x == '\n' then "\\n"
    else if x == '\t' then "\\t"
    else if x == '\0' then "\\0"
    else [x]
  }

  predicate IsControl(c: char) { c == '\r' || c == '\n' || c == '\t' || c == '\0' }

  /** The escaped text holds no CR, LF, TAB or NUL. */
  lemma {:induction false} EscapeLeavesNoControls(s: string)
    ensures forall i :: 0 <= i < |Escape(s)| ==> !IsControl(Escape(s)[i])
    decreases |s|
  {
    if |s| > 0 {
      if |s| >= 2 && s[0] == '\r' && s[1] == '\n' {
        EscapeLeavesNoControls(s[2..]);
      } else {
        EscapeLeavesNoControls(s[1..]);
      }
    }
  }

  /** The one-character replacements distribute over concatenation. */
  lemma AfterCrLfConcat(a: string, b: string)
    ensures AfterCrLf(a + b) == AfterCrLf(a) + AfterCrLf(b)
  {
    var r1a, r1b := Replace(a, "\r", "\\n"), Replace(b, "\r", "\\n");
    ReplaceCharConcat(a, b, '\r', "\\n");
    var r2a, r2b := Replace(r1a, "\n", "\\n"), Replace(r1b, "\n", "\\n");
    ReplaceCharConcat(r1a, r1b, '\n', "\\n");
    var r3a, r3b := Replace(r2a, "\t", "\\t"), Replace(r2b, "\t", "\\t");
    ReplaceCharConcat(r2a, r2b, '\t', "\\t");
    ReplaceCharConcat(r3a, r3b, '\0', "\\0");
  }

  /** The one-character replacements on one character. */
  lemma AfterCrLfChar(x: char)
    ensures AfterCrLf([x]) == EscapeChar(x)
  {
    ReplaceCharSingle(x, '\r', "\\n");
    var r1 := Replace([x], "\r", "\\n");
    if x == '\r' {
      ReplaceAbsent(r1, "\n", "\\n");
      ReplaceAbsent(r1, "\t", "\\t");
      ReplaceAbsent(r1, "\0", "\\0");
    } else {
      ReplaceCharSingle(x, '\n', "\\n");
      var r2 := Replace([x], "\n", "\\n");
      if x == '\n' {
        ReplaceAbsent(r2, "\t", "\\t");
        ReplaceAbsent(r2, "\0", "\\0");
      } else {
        ReplaceCharSingle(x, '\t', "\\t");
        var r3 := Replace([x], "\t", "\\t");
        if x == '\t' {
          ReplaceAbsent(r3, "\0", "\\0");
        } else {
          ReplaceCharSingle(x, '\0', "\\0");
        }
      }
    }
  }

  /** The replacement that opens with the escaped text "\n" is left alone by the later ones. */
  lemma AfterCrLfOfEscapedNewline()
    ensures AfterCrLf("\\n") == "\\n"
  {
    assert "\\n" == ['\\'] + ['n'];
    AfterCrLfConcat(['\\'], ['n']);
    AfterCrLfChar('\\');
    AfterCrLfChar('n');
  }

  /** The chain of `replace` calls is the one-pass escaping: the CRLF replacement runs first, so
      a CRLF pair gives one escaped newline, not two. */
  lemma {:induction false} ReplaceChainIsEscape(s: string)
    ensures ReplaceControls(s) == Escape(s)
    decreases |s|
  {
    if |s| > 0 {
      if StartsWith(s, "\r\n") {
        ReplaceChainIsEscape(s[2..]);
        ChainAtCrLf(s);
      } else {
        ReplaceChainIsEscape(s[1..]);
        ChainAtOther(s);
      }
    }
  }

  /** A leading CRLF becomes one escaped newline in front of the rest. */
  lemma ChainAtCrLf(s: string)
    requires StartsWith(s, "\r\n") && ReplaceControls(s[2..]) == Escape(s[2..])
    ensures ReplaceControls(s) == Escape(s)
  {
    var rest := Replace(s[2..], "\r\n", "\\n");
    assert Replace(s, "\r\n", "\\n") == "\\n" + rest;
    AfterCrLfConcat("\\n", rest);
    AfterCrLfOfEscapedNewline();
    assert s[0] == '\r' && s[1] == '\n';
  }

  /** Any other first character is escaped on its own in front of the rest. */
  lemma ChainAtOther(s: string)
    requires |s| > 0 && !StartsWith(s, "\r\n") && ReplaceControls(s[1..]) == Escape(s[1..])
    ensures ReplaceControls(s) == Escape(s)
  {
    var rest := Replace(s[1..], "\r\n", "\\n");
    assert Replace(s, "\r\n", "\\n") == [s[0]] + rest;
    AfterCrLfConcat([s[0]], rest);
    AfterCrLfChar(s[0]);
    StartsWithCrLf(s);
  }

  /** A text starts with CRLF exactly when its first two characters are CR and LF. */
  lemma StartsWithCrLf(s: string)
    ensures StartsWith(s, "\r\n") <==> |s| >= 2 && s[0] == '\r' && s[1] == '\n'
  {
    if |s| >= 2 && s[0] == '\r' && s[1] == '\n' {
      assert s[..2] == "\r\n";
    }
  }

  /** `sanitize_for_csv`: `None` gives the empty text; otherwise the text is truncated to the
      limit and then escaped, so the result has no CR, LF, TAB or NUL. */
  function SanitizeForCsv(content: Option<string>, maxLength: int): (r: string)
    ensures content.None? ==> r == ""
    ensures content.Some? ==> r == Escape(Cut(content.value, maxLength))
    ensures forall i :: 0 <= i < |r| ==> !IsControl(r[i])
  {
    if content.None? then ""
    else
      var s := Cut(content.value, maxLength);
      ReplaceChainIsEscape(s);
      EscapeLeavesNoControls(s);
      ReplaceControls(s)
  }

  /** A text without control characters comes out truncated and nothing else. */
  lemma {:induction false} EscapeOfPlainText(s: string)
    requires forall i :: 0 <= i < |s| ==> !IsControl(s[i])
    ensures Escape(s) == s
    decreases |s|
  {
    if |s| > 0 {
      EscapeOfPlainText(s[1..]);
      assert [s[0]] + s[1..] == s;
    }
  }

  /** The escaping runs after the truncation, so the result can exceed the limit: a single
      line feed under a limit of 1 becomes two characters. */
  lemma SanitizedCanExceedLimit()
    ensures |SanitizeForCsv(Some("\n"), 1)| == 2
  {
    assert Escape("\n") == "\\n" + Escape("");
  }

  // ------------------------------------------------------------------------- _is_binary_file

  type Byte = b: int | 0 <= b < 256

  /** The bytes `_is_binary_file` counts as text: BEL, BS, TAB, LF, FF, CR, ESC and every byte
      from 0x20 up except DEL. */
  predicate IsTextByte(b: Byte) {
    b in {7, 8, 9, 10, 12, 13, 27} || (0x20 <= b && b != 0x7f)
  }

  /** `chunk.translate(None, text_chars)`: the bytes that are not text, in order. */
  function DeleteText(chunk: seq<Byte>): (r: seq<Byte>)
    ensures |r| <= |chunk|
    decreases |chunk|
  {
    if |chunk| == 0 then []
    else DeleteText(chunk[..|chunk| - 1]) + (if IsTextByte(chunk[|chunk| - 1]) then [] else [chunk[|chunk| - 1]])
  }

  /** `_is_binary_file` on the file's bytes, `None` when it cannot be opened or read: only the
      first 1024 bytes are looked at; a NUL byte makes the file binary, and so does any other
      byte outside the text set. */
  function IsBinaryFile(content: Option<seq<Byte>>): bool {
    if content.None? then true
    else
      var chunk := SliceTo(content.value, 1024);
      if 0 in chunk then true else |DeleteText(chunk)| > 0
  }

  /** Deleting the text bytes leaves something exactly when some byte is not text. */
  lemma {:induction false} DeleteTextNonEmpty(chunk: seq<Byte>)
    ensures |DeleteText(chunk)| > 0 <==> exists i :: 0 <= i < |chunk| && !IsTextByte(chunk[i])
    decreases |chunk|
  {
    if |chunk| > 0 {
      var init := chunk[..|chunk| - 1];
      DeleteTextNonEmpty(init);
      if exists i :: 0 <= i < |init| && !IsTextByte(init[i]) {
        var i :| 0 <= i < |init| && !IsTextByte(init[i]);
        assert chunk[i] == init[i];
      }
      if exists i :: 0 <= i < |chunk| && !IsTextByte(chunk[i]) {
        var i :| 0 <= i < |chunk| && !IsTextByte(chunk[i]);
        if i < |init| { assert init[i] == chunk[i]; }
      }
    }
  }

  /** A readable file is binary exactly when one of its first 1024 bytes is not a text byte (the
      NUL test is subsumed, NUL not being text); an empty file is not binary and an unreadable
      one is. */
  lemma BinaryIffNonTextByte(content: seq<Byte>)
    ensures IsBinaryFile(Some(content)) <==>
      exists i :: 0 <= i < |content| && i < 1024 && !IsTextByte(content[i])
    ensures content == [] ==> !IsBinaryFile(Some(content))
    ensures IsBinaryFile(None)
  {
    var chunk := SliceTo(content, 1024);
    DeleteTextNonEmpty(chunk);
    assert forall i :: 0 <= i < |chunk| ==> chunk[i] == content[i];
    if 0 in chunk {
      var i :| 0 <= i < |chunk| && chunk[i] == 0;
      assert !IsTextByte(chunk[i]);
    }
  }

  // --------------------------------------------------------------- FileComparison.compare

  datatype OpTag = EqualOp | DeleteOp | InsertOp | ReplaceOp

  /** One `(tag, i1, i2, j1, j2)` of `SequenceMatcher.get_opcodes()`. */
  datatype Opcode = Opcode(tag: OpTag, i1: int, i2: int, j1: int, j2: int)

  datatype Stats = Stats(totalLinesLeft: nat, totalLinesRight: nat, additions: int, deletions: int, modifications: int)

  function Max(a: int, b: int): int { if a >= b then a else b }

  /** `[line.rstrip() for line in lines]` */
  function RStripAll(lines: seq<string>): (r: seq<string>)
    ensures |r| == |lines|
  {
    seq(|lines|, i requires 0 <= i < |lines| => RStrip(lines[i]))
  }

  /** Σ (i2 - i1) over the opcodes tagged `tag`. */
  function LeftSpan(ops: seq<Opcode>, tag: OpTag): int
    decreases |ops|
  {
    if |ops| == 0 then 0
    else
      var op := ops[|ops| - 1];
      LeftSpan(ops[..|ops| - 1], tag) + (if op.tag == tag then op.i2 - op.i1 else 0)
  }

  /** Σ (j2 - j1) over the opcodes tagged `tag`. */
  function RightSpan(ops: seq<Opcode>, tag: OpTag): int
    decreases |ops|
  {
    if |ops| == 0 then 0
    else
      var op := ops[|ops| - 1];
      RightSpan(ops[..|ops| - 1], tag) + (if op.tag == tag then op.j2 - op.j1 else 0)
  }

  /** Σ max(i2 - i1, j2 - j1) over the `replace` opcodes. */
  function Modifications(ops: seq<Opcode>): int
    decreases |ops|
  {
    if |ops| == 0 then 0
    else
      var op := ops[|ops| - 1];
      Modifications(ops[..|ops| - 1]) + (if op.tag == ReplaceOp then Max(op.i2 - op.i1, op.j2 - op.j1) else 0)
  }

  /** `[line.rstrip() for line in left_lines[i1:i2]]` */
  function LeftLines(left: seq<string>, op: Opcode): seq<string> {
    RStripAll(Slice(left, op.i1, op.i2))
  }

  /** `[line.rstrip() for line in right_lines[j1:j2]]` */
  function RightLines(right: seq<string>, op: Opcode): seq<string> {
    RStripAll(Slice(right, op.j1, op.j2))
  }

  /** The left lines the `delete` and `replace` opcodes cover, stripped, in opcode order. */
  function RemovedLines(left: seq<string>, ops: seq<Opcode>): seq<string>
    decreases |ops|
  {
    if |ops| == 0 then []
    else
      var op := ops[|ops| - 1];
      RemovedLines(left, ops[..|ops| - 1])
        + (if op.tag == DeleteOp || op.tag == ReplaceOp then LeftLines(left, op) else [])
  }

  /** The right lines the `insert` and `replace` opcodes cover, stripped, in opcode order. */
  function AddedLines(right: seq<string>, ops: seq<Opcode>): seq<string>
    decreases |ops|
  {
    if |ops| == 0 then []
    else
      var op := ops[|ops| - 1];
      AddedLines(right, ops[..|ops| - 1])
        + (if op.tag == InsertOp || op.tag == ReplaceOp then RightLines(right, op) else [])
  }

  /** The comparison of two files with what it has gathered. */
  class FileComparison {
    var addedLines: seq<string>
    var removedLines: seq<string>
    var changedLines: seq<string>
    var unifiedDiff: seq<string>
    var stats: Stats

    constructor ()
      ensures addedLines == [] && removedLines == [] && changedLines == [] && unifiedDiff == []
      ensures stats == Stats(0, 0, 0, 0, 0)
    {
      addedLines, removedLines, changedLines, unifiedDiff := [], [], [], [];
      stats := Stats(0, 0, 0, 0, 0);
    }

    /** `compare`: `left` and `right` are the two files split into lines (`None` when a file
        cannot be read, which returns false and changes nothing); `unified` and `opcodes` are
        what `difflib` produces for those lines. The line counts are set, the three counters grow
        by the sums over the opcodes, the stripped lines are appended, and `changed_lines` is
        never touched. */
    method Compare(left: Option<seq<string>>, right: Option<seq<string>>, unified: seq<string>, opcodes: seq<Opcode>)
      returns (ok: bool)
      modifies this
      ensures ok <==> left.Some? && right.Some?
      ensures !ok ==> unchanged(this)
      ensures ok ==>
        stats == Stats(|left.value|, |right.value|,
                       old(stats.additions) + RightSpan(opcodes, InsertOp),
                       old(stats.deletions) + LeftSpan(opcodes, DeleteOp),
                       old(stats.modifications) + Modifications(opcodes))
        && removedLines == old(removedLines) + RemovedLines(left.value, opcodes)
        && addedLines == old(addedLines) + AddedLines(right.value, opcodes)
        && unifiedDiff == unified
      ensures changedLines == old(changedLines)
    {
      if left.None? || right.None? {
        return false;
      }
      var l, r := left.value, right.value;
      var additions, deletions, modifications, removed, added := Tally(l, r, opcodes);
      stats := Stats(|l|, |r|, stats.additions + additions, stats.deletions + deletions,
                     stats.modifications + modifications);
      removedLines, addedLines, unifiedDiff := removedLines + removed, addedLines + added, unified;
      return true;
    }
  }

  /** The opcode loop of `compare`: what it adds to each counter (the sums over the opcodes) and
      the stripped lines it appends to each list. */
  method Tally(l: seq<string>, r: seq<string>, opcodes: seq<Opcode>)
    returns (additions: int, deletions: int, modifications: int, removed: seq<string>, added: seq<string>)
    ensures additions == RightSpan(opcodes, InsertOp) && deletions == LeftSpan(opcodes, DeleteOp)
    ensures modifications == Modifications(opcodes)
    ensures removed == RemovedLines(l, opcodes) && added == AddedLines(r, opcodes)
  {
    additions, deletions, modifications, removed, added := 0, 0, 0, [], [];
    for k := 0 to |opcodes|
      invariant additions == RightSpan(opcodes[..k], InsertOp) && deletions == LeftSpan(opcodes[..k], DeleteOp)
      invariant modifications == Modifications(opcodes[..k])
      invariant removed == RemovedLines(l, opcodes[..k]) && added == AddedLines(r, opcodes[..k])
    {
      var op := opcodes[k];
      OpcodeStep(l, r, opcodes, k);
      if op.tag == DeleteOp {
        removed := removed + LeftLines(l, op);
        deletions := deletions + (op.i2 - op.i1);
      } else if op.tag == InsertOp {
        added := added + RightLines(r, op);
        additions := additions + (op.j2 - op.j1);
      } else if op.tag == ReplaceOp {
        removed := removed + LeftLines(l, op);
        added := added + RightLines(r, op);
        modifications := modifications + Max(op.i2 - op.i1, op.j2 - op.j1);
      }
    }
    assert opcodes[..|opcodes|] == opcodes;
  }

  /** What one more opcode adds to each sum and line list. */
  lemma OpcodeStep(left: seq<string>, right: seq<string>, ops: seq<Opcode>, k: nat)
    requires k < |ops|
    ensures var op, pre, post := ops[k], ops[..k], ops[..k + 1];
      && RightSpan(post, InsertOp) == RightSpan(pre, InsertOp) + (if op.tag == InsertOp then op.j2 - op.j1 else 0)
      && LeftSpan(post, DeleteOp) == LeftSpan(pre, DeleteOp) + (if op.tag == DeleteOp then op.i2 - op.i1 else 0)
      && Modifications(post) == Modifications(pre) + (if op.tag == ReplaceOp then Max(op.i2 - op.i1, op.j2 - op.j1) else 0)
      && RemovedLines(left, post) == RemovedLines(left, pre)
           + (if op.tag == DeleteOp || op.tag == ReplaceOp then LeftLines(left, op) else [])
      && AddedLines(right, post) == AddedLines(right, pre)
           + (if op.tag == InsertOp || op.tag == ReplaceOp then RightLines(right, op) else [])
  {
    assert ops[..k + 1][..k] == ops[..k];
  }

  /** The opcodes cover the first `n` left lines and the first `m` right lines in order, one
      after the other, as `get_opcodes` does. */
  predicate Tiles(ops: seq<Opcode>, n: int, m: int)
    decreases |ops|
  {
    if |ops| == 0 then n == 0 && m == 0
    else
      var op := ops[|ops| - 1];
      op.i1 <= op.i2 == n && op.j1 <= op.j2 == m && Tiles(ops[..|ops| - 1], op.i1, op.j1)
  }

  /** For opcodes that tile both files, the removed lines are the deleted ones and the left side
      of the replaced ones, the added lines likewise, and with the `equal` spans they account
      for every line of each file. */
  lemma {:induction false} LinesAccounted(left: seq<string>, right: seq<string>, ops: seq<Opcode>, n: int, m: int)
    requires Tiles(ops, n, m) && n <= |left| && m <= |right|
    ensures |RemovedLines(left, ops)| == LeftSpan(ops, DeleteOp) + LeftSpan(ops, ReplaceOp)
    ensures |AddedLines(right, ops)| == RightSpan(ops, InsertOp) + RightSpan(ops, ReplaceOp)
    ensures |RemovedLines(left, ops)| + LeftSpan(ops, EqualOp) + LeftSpan(ops, InsertOp) == n
    ensures |AddedLines(right, ops)| + RightSpan(ops, EqualOp) + RightSpan(ops, DeleteOp) == m
    decreases |ops|
  {
    if |ops| > 0 {
      var op := ops[|ops| - 1];
      LinesAccounted(left, right, ops[..|ops| - 1], op.i1, op.j1);
      assert 0 <= op.i1 && 0 <= op.j1 by { TilesNonNegative(ops[..|ops| - 1], op.i1, op.j1); }
    }
  }

  lemma {:induction false} TilesNonNegative(ops: seq<Opcode>, n: int, m: int)
    requires Tiles(ops, n, m)
    ensures 0 <= n && 0 <= m
    decreases |ops|
  {
    if |ops| > 0 {
      var op := ops[|ops| - 1];
      TilesNonNegative(ops[..|ops| - 1], op.i1, op.j1);
    }
  }

  /** A replacement counts as many modifications as its longer side, so the modification count
      is at least each side's replaced lines. */
  lemma {:induction false} ModificationsCoverBothSides(ops: seq<Opcode>)
    ensures Modifications(ops) >= LeftSpan(ops, ReplaceOp)
    ensures Modifications(ops) >= RightSpan(ops, ReplaceOp)
    decreases |ops|
  {
    if |ops| > 0 {
      ModificationsCoverBothSides(ops[..|ops| - 1]);
    }
  }

  // ------------------------------------------------------ generate_tabular_diff_report helpers

  const ColumnWidth: nat := 80
  const Separator: string := " | "

  /** What `format_line` lays out: the line without its trailing newlines, each tab four spaces. */
  function Expanded(line: string): (r: string)
    ensures '\t' !in r
  {
    var e := Replace(RStripChar(line, '\n'), "\t", "    ");
    ReplaceRemovesChar(RStripChar(line, '\n'), '\t', "    ");
    e
  }

  /** `format_line`: exactly 80 characters, the expanded line cut at 80 or padded with spaces. */
  function FormatLine(line: string): (r: string)
    ensures |r| == ColumnWidth
    ensures var e := Expanded(line);
      (|e| >= ColumnWidth ==> r == e[..ColumnWidth])
      && (|e| < ColumnWidth ==> r[..|e|] == e && forall i :: |e| <= i < ColumnWidth ==> r[i] == ' ')
    ensures '\t' !in r
  {
    var e := Expanded(line);
    var r := SliceTo(LJust(e, ColumnWidth), ColumnWidth);
    assert forall i :: 0 <= i < |r| ==> r[i] in e || r[i] == ' ';
    r
  }

  /** The state of the walk over the Differ output: the rows written, the two positions, and
      whether an index error ended it (the source catches it and writes an error line). */
  datatype Walk = Walk(rows: seq<string>, leftPos: int, rightPos: int, failed: bool)

  const Carets: string := Repeat('^', ColumnWidth) + Separator + Repeat('^', ColumnWidth)

  /** One Differ line: "  " writes both current lines and advances both positions; "- " the
      left line beside blanks; "+ " blanks beside the right line; "? " repeats the previous pair
      (index -1 being the last line, as in Python) and a row of carets; other lines nothing. */
  function WalkStep(left: seq<string>, right: seq<string>, w: Walk, line: string): Walk {
    if w.failed then w
    else if StartsWith(line, "  ") then
      var l, r := Index(left, w.leftPos), Index(right, w.rightPos);
      if l.None? || r.None? then w.(failed := true)
      else Walk(w.rows + [FormatLine(l.value) + Separator + FormatLine(r.value)], w.leftPos + 1, w.rightPos + 1, false)
    else if StartsWith(line, "- ") then
      var l := Index(left, w.leftPos);
      if l.None? then w.(failed := true)
      else w.(rows := w.rows + [FormatLine(l.value) + Separator + Repeat(' ', ColumnWidth)], leftPos := w.leftPos + 1)
    else if StartsWith(line, "+ ") then
      var r := Index(right, w.rightPos);
      if r.None? then w.(failed := true)
      else w.(rows := w.rows + [Repeat(' ', ColumnWidth) + Separator + FormatLine(r.value)], rightPos := w.rightPos + 1)
    else if StartsWith(line, "? ") then
      var l, r := Index(left, w.leftPos - 1), Index(right, w.rightPos - 1);
      if l.None? || r.None? then w.(failed := true)
      else w.(rows := w.rows + [FormatLine(l.value) + Separator + FormatLine(r.value), Carets])
    else w
  }

  function WalkAll(left: seq<string>, right: seq<string>, diff: seq<string>): Walk
    decreases |diff|
  {
    if |diff| == 0 then Walk([], 0, 0, false)
    else WalkStep(left, right, WalkAll(left, right, diff[..|diff| - 1]), diff[|diff| - 1])
  }

  /** The rows of `write_file_comparison` for the lines of both files and their Differ output,
      and whether the walk ended on an index error (the rows written before it stay written). */
  method WriteComparisonRows(left: seq<string>, right: seq<string>, diff: seq<string>)
    returns (rows: seq<string>, failed: bool)
    ensures rows == WalkAll(left, right, diff).rows && failed == WalkAll(left, right, diff).failed
  {
    rows := [];
    var leftPos, rightPos := 0, 0;
    failed := false;
    for k := 0 to |diff|
      invariant Walk(rows, leftPos, rightPos, failed) == WalkAll(left, right, diff[..k])
    {
      assert diff[..k + 1][..k] == diff[..k];
      rows, leftPos, rightPos, failed := WalkLine(left, right, rows, leftPos, rightPos, failed, diff[k]);
    }
    assert diff[..|diff|] == diff;
  }

  /** The body of the loop for one Differ line. */
  method WalkLine(left: seq<string>, right: seq<string>, rows0: seq<string>, leftPos0: int, rightPos0: int,
                  failed0: bool, line: string)
    returns (rows: seq<string>, leftPos: int, rightPos: int, failed: bool)
    ensures Walk(rows, leftPos, rightPos, failed) == WalkStep(left, right, Walk(rows0, leftPos0, rightPos0, failed0), line)
  {
    rows, leftPos, rightPos, failed := rows0, leftPos0, rightPos0, failed0;
    if failed {
    } else if StartsWith(line, "  ") {
      var l, r := Index(left, leftPos), Index(right, rightPos);
      if l.None? || r.None? {
        failed := true;
      } else {
        rows := rows + [FormatLine(l.value) + Separator + FormatLine(r.value)];
        leftPos, rightPos := leftPos + 1, rightPos + 1;
      }
    } else if StartsWith(line, "- ") {
      var l := Index(left, leftPos);
      if l.None? {
        failed := true;
      } else {
        rows := rows + [FormatLine(l.value) + Separator + Repeat(' ', ColumnWidth)];
        leftPos := leftPos + 1;
      }
    } else if StartsWith(line, "+ ") {
      var r := Index(right, rightPos);
      if r.None? {
        failed := true;
      } else {
        rows := rows + [Repeat(' ', ColumnWidth) + Separator + FormatLine(r.value)];
        rightPos := rightPos + 1;
      }
    } else if StartsWith(line, "? ") {
      var l, r := Index(left, leftPos - 1), Index(right, rightPos - 1);
      if l.None? || r.None? {
        failed := true;
      } else {
        rows := rows + [FormatLine(l.value) + Separator + FormatLine(r.value), Carets];
      }
    }
  }

  /** Every row of the walk is two 80-character columns and the separator, 163 characters. */
  lemma {:induction false} WalkRowsHaveLineLength(left: seq<string>, right: seq<string>, diff: seq<string>)
    ensures forall i :: 0 <= i < |WalkAll(left, right, diff).rows| ==>
      |WalkAll(left, right, diff).rows[i]| == 2 * ColumnWidth + |Separator|
    decreases |diff|
  {
    if |diff| > 0 {
      WalkRowsHaveLineLength(left, right, diff[..|diff| - 1]);
    }
  }

  /** Without an index error, the left position has advanced once per "  " and "- " line and the
      right position once per "  " and "+ " line; so the two positions differ by the difference
      of the added and removed counts of the summary. */
  lemma {:induction false} WalkPositions(left: seq<string>, right: seq<string>, diff: seq<string>)
    ensures var w := WalkAll(left, right, diff);
      !w.failed ==>
        w.leftPos == CountPrefix(diff, "  ") + CountPrefix(diff, "- ")
        && w.rightPos == CountPrefix(diff, "  ") + CountPrefix(diff, "+ ")
    ensures var w := WalkAll(left, right, diff);
      !w.failed ==> w.leftPos - CountPrefix(diff, "- ") == w.rightPos - CountPrefix(diff, "+ ")
    decreases |diff|
  {
    if |diff| > 0 {
      var init, line := diff[..|diff| - 1], diff[|diff| - 1];
      WalkPositions(left, right, init);
      if StartsWith(line, "  ") {
        assert !StartsWith(line, "- ") && !StartsWith(line, "+ ") by { assert line[0] == ' '; }
      } else if StartsWith(line, "- ") {
        assert !StartsWith(line, "+ ") by { assert line[0] == '-'; }
      }
    }
  }

  /** A failed walk stays failed: once an index error is raised, later lines write nothing. */
  lemma {:induction false} WalkFailureIsFinal(left: seq<string>, right: seq<string>, diff: seq<string>, k: nat)
    requires k <= |diff| && WalkAll(left, right, diff[..k]).failed
    ensures WalkAll(left, right, diff) == WalkAll(left, right, diff[..k])
    decreases |diff| - k
  {
    if k < |diff| {
      assert diff[..k + 1][..k] == diff[..k];
      WalkFailureIsFinal(left, right, diff, k + 1);
    } else {
      assert diff[..k] == diff;
    }
  }

  /** The summary line of `write_file_comparison`: both line counts and the number of "+ " and
      "- " lines. */
  datatype WalkSummary = WalkSummary(leftLines: nat, rightLines: nat, added: nat, removed: nat)

  function Summarise(left: seq<string>, right: seq<string>, diff: seq<string>): (s: WalkSummary)
    ensures s.added <= |diff| && s.removed <= |diff|
    ensures s.leftLines == |left| && s.rightLines == |right|
  {
    WalkSummary(|left|, |right|, CountPrefix(diff, "+ "), CountPrefix(diff, "- "))
  }
}
