/** The rules the comparison scripts apply to single lines of `difflib` output: the colouring of
    `color_diff` (the same generator in two scripts) and the buckets into which the unified-diff
    summaries sort lines. */
module DiffLines {
  import opened PyStr
  import Ansi

  // ------------------------------------------------------------------------------ color_diff

  const Green: string := "\U{1B}[32m"
  const Red: string := "\U{1B}[31m"
  const Yellow: string := "\U{1B}[33m"
  const Reset: string := "\U{1B}[0m"

  /** The colour code `color_diff` wraps a line in, if any: green for "+", red for "-", yellow
      for "!" or "?", tested in that order. */
  function ColourOf(line: string): string {
    if StartsWith(line, "+") then Green
    else if StartsWith(line, "-") then Red
    else if StartsWith(line, "!") || StartsWith(line, "?") then Yellow
    else ""
  }

  /** A text between a colour code and the reset code. */
  function Wrap(code: string, x: string): string {
    code + x + Reset
  }

  function Colour(line: string): string {
    if ColourOf(line) == "" then line else Wrap(ColourOf(line), line)
  }

  /** `color_diff`: one output line per input line, in order; a line is wrapped in a colour and
      the reset code exactly when its first character is one of "+-!?", and is otherwise left
      as it is. */
  function ColorDiff(lines: seq<string>): (r: seq<string>)
    ensures |r| == |lines|
    ensures forall i :: 0 <= i < |r| ==>
      if |lines[i]| > 0 && lines[i][0] in "+-!?" then
        r[i] == ColourOf(lines[i]) + lines[i] + Reset && ColourOf(lines[i]) in {Green, Red, Yellow}
      else r[i] == lines[i]
  {
    seq(|lines|, i requires 0 <= i < |lines| => Colour(lines[i]))
  }

  /** The reset code in front of the rest is removed. */
  lemma ResetRemoved(rest: string)
    ensures Ansi.StripAnsi(Reset + rest) == Ansi.StripAnsi(rest)
  {
    assert Reset + rest == [Ansi.Esc, '['] + ['0'] + ['m'] + "" + rest;
    Ansi.SgrThenPlain(['0'], "", rest);
  }

  /** The colour code with digit `d`, a text without ESC and the reset code: stripping leaves
      the text, and whatever follows is stripped on its own. */
  lemma StripUndoesWrapping(d: char, x: string, rest: string)
    requires Ansi.IsParameter(d) && Ansi.Esc !in x
    ensures Ansi.StripAnsi(Wrap([Ansi.Esc, '[', '3', d, 'm'], x) + rest) == x + Ansi.StripAnsi(rest)
  {
    assert Wrap([Ansi.Esc, '[', '3', d, 'm'], x) + rest == [Ansi.Esc, '['] + ['3', d] + ['m'] + x + (Reset + rest);
    Ansi.SgrThenPlain(['3', d], x, Reset + rest);
    ResetRemoved(rest);
  }

  /** Stripping the escape codes undoes the colouring of a line that holds no ESC itself. */
  lemma StripUndoesColour(line: string)
    requires Ansi.Esc !in line
    ensures Ansi.StripAnsi(Colour(line)) == line
  {
    var code := ColourOf(line);
    assert Ansi.StripAnsi("") == "";
    if code != "" {
      assert Colour(line) == Wrap(code, line) + "";
    }
    if code == Green {
      StripUndoesWrapping('2', line, "");
    } else if code == Red {
      StripUndoesWrapping('1', line, "");
    } else if code == Yellow {
      StripUndoesWrapping('3', line, "");
    } else {
      Ansi.StripAnsiWithoutEsc(line);
    }
  }

  /** Stripping the codes from the coloured diff gives the diff back, line by line. */
  lemma StripUndoesColorDiff(lines: seq<string>)
    requires forall i :: 0 <= i < |lines| ==> Ansi.Esc !in lines[i]
    ensures forall i :: 0 <= i < |lines| ==> Ansi.StripAnsi(ColorDiff(lines)[i]) == lines[i]
  {
    forall i | 0 <= i < |lines| ensures Ansi.StripAnsi(ColorDiff(lines)[i]) == lines[i] {
      StripUndoesColour(lines[i]);
    }
  }

  // -------------------------------------------------------------------- unified-diff buckets

  datatype LineKind = Addition | Deletion | Context | Header

  /** The bucket of one unified-diff line: "+" lines other than the "+++" file header are
      additions, "-" lines other than "---" deletions, the hunk headers "@@" and the two file
      headers are in no bucket, and every other line is context. */
  function KindOf(line: string): LineKind {
    if StartsWith(line, "+") && !StartsWith(line, "+++") then Addition
    else if StartsWith(line, "-") && !StartsWith(line, "---") then Deletion
    else if !StartsWith(line, "@@") && !StartsWith(line, "+++") && !StartsWith(line, "---") then Context
    else Header
  }

  /** A line falls outside the three buckets exactly when it starts "@@", "+++" or "---". */
  lemma HeaderIffPrefixed(line: string)
    ensures KindOf(line) == Header <==>
      StartsWith(line, "@@") || StartsWith(line, "+++") || StartsWith(line, "---")
  {
    if StartsWith(line, "+++") { assert line[..1] == line[..3][..1]; }
    if StartsWith(line, "---") { assert line[..1] == line[..3][..1]; }
    if StartsWith(line, "@@") {
      assert line[0] == '@';
      assert !StartsWith(line, "+") && !StartsWith(line, "-");
    }
  }

  /** How many lines fall in bucket `k`. */
  function CountKind(lines: seq<string>, k: LineKind): (n: nat)
    ensures n <= |lines|
    decreases |lines|
  {
    if |lines| == 0 then 0
    else CountKind(lines[..|lines| - 1], k) + (if KindOf(lines[|lines| - 1]) == k then 1 else 0)
  }

  /** How many lines start with `p`. */
  function CountPrefix(lines: seq<string>, p: string): (n: nat)
    ensures n <= |lines|
    decreases |lines|
  {
    if |lines| == 0 then 0
    else CountPrefix(lines[..|lines| - 1], p) + (if StartsWith(lines[|lines| - 1], p) then 1 else 0)
  }

  /** Every line is in exactly one of the four buckets. */
  lemma {:induction false} BucketsPartitionLines(lines: seq<string>)
    ensures CountKind(lines, Addition) + CountKind(lines, Deletion) + CountKind(lines, Context)
      + CountKind(lines, Header) == |lines|
    decreases |lines|
  {
    if |lines| > 0 {
      BucketsPartitionLines(lines[..|lines| - 1]);
    }
  }

  /** How many lines start "@@", "+++" or "---". */
  function CountHeaderPrefixed(lines: seq<string>): (n: nat)
    ensures n <= |lines|
    decreases |lines|
  {
    if |lines| == 0 then 0
    else
      var l := lines[|lines| - 1];
      CountHeaderPrefixed(lines[..|lines| - 1])
        + (if StartsWith(l, "@@") || StartsWith(l, "+++") || StartsWith(l, "---") then 1 else 0)
  }

  /** The three buckets together hold every line except those starting "@@", "+++" or "---". */
  lemma {:induction false} BucketsMissOnlyHeaders(lines: seq<string>)
    ensures CountKind(lines, Addition) + CountKind(lines, Deletion) + CountKind(lines, Context)
      == |lines| - CountHeaderPrefixed(lines)
    decreases |lines|
  {
    if |lines| > 0 {
      BucketsMissOnlyHeaders(lines[..|lines| - 1]);
      HeaderIffPrefixed(lines[|lines| - 1]);
    }
  }

  // ---------------------------------------------------------------------- side-by-side cells

  /** A cell longer than the width is cut to `width - 3` characters (a negative bound counting
      from the end, as Python slices do) followed by "...". The CSV sanitiser of `git-diffs.py`
      truncates a cell to its length limit by the same rule. */
  function Cut(line: string, width: int): (r: string)
    ensures |line| <= width ==> r == line
    ensures 3 <= width < |line| ==> |r| == width && r == line[..width - 3] + "..."
  {
    if |line| > width then SliceTo(line, width - 3) + "..." else line
  }

  /** The line at `i`, or "" past the end of the shorter file. */
  function LineAt(lines: seq<string>, i: nat): string {
    if i < |lines| then lines[i] else ""
  }
}
