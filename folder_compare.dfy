/** `folder-compare.py`: both trees are collected into dicts keyed by the relative path, then
    every key of either tree is visited once in ascending order, and a pair present on both
    sides is diffed in the format the flags choose, the other keys reported as present on one
    side only. With `-m`, `main` prints the first element of what `compare_files` returns; when
    `-u` or `-n` also is set that is a generator, the subscript raises a `TypeError` and the run
    ends after that key's heading. The `difflib` generators, the file reads and the modification times are inputs:
    the four diffs a pair of files would produce arrive as one `DifflibOutputs` value. */
module FolderCompare {
  import opened Wrappers
  import DiffLines
  import Ansi
  import Ordering
  import DirWalk
  import Dicts

  /** The flags that select the output: `-c`, `-u`, `-m`, `-n` and `--lines`. */
  datatype Options = Options(c: bool, u: bool, m: bool, n: bool, lines: int)

  datatype Format = Unified | Ndiff | Html | ContextDiff

  /** The format `compare_files` uses: `-u` wins over `-n`, `-n` over `-m`, and with none of
      them the context diff; `-c` selects nothing. */
  function FormatOf(o: Options): Format {
    if o.u then Unified
    else if o.n then Ndiff
    else if o.m then Html
    else ContextDiff
  }

  /** Each format is chosen exactly when its flag is set and no stronger one is, and `-c` plays
      no part in the choice. */
  lemma FormatPrecedence(o: Options)
    ensures FormatOf(o) == Unified <==> o.u
    ensures FormatOf(o) == Ndiff <==> !o.u && o.n
    ensures FormatOf(o) == Html <==> !o.u && !o.n && o.m
    ensures FormatOf(o) == ContextDiff <==> !o.u && !o.n && !o.m
    ensures FormatOf(o.(c := !o.c)) == FormatOf(o)
  {
  }

  /** What `difflib` would produce for one pair of files under the options: the unified, ndiff
      and context diffs as lists of lines and the HTML page. */
  datatype DifflibOutputs = DifflibOutputs(unified: seq<string>, ndiff: seq<string>,
                                           context: seq<string>, html: string)

  /** The result of `compare_files`: coloured diff lines, or the HTML page alone. */
  datatype Comparison = Lines(lines: seq<string>) | Page(html: string)

  /** `compare_files`: the page for `-m` (unless `-u` or `-n` wins), otherwise the chosen diff
      passed through `color_diff`. */
  function CompareFiles(o: Options, d: DifflibOutputs): (r: Comparison)
    ensures r.Page? <==> FormatOf(o) == Html
    ensures r.Page? ==> r.html == d.html
    ensures r.Lines? ==> |r.lines| == |DiffOf(FormatOf(o), d)|
  {
    if o.u then Lines(DiffLines.ColorDiff(d.unified))
    else if o.n then Lines(DiffLines.ColorDiff(d.ndiff))
    else if o.m then Page(d.html)
    else Lines(DiffLines.ColorDiff(d.context))
  }

  /** The diff lines of a line format. */
  function DiffOf(f: Format, d: DifflibOutputs): seq<string> {
    match f
    case Unified => d.unified
    case Ndiff => d.ndiff
    case ContextDiff => d.context
    case Html => []
  }

  /** Stripping the colour codes from the lines `compare_files` returns gives the lines of the
      diff in the chosen format back, one for one. */
  lemma ComparedLinesAreTheChosenDiff(o: Options, d: DifflibOutputs)
    requires FormatOf(o) != Html
    requires var diff := DiffOf(FormatOf(o), d); forall i :: 0 <= i < |diff| ==> Ansi.Esc !in diff[i]
    ensures var r := CompareFiles(o, d); var diff := DiffOf(FormatOf(o), d);
      r.Lines? && |r.lines| == |diff| && forall i :: 0 <= i < |diff| ==> Ansi.StripAnsi(r.lines[i]) == diff[i]
  {
    var diff := DiffOf(FormatOf(o), d);
    assert CompareFiles(o, d) == Lines(DiffLines.ColorDiff(diff));
    DiffLines.StripUndoesColorDiff(diff);
  }

  // --------------------------------------------------------------------------------- main

  /** What `main` does for one key. */
  datatype Action = Diffed(result: Comparison) | OnlyInFrom | OnlyInTo | Skipped

  datatype Entry = Entry(rel: string, action: Action)

  /** A path as `dict.get` returns it is used only when it is truthy, i.e. present and
      non-empty. */
  predicate Truthy(p: Option<string>) {
    p.Some? && p.value != ""
  }

  function Get(m: map<string, string>, k: string): Option<string> {
    if k in m then Some(m[k]) else None
  }

  /** The branch `main` takes for a key: a diff of the two paths when both are truthy, otherwise
      the side that has one. */
  function ActionFor(fromPath: Option<string>, toPath: Option<string>,
                     compare: (string, string) -> Comparison): Action {
    if Truthy(fromPath) && Truthy(toPath) then Diffed(compare(fromPath.value, toPath.value))
    else if Truthy(fromPath) then OnlyInFrom
    else if Truthy(toPath) then OnlyInTo
    else Skipped
  }

  /** The four branches are exclusive and each is taken exactly in its case; a diff compares the
      two paths in the order from, to. */
  lemma ActionCases(fromPath: Option<string>, toPath: Option<string>, compare: (string, string) -> Comparison)
    ensures var a := ActionFor(fromPath, toPath, compare);
      (a.Diffed? <==> Truthy(fromPath) && Truthy(toPath))
      && (a == OnlyInFrom <==> Truthy(fromPath) && !Truthy(toPath))
      && (a == OnlyInTo <==> !Truthy(fromPath) && Truthy(toPath))
      && (a == Skipped <==> !Truthy(fromPath) && !Truthy(toPath))
      && (a.Diffed? ==> a.result == compare(fromPath.value, toPath.value))
  {
  }

  /** The entries of the keys, in the keys' order. */
  function Entries(keys: seq<string>, fromFiles: map<string, string>, toFiles: map<string, string>,
                   compare: (string, string) -> Comparison): (es: seq<Entry>)
    ensures |es| == |keys|
  {
    seq(|keys|, i requires 0 <= i < |keys| =>
      Entry(keys[i], ActionFor(Get(fromFiles, keys[i]), Get(toFiles, keys[i]), compare)))
  }

  /** `print(diff[0])` under `-m` when `compare_files` returned the `color_diff` generator
      (because `-u` or `-n` won the format choice): a generator cannot be subscripted, so
      TypeError ends the run right after the key's heading. */
  predicate Raises(e: Entry, m: bool) {
    m && e.action.Diffed? && e.action.result.Lines?
  }

  /** Some entry of the run raises. */
  predicate AnyRaises(es: seq<Entry>, m: bool)
    decreases |es|
  {
    |es| > 0 && (AnyRaises(es[..|es| - 1], m) || Raises(es[|es| - 1], m))
  }

  /** An entry raises somewhere in the run exactly when some entry raises. */
  lemma {:induction false} AnyRaisesIff(es: seq<Entry>, m: bool)
    ensures AnyRaises(es, m) <==> exists i :: 0 <= i < |es| && Raises(es[i], m)
    decreases |es|
  {
    if |es| > 0 {
      var init := es[..|es| - 1];
      AnyRaisesIff(init, m);
      if exists i :: 0 <= i < |init| && Raises(init[i], m) {
        var i :| 0 <= i < |init| && Raises(init[i], m);
        assert es[i] == init[i];
      }
      if exists i :: 0 <= i < |es| && Raises(es[i], m) {
        var i :| 0 <= i < |es| && Raises(es[i], m);
        if i < |init| { assert init[i] == es[i]; }
      }
    }
  }

  /** A diffed pair raises exactly when `-m` is given together with `-u` or `-n`. */
  lemma MWithLineFormatRaises(o: Options, d: DifflibOutputs, rel: string)
    ensures Raises(Entry(rel, Diffed(CompareFiles(o, d))), o.m) <==> o.m && (o.u || o.n)
  {
  }

  /** What is written to standard output for one entry: the heading, then under `-m` the first
      element of the result followed by a newline, and otherwise the result through
      `writelines`; the "Only in" line for a file on one side. */
  function Section(e: Entry, m: bool, fromdir: string, todir: string): seq<string> {
    ["\n=== Comparing: " + e.rel + " ===\n"]
    + match e.action
      case Diffed(Lines(lines)) => if m then [] else lines
      case Diffed(Page(html)) => if m then [html + "\n"] else [html]
      case OnlyInFrom => ["Only in " + fromdir + ": " + e.rel + "\n"]
      case OnlyInTo => ["Only in " + todir + ": " + e.rel + "\n"]
      case Skipped => []
  }

  /** The output of a run: the sections of the entries one after the other, up to and including
      the first entry that raises. */
  function Transcript(es: seq<Entry>, m: bool, fromdir: string, todir: string): seq<string>
    decreases |es|
  {
    if |es| == 0 then []
    else
      var init := es[..|es| - 1];
      if AnyRaises(init, m) then Transcript(init, m, fromdir, todir)
      else Transcript(init, m, fromdir, todir) + Section(es[|es| - 1], m, fromdir, todir)
  }

  lemma {:induction false} AnyRaisesConcat(a: seq<Entry>, b: seq<Entry>, m: bool)
    ensures AnyRaises(a + b, m) <==> AnyRaises(a, m) || AnyRaises(b, m)
    decreases |b|
  {
    if |b| == 0 {
      assert a + b == a;
    } else {
      assert (a + b)[..|a + b| - 1] == a + b[..|b| - 1];
      AnyRaisesConcat(a, b[..|b| - 1], m);
    }
  }

  /** The output of two runs of entries is the output of the first followed, unless the first
      raised, by that of the second: no section depends on another. */
  lemma {:induction false} TranscriptAppend(a: seq<Entry>, b: seq<Entry>, m: bool, fromdir: string, todir: string)
    ensures Transcript(a + b, m, fromdir, todir)
      == Transcript(a, m, fromdir, todir) + (if AnyRaises(a, m) then [] else Transcript(b, m, fromdir, todir))
    decreases |b|
  {
    if |b| == 0 {
      assert a + b == a;
    } else {
      var b', last := b[..|b| - 1], b[|b| - 1];
      assert (a + b)[..|a + b| - 1] == a + b';
      assert (a + b)[|a + b| - 1] == last;
      TranscriptAppend(a, b', m, fromdir, todir);
      AnyRaisesConcat(a, b', m);
      var sec := Section(last, m, fromdir, todir);
      if AnyRaises(a, m) {
        assert Transcript(a + b, m, fromdir, todir) == Transcript(a + b', m, fromdir, todir);
      } else if AnyRaises(b', m) {
        assert Transcript(b, m, fromdir, todir) == Transcript(b', m, fromdir, todir);
        assert Transcript(a + b, m, fromdir, todir) == Transcript(a + b', m, fromdir, todir);
      } else {
        assert Transcript(b, m, fromdir, todir) == Transcript(b', m, fromdir, todir) + sec;
        assert Transcript(a + b, m, fromdir, todir) == Transcript(a + b', m, fromdir, todir) + sec;
      }
    }
  }

  /** The output of entry `i` sits between that of the entries before it and that of the
      entries after it, unless an earlier entry raised; it begins with the entry's heading, and
      nothing follows it when it raises. */
  lemma TranscriptHeadings(es: seq<Entry>, m: bool, fromdir: string, todir: string, i: nat)
    requires i < |es|
    ensures AnyRaises(es[..i], m) ==> Transcript(es, m, fromdir, todir) == Transcript(es[..i], m, fromdir, todir)
    ensures !AnyRaises(es[..i], m) ==> (Transcript(es, m, fromdir, todir) == Transcript(es[..i], m, fromdir, todir)
      + Section(es[i], m, fromdir, todir) + (if Raises(es[i], m) then [] else Transcript(es[i + 1..], m, fromdir, todir)))
    ensures Section(es[i], m, fromdir, todir)[0] == "\n=== Comparing: " + es[i].rel + " ===\n"
  {
    assert es == es[..i] + [es[i]] + es[i + 1..];
    TranscriptAppend(es[..i] + [es[i]], es[i + 1..], m, fromdir, todir);
    TranscriptStep(es[..i], es[i], m, fromdir, todir);
    AnyRaisesConcat(es[..i], [es[i]], m);
    assert [es[i]][..0] == [];
  }

  /** `main` after the two walks: the sorted union of the keys, then one section per key, until
      a key raises. `entries` are the keys visited; the output is the transcript of every key's
      entry, which ends at the first that raises. */
  method CompareTrees(fromFiles: map<string, string>, toFiles: map<string, string>, m: bool,
                      fromdir: string, todir: string, compare: (string, string) -> Comparison)
    returns (keys: seq<string>, entries: seq<Entry>, out: seq<string>, raised: bool)
    ensures Ordering.Sorted(keys)
    ensures forall k :: k in keys <==> k in fromFiles || k in toFiles
    ensures |keys| == |fromFiles.Keys + toFiles.Keys|
    ensures |entries| <= |keys| && entries == Entries(keys[..|entries|], fromFiles, toFiles, compare)
    ensures raised <==> AnyRaises(Entries(keys, fromFiles, toFiles, compare), m)
    ensures !raised ==> |entries| == |keys|
    ensures raised ==> 0 < |entries| && Raises(entries[|entries| - 1], m) && !AnyRaises(entries[..|entries| - 1], m)
    ensures out == Transcript(entries, m, fromdir, todir)
    ensures out == Transcript(Entries(keys, fromFiles, toFiles, compare), m, fromdir, todir)
  {
    keys := Ordering.SortedUnion(fromFiles.Keys, toFiles.Keys);
    entries, out, raised := VisitKeys(keys, fromFiles, toFiles, m, fromdir, todir, compare);
  }

  /** The loop of `main` over a given key list: one section per key, until a key raises. */
  method VisitKeys(keys: seq<string>, fromFiles: map<string, string>, toFiles: map<string, string>, m: bool,
                   fromdir: string, todir: string, compare: (string, string) -> Comparison)
    returns (entries: seq<Entry>, out: seq<string>, raised: bool)
    ensures |entries| <= |keys| && entries == Entries(keys[..|entries|], fromFiles, toFiles, compare)
    ensures raised <==> AnyRaises(Entries(keys, fromFiles, toFiles, compare), m)
    ensures !raised ==> |entries| == |keys|
    ensures raised ==> 0 < |entries| && Raises(entries[|entries| - 1], m) && !AnyRaises(entries[..|entries| - 1], m)
    ensures out == Transcript(entries, m, fromdir, todir)
    ensures out == Transcript(Entries(keys, fromFiles, toFiles, compare), m, fromdir, todir)
  {
    entries, out, raised := [], [], false;
    var i := 0;
    while i < |keys| && !raised
      invariant 0 <= i <= |keys| && |entries| == i
      invariant entries == Entries(keys[..i], fromFiles, toFiles, compare)
      invariant raised <==> AnyRaises(entries, m)
      invariant raised ==> 0 < i && Raises(entries[i - 1], m) && !AnyRaises(entries[..i - 1], m)
      invariant out == Transcript(entries, m, fromdir, todir)
    {
      var e := VisitKey(keys[i], fromFiles, toFiles, compare);
      VisitStep(keys, i, entries, e, fromFiles, toFiles, compare, m, fromdir, todir);
      entries, out := entries + [e], out + Section(e, m, fromdir, todir);
      raised := m && e.action.Diffed? && e.action.result.Lines?;
      i := i + 1;
    }
    CompleteRun(keys, entries, fromFiles, toFiles, compare, m, fromdir, todir);
  }

  /** One turn of `main`'s loop: look the key up on both sides and pick the branch. */
  method VisitKey(relPath: string, fromFiles: map<string, string>, toFiles: map<string, string>,
                  compare: (string, string) -> Comparison) returns (e: Entry)
    ensures e == Entry(relPath, ActionFor(Get(fromFiles, relPath), Get(toFiles, relPath), compare))
  {
    var fromPath := Get(fromFiles, relPath);
    var toPath := Get(toFiles, relPath);
    var action;
    if Truthy(fromPath) && Truthy(toPath) {
      action := Diffed(compare(fromPath.value, toPath.value));
    } else if Truthy(fromPath) {
      action := OnlyInFrom;
    } else if Truthy(toPath) {
      action := OnlyInTo;
    } else {
      action := Skipped;
    }
    e := Entry(relPath, action);
  }

  /** Visiting key `i` after a run with no raise extends the entries by that key's entry and the
      output by its section; the run now raises exactly when that entry does. */
  lemma VisitStep(keys: seq<string>, i: nat, entries: seq<Entry>, e: Entry,
                  fromFiles: map<string, string>, toFiles: map<string, string>,
                  compare: (string, string) -> Comparison, m: bool, fromdir: string, todir: string)
    requires i < |keys| && entries == Entries(keys[..i], fromFiles, toFiles, compare)
    requires !AnyRaises(entries, m)
    requires e == Entry(keys[i], ActionFor(Get(fromFiles, keys[i]), Get(toFiles, keys[i]), compare))
    ensures entries + [e] == Entries(keys[..i + 1], fromFiles, toFiles, compare)
    ensures (entries + [e])[..i] == entries
    ensures AnyRaises(entries + [e], m) <==> Raises(e, m)
    ensures Transcript(entries + [e], m, fromdir, todir) == Transcript(entries, m, fromdir, todir) + Section(e, m, fromdir, todir)
  {
    EntriesStep(keys, i, fromFiles, toFiles, compare);
    TranscriptStep(entries, e, m, fromdir, todir);
    assert (entries + [e])[..i] == entries;
  }

  /** The visited entries are a prefix of every key's entry, and the run stopped only at a
      raise: so the transcript and the raise are those of the whole key list. */
  lemma CompleteRun(keys: seq<string>, entries: seq<Entry>, fromFiles: map<string, string>,
                    toFiles: map<string, string>, compare: (string, string) -> Comparison,
                    m: bool, fromdir: string, todir: string)
    requires |entries| <= |keys| && entries == Entries(keys[..|entries|], fromFiles, toFiles, compare)
    requires AnyRaises(entries, m) || |entries| == |keys|
    ensures AnyRaises(entries, m) <==> AnyRaises(Entries(keys, fromFiles, toFiles, compare), m)
    ensures Transcript(entries, m, fromdir, todir)
      == Transcript(Entries(keys, fromFiles, toFiles, compare), m, fromdir, todir)
  {
    var all := Entries(keys, fromFiles, toFiles, compare);
    var rest := all[|entries|..];
    assert all == entries + rest;
    TranscriptAppend(entries, rest, m, fromdir, todir);
    AnyRaisesConcat(entries, rest, m);
    if |entries| == |keys| {
      assert rest == [];
    }
  }

  lemma EntriesStep(keys: seq<string>, i: nat, fromFiles: map<string, string>, toFiles: map<string, string>,
                    compare: (string, string) -> Comparison)
    requires i < |keys|
    ensures Entries(keys[..i + 1], fromFiles, toFiles, compare) == Entries(keys[..i], fromFiles, toFiles, compare)
      + [Entry(keys[i], ActionFor(Get(fromFiles, keys[i]), Get(toFiles, keys[i]), compare))]
  {
  }

  lemma TranscriptStep(es: seq<Entry>, e: Entry, m: bool, fromdir: string, todir: string)
    ensures Transcript(es + [e], m, fromdir, todir) == Transcript(es, m, fromdir, todir)
      + (if AnyRaises(es, m) then [] else Section(e, m, fromdir, todir))
  {
    assert (es + [e])[..|es|] == es;
  }

  /** In the entries of a sorted key list no key is visited twice, every file of either tree is
      visited and its branch matches the side it is on. */
  lemma EveryFileVisitedOnce(keys: seq<string>, fromFiles: map<string, string>, toFiles: map<string, string>,
                             compare: (string, string) -> Comparison, k: string)
    requires Ordering.Sorted(keys)
    requires forall j :: j in keys <==> j in fromFiles || j in toFiles
    requires k in fromFiles || k in toFiles
    ensures var es := Entries(keys, fromFiles, toFiles, compare);
      exists i :: 0 <= i < |es| && es[i].rel == k
        && (forall j :: 0 <= j < |es| && es[j].rel == k ==> j == i)
        && es[i].action == ActionFor(Get(fromFiles, k), Get(toFiles, k), compare)
  {
    Ordering.SortedHasNoRepeats(keys);
    var i :| 0 <= i < |keys| && keys[i] == k;
    var es := Entries(keys, fromFiles, toFiles, compare);
    assert es[i].rel == k;
    forall j | 0 <= j < |es| && es[j].rel == k ensures j == i {
      assert keys[j] == k;
    }
  }

  /** The comparison `main` makes of a pair of files present on both sides. */
  function Comparer(o: Options, difflib: (string, string) -> DifflibOutputs): (compare: (string, string) -> Comparison)
    ensures forall a, b :: compare(a, b) == CompareFiles(o, difflib(a, b))
  {
    (a, b) => CompareFiles(o, difflib(a, b))
  }

  /** The file map `collect_files` builds from a walk: relative path to full path. */
  function Collected(walk: seq<DirWalk.Step>, relOf: string -> string): map<string, string>
  {
    Dicts.FromPairs(DirWalk.WalkPairs(walk, relOf, DirWalk.PlainKey)).vals
  }

  /** The whole script: walk both trees, key every file by its relative path unchanged, then
      compare, each pair of files diffed with the options; `-m` with `-u` or `-n` raises at the
      first pair present on both sides. */
  method CompareFolders(o: Options, fromdir: string, todir: string,
                        fromWalk: seq<DirWalk.Step>, toWalk: seq<DirWalk.Step>,
                        relFrom: string -> string, relTo: string -> string,
                        difflib: (string, string) -> DifflibOutputs)
    returns (keys: seq<string>, entries: seq<Entry>, out: seq<string>, raised: bool)
    ensures Ordering.Sorted(keys)
    ensures forall k :: k in keys <==> k in Collected(fromWalk, relFrom) || k in Collected(toWalk, relTo)
    ensures |entries| <= |keys|
    ensures entries == Entries(keys[..|entries|], Collected(fromWalk, relFrom), Collected(toWalk, relTo), Comparer(o, difflib))
    ensures raised <==> AnyRaises(Entries(keys, Collected(fromWalk, relFrom), Collected(toWalk, relTo), Comparer(o, difflib)), o.m)
    ensures out == Transcript(Entries(keys, Collected(fromWalk, relFrom), Collected(toWalk, relTo), Comparer(o, difflib)),
                              o.m, fromdir, todir)
  {
    var fromFiles := DirWalk.CollectFiles(fromWalk, relFrom, DirWalk.PlainKey);
    var toFiles := DirWalk.CollectFiles(toWalk, relTo, DirWalk.PlainKey);
    assert fromFiles.vals == Collected(fromWalk, relFrom);
    assert toFiles.vals == Collected(toWalk, relTo);
    keys, entries, out, raised := CompareTrees(fromFiles.vals, toFiles.vals, o.m, fromdir, todir, Comparer(o, difflib));
  }
}
