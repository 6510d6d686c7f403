/** `collect_files` of `compare-files/folder1-diffs.py` and of `folder-compare.py`: every file the
    directory walk reports, keyed by its path relative to the root. The walk itself (`os.walk`)
    and `os.path.relpath` are inputs; the folder1 variant rewrites backslashes in the key to
    slashes (`os.path.normcase` is the identity on POSIX). */
module DirWalk {
  import opened PyStr
  import Dicts

  /** One step of the walk: a directory path and the names of the files in it. */
  datatype Step = Step(dirPath: string, fileNames: seq<string>)

  /** `normalized_path`: the relative path with every backslash turned into a slash. */
  function NormaliseKey(rel: string): (r: string)
    ensures '\\' !in r
  {
    ReplaceRemovesChar(rel, '\\', "/");
    Replace(rel, "\\", "/")
  }

  /** The relative path unchanged, as `folder-compare.py` keys it. */
  function PlainKey(rel: string): string {
    rel
  }

  /** The (key, full path) pairs of the files of one step, in order. */
  function StepPairs(step: Step, relOf: string -> string, keyOf: string -> string): (r: seq<(string, string)>)
    ensures |r| == |step.fileNames|
  {
    seq(|step.fileNames|, j requires 0 <= j < |step.fileNames| =>
      var full := PathJoin(step.dirPath, step.fileNames[j]);
      (keyOf(relOf(full)), full))
  }

  /** The pairs of the whole walk, in the order the walk reports the files. */
  function WalkPairs(walk: seq<Step>, relOf: string -> string, keyOf: string -> string): seq<(string, string)>
    decreases |walk|
  {
    if |walk| == 0 then []
    else WalkPairs(walk[..|walk| - 1], relOf, keyOf) + StepPairs(walk[|walk| - 1], relOf, keyOf)
  }

  /** `collect_files`: `files[key] = full_path` for every file in walk order, so the dict is the
      one built from the walk's pairs, and a later file with the same key replaces an earlier
      one. */
  method CollectFiles(walk: seq<Step>, relOf: string -> string, keyOf: string -> string)
    returns (files: Dicts.Dict<string>)
    ensures files == Dicts.FromPairs(WalkPairs(walk, relOf, keyOf))
  {
    files := Dicts.Empty();
    for i := 0 to |walk|
      invariant files == Dicts.FromPairs(WalkPairs(walk[..i], relOf, keyOf))
    {
      assert walk[..i + 1][..i] == walk[..i];
      files := CollectStep(files, walk[i], relOf, keyOf, WalkPairs(walk[..i], relOf, keyOf));
    }
    assert walk[..|walk|] == walk;
  }

  /** The inner loop of `collect_files`, over the file names of one step of the walk. */
  method CollectStep(files: Dicts.Dict<string>, step: Step, relOf: string -> string, keyOf: string -> string,
                     ghost done: seq<(string, string)>)
    returns (r: Dicts.Dict<string>)
    requires files == Dicts.FromPairs(done)
    ensures r == Dicts.FromPairs(done + StepPairs(step, relOf, keyOf))
  {
    r := files;
    ghost var pairs := StepPairs(step, relOf, keyOf);
    for j := 0 to |step.fileNames|
      invariant Dicts.Valid(r)
      invariant Dicts.PutAll(r, pairs[j..]) == Dicts.PutAll(files, pairs)
    {
      var full := PathJoin(step.dirPath, step.fileNames[j]);
      var key := keyOf(relOf(full));
      assert pairs[j..][0] == (key, full) && pairs[j..][1..] == pairs[j + 1..];
      r := Dicts.Put(r, key, full);
    }
    Dicts.FromPairsAppend(done, pairs);
  }

  /** Every file of the walk is found under its key, and only such keys are present. */
  lemma CollectedKeys(walk: seq<Step>, relOf: string -> string, keyOf: string -> string, k: string)
    ensures var pairs := WalkPairs(walk, relOf, keyOf);
      k in Dicts.FromPairs(pairs).vals <==> exists i :: 0 <= i < |pairs| && pairs[i].0 == k
  {
    Dicts.FromPairsKeys(WalkPairs(walk, relOf, keyOf), k);
  }

  /** The key maps to the full path of the last file that has it. */
  lemma CollectedLastWins(walk: seq<Step>, relOf: string -> string, keyOf: string -> string, i: nat)
    requires i < |WalkPairs(walk, relOf, keyOf)|
    requires var pairs := WalkPairs(walk, relOf, keyOf);
      forall j :: i < j < |pairs| ==> pairs[j].0 != pairs[i].0
    ensures var pairs := WalkPairs(walk, relOf, keyOf);
      pairs[i].0 in Dicts.FromPairs(pairs).vals && Dicts.FromPairs(pairs).vals[pairs[i].0] == pairs[i].1
  {
    Dicts.FromPairsLastWins(WalkPairs(walk, relOf, keyOf), i);
  }

  /** Normalised keys hold no backslash, and two relative paths that differ only in the kind of
      separator share one key, so the later file hides the earlier one. */
  lemma NormalisedKeysMerge()
    ensures NormaliseKey("a\\b") == NormaliseKey("a/b") == "a/b"
  {
    assert "a\\b" == ['a'] + (['\\'] + ['b']);
    ReplaceCharConcat(['a'], ['\\'] + ['b'], '\\', "/");
    ReplaceCharConcat(['\\'], ['b'], '\\', "/");
    ReplaceCharSingle('a', '\\', "/");
    ReplaceCharSingle('\\', '\\', "/");
    ReplaceCharSingle('b', '\\', "/");
    ReplaceAbsent("a/b", "\\", "/");
  }
}
