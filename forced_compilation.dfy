/**
 * Forced shader recompilation: every shader file under a folder gets a
 * first line "//LastForcedCompilation_<date>_<time>", replacing an earlier
 * such line or inserted in front, so that the editor sees a change and
 * recompiles it. Files are modelled as their sequence of lines; the clock
 * reading of each iteration is an opaque string.
 */
module ForcedCompilation {
  import opened Wrappers
  import opened Text

  /** The comment text that marks a line written by this tool. */
  const MARKER := "//LastForcedCompilation"

  /** Folder used when no compilation folder is chosen. */
  const DEFAULT_FOLDER := "Assets"

  /** The line written into each shader: the marker, then the date and time. */
  function StampLine(stamp: string): (line: string)
    ensures StartsWith(line, MARKER)
    ensures Contains(line, MARKER)
  {
    var line := MARKER + "_" + stamp;
    assert line[..|MARKER|] == MARKER;
    line
  }

  /**
   * The marker rewrite of one file, as a value: None when the file has no
   * line (reading `lines[0]` throws), otherwise the rewritten lines.
   */
  function MarkedLines(lines: seq<string>, append: string): Option<seq<string>> {
    if |lines| == 0 then None
    else if Contains(lines[0], MARKER) then Some(lines[0 := append])
    else Some([append] + lines)
  }

  /** An empty file cannot be rewritten; any other file can. */
  lemma MarkedLinesFailsOnlyWhenEmpty(lines: seq<string>, append: string)
    ensures MarkedLines(lines, append).None? <==> lines == []
  {
  }

  /** A marked file keeps its length: line 0 becomes `append`, every other line stays. */
  lemma MarkerLineReplaced(lines: seq<string>, append: string)
    requires |lines| > 0 && Contains(lines[0], MARKER)
    ensures MarkedLines(lines, append).Some?
    ensures var r := MarkedLines(lines, append).value;
      |r| == |lines| && r[0] == append &&
      forall k :: 1 <= k < |lines| ==> r[k] == lines[k]
  {
  }

  /** An unmarked file grows by exactly one line: `append`, then the old lines in order. */
  lemma MarkerLineInserted(lines: seq<string>, append: string)
    requires |lines| > 0 && !Contains(lines[0], MARKER)
    ensures MarkedLines(lines, append).Some?
    ensures var r := MarkedLines(lines, append).value;
      |r| == |lines| + 1 && r[0] == append &&
      forall k :: 0 <= k < |lines| ==> r[k + 1] == lines[k]
  {
  }

  /**
   * A second run replaces the first run's line: rewriting with stamp line
   * `a1` and then with `a2` is the same as rewriting once with `a2`.
   */
  lemma {:induction false} RewriteTwiceIsRewriteOnce(lines: seq<string>, a1: string, a2: string)
    requires StartsWith(a1, MARKER)
    requires |lines| > 0
    ensures MarkedLines(lines, a1).Some?
    ensures MarkedLines(MarkedLines(lines, a1).value, a2) == MarkedLines(lines, a2)
  {
    PrefixIsContained(a1, MARKER);
    if Contains(lines[0], MARKER) {
      assert lines[0 := a1][0 := a2] == lines[0 := a2];
    } else {
      assert ([a1] + lines)[0 := a2] == [a2] + lines;
    }
  }

  /** With the same stamp line the rewrite is idempotent. */
  lemma RewriteIdempotent(lines: seq<string>, append: string)
    requires StartsWith(append, MARKER)
    requires |lines| > 0
    ensures MarkedLines(lines, append).Some?
    ensures MarkedLines(MarkedLines(lines, append).value, append) == MarkedLines(lines, append)
  {
    RewriteTwiceIsRewriteOnce(lines, append, append);
  }

  /**
   * `after` is `before` rewritten by one run with a stamp line of its own:
   * its line 0 starts with the marker and the rest is what one run produces.
   */
  predicate RewrittenOnce(before: seq<string>, after: seq<string>) {
    |after| > 0 && StartsWith(after[0], MARKER) &&
    MarkedLines(before, after[0]) == Some(after)
  }

  /** What RewrittenOnce guarantees about the file contents. */
  lemma RewrittenOnceShape(before: seq<string>, after: seq<string>)
    requires RewrittenOnce(before, after)
    ensures |before| > 0
    ensures Contains(after[0], MARKER)
    ensures |after| == |before| + (if Contains(before[0], MARKER) then 0 else 1)
    ensures after[1..] == if Contains(before[0], MARKER) then before[1..] else before
  {
  }

  /** Any number of further runs leaves a file rewritten once, never longer. */
  lemma {:induction false} RewrittenOnceAgain(before: seq<string>, after: seq<string>, append: string)
    requires RewrittenOnce(before, after)
    requires StartsWith(append, MARKER)
    ensures MarkedLines(after, append).Some?
    ensures RewrittenOnce(before, MarkedLines(after, append).value)
  {
    RewriteTwiceIsRewriteOnce(before, after[0], append);
    var r := MarkedLines(after, append).value;
    assert MarkedLines(before, append) == Some(r);
    assert r[0] == append by {
      PrefixIsContained(after[0], MARKER);
    }
  }

  /**
   * The in-place form of the rewrite on the array ReadAllLines returns.
   * When line 0 holds the marker it is overwritten in `lines` itself;
   * otherwise a fresh array one longer is built, as List.Insert(0, ...) and
   * ToArray do, and `lines` is left alone. An empty file gives None.
   */
  method RewriteMarkerLine(lines: array<string>, append: string) returns (result: Option<array<string>>)
    modifies lines
    ensures result.None? <==> lines.Length == 0
    ensures result.Some? ==> Some(result.value[..]) == MarkedLines(old(lines[..]), append)
    ensures result.Some? && Contains(old(lines[0]), MARKER) ==> result.value == lines
    ensures result.Some? && !Contains(old(lines[0]), MARKER) ==>
      fresh(result.value) && lines[..] == old(lines[..])
  {
    if lines.Length == 0 {
      return None;
    }
    if Contains(lines[0], MARKER) {
      lines[0] := append;
      assert lines[..] == old(lines[..])[0 := append];
      return Some(lines);
    }
    ghost var before := lines[..];
    assert !Contains(before[0], MARKER);
    var l := new string[lines.Length + 1];
    l[0] := append;
    for i := 0 to lines.Length
      modifies l
      invariant l[0] == append
      invariant forall k :: 0 <= k < i ==> l[k + 1] == before[k]
    {
      l[i + 1] := lines[i];
    }
    assert forall k :: 0 <= k < l.Length ==> l[..][k] == ([append] + before)[k];
    assert l[..] == [append] + before;
    return Some(l);
  }

  /** How a forced recompilation ended. */
  datatype Outcome =
    | Cancelled                  // the confirmation dialog was declined
    | NotAFolder(folder: string) // the chosen path is not a folder: error logged, nothing written
    | Aborted(path: string)      // this shader file was missing or empty: the loop stopped there
    | Completed                  // every shader under the folder was rewritten

  /**
   * IsValidFolder on an object: `folder` is None for null and otherwise the
   * object's asset path; `folders` is the set of valid folder paths.
   */
  predicate IsValidFolder(folder: Option<string>, folders: set<string>) {
    folder.Some? && folder.value in folders
  }

  /**
   * The filter FolderField applies to the object picked in the window: an
   * object that is not a valid folder is replaced by null, a folder is kept.
   */
  function FolderField(picked: Option<string>, folders: set<string>): (field: Option<string>)
    ensures field == picked || field == None
    ensures field == None || IsValidFolder(field, folders)
    ensures IsValidFolder(picked, folders) ==> field == picked
  {
    if picked.Some? && !IsValidFolder(picked, folders) then None else picked
  }

  /** The folder ForceShaderCompilation works on: the chosen one, or "Assets". */
  function CompilationFolder(chosenPath: string): (folder: string)
    ensures folder != ""
    ensures chosenPath == "" ==> folder == DEFAULT_FOLDER
    ensures chosenPath != "" ==> folder == chosenPath
  {
    if chosenPath == "" then DEFAULT_FOLDER else chosenPath
  }

  /** The state of a run of the loop: the files so far, and the path it stopped at, if any. */
  datatype Run = Run(files: map<string, seq<string>>, stoppedAt: Option<string>)

  /**
   * The loop over the shader paths as a value: the first `|paths|` iterations,
   * iteration `i` writing the stamp line of clock reading `stamp(i)`.
   */
  function RewriteShaders(files: map<string, seq<string>>, paths: seq<string>, stamp: nat -> string): Run
    decreases |paths|
  {
    if paths == [] then Run(files, None)
    else
      var prev := RewriteShaders(files, paths[..|paths| - 1], stamp);
      var p := paths[|paths| - 1];
      if prev.stoppedAt.Some? then prev
      else if p !in prev.files then Run(prev.files, Some(p))
      else match MarkedLines(prev.files[p], StampLine(stamp(|paths| - 1)))
        case None => Run(prev.files, Some(p))
        case Some(l) => Run(prev.files[p := l], None)
  }

  /** The loop never adds or removes a file, and touches only shader paths. */
  lemma {:induction false} RewriteShadersFrame(files: map<string, seq<string>>, paths: seq<string>, stamp: nat -> string)
    ensures RewriteShaders(files, paths, stamp).files.Keys == files.Keys
    ensures forall q :: q in files && q !in paths ==> RewriteShaders(files, paths, stamp).files[q] == files[q]
    decreases |paths|
  {
    if paths != [] {
      RewriteShadersFrame(files, paths[..|paths| - 1], stamp);
      assert forall q :: q !in paths ==> q !in paths[..|paths| - 1];
    }
  }

  /**
   * When the loop completes, every shader file was rewritten as by one run,
   * whether its path came up once or several times: its line 0 carries the
   * marker and it grew by at most one line.
   */
  lemma {:induction false} RewriteShadersCompleted(files: map<string, seq<string>>, paths: seq<string>, stamp: nat -> string)
    requires RewriteShaders(files, paths, stamp).stoppedAt == None
    ensures forall p :: p in paths ==>
      p in files && p in RewriteShaders(files, paths, stamp).files &&
      RewrittenOnce(files[p], RewriteShaders(files, paths, stamp).files[p])
    decreases |paths|
  {
    if paths != [] {
      var init := paths[..|paths| - 1];
      var p := paths[|paths| - 1];
      var prev := RewriteShaders(files, init, stamp);
      var append := StampLine(stamp(|paths| - 1));
      RewriteShadersCompleted(files, init, stamp);
      RewriteShadersFrame(files, init, stamp);
      var after := MarkedLines(prev.files[p], append).value;
      assert RewriteShaders(files, paths, stamp).files == prev.files[p := after];
      if p in init {
        RewrittenOnceAgain(files[p], prev.files[p], append);
      } else {
        assert prev.files[p] == files[p];
        assert after[0] == append;
      }
      forall q | q in paths
        ensures q in files && q in RewriteShaders(files, paths, stamp).files &&
          RewrittenOnce(files[q], RewriteShaders(files, paths, stamp).files[q])
      {
        if q != p {
          assert q in init;
        }
      }
    }
  }

  /**
   * ForceShaderCompilation. `chosenPath` is the asset path of the chosen
   * folder ("" when none), `confirmed` the answer to the dialog, `folders`
   * the valid folders, `shaderPaths` the shader assets found under the folder
   * in the order the database gives them, `files` the project's text files
   * by asset path, and `stamp(i)` the clock reading at iteration `i`.
   */
  method ForceShaderCompilation(chosenPath: string, confirmed: bool, folders: set<string>,
                                shaderPaths: seq<string>, files: map<string, seq<string>>,
                                stamp: nat -> string)
    returns (outcome: Outcome, written: map<string, seq<string>>)
    ensures !confirmed ==> outcome == Cancelled && written == files
    ensures confirmed && CompilationFolder(chosenPath) !in folders ==>
      outcome == NotAFolder(CompilationFolder(chosenPath)) && written == files
    ensures confirmed && CompilationFolder(chosenPath) in folders ==>
      var run := RewriteShaders(files, shaderPaths, stamp);
      written == run.files &&
      outcome == (if run.stoppedAt.Some? then Aborted(run.stoppedAt.value) else Completed)
  {
    var folderPath := CompilationFolder(chosenPath);
    written := files;
    if !confirmed {
      return Cancelled, written;
    }
    if folderPath !in folders {
      return NotAFolder(folderPath), written;
    }
    var i := 0;
    while i < |shaderPaths|
      invariant 0 <= i <= |shaderPaths|
      invariant RewriteShaders(files, shaderPaths[..i], stamp) == Run(written, None)
    {
      var shaderPath := shaderPaths[i];
      var append := StampLine(stamp(i));
      assert shaderPaths[..i + 1][..i] == shaderPaths[..i];
      if shaderPath !in written {
        assert RewriteShaders(files, shaderPaths[..i + 1], stamp) == Run(written, Some(shaderPath));
        PrefixRunStops(files, shaderPaths, stamp, i + 1);
        return Aborted(shaderPath), written;
      }
      var contents := written[shaderPath];
      var lines := new string[|contents|](k requires 0 <= k < |contents| => contents[k]);
      assert lines[..] == contents;
      var rewritten := RewriteMarkerLine(lines, append);
      if rewritten.None? {
        assert RewriteShaders(files, shaderPaths[..i + 1], stamp) == Run(written, Some(shaderPath));
        PrefixRunStops(files, shaderPaths, stamp, i + 1);
        return Aborted(shaderPath), written;
      }
      written := written[shaderPath := rewritten.value[..]];
      i := i + 1;
    }
    assert shaderPaths[..i] == shaderPaths;
    return Completed, written;
  }

  /** Once the loop has stopped, later paths change nothing. */
  lemma {:induction false} PrefixRunStops(files: map<string, seq<string>>, paths: seq<string>, stamp: nat -> string, n: nat)
    requires n <= |paths|
    requires RewriteShaders(files, paths[..n], stamp).stoppedAt.Some?
    ensures RewriteShaders(files, paths, stamp) == RewriteShaders(files, paths[..n], stamp)
    decreases |paths| - n
  {
    if n < |paths| {
      assert paths[..n + 1][..n] == paths[..n];
      PrefixRunStops(files, paths, stamp, n + 1);
    } else {
      assert paths[..n] == paths;
    }
  }
}
