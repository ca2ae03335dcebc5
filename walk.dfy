/**
 * Walk: the decisions `main` makes around `tidy` (main.go:83-171) with the
 * file system, the glob matcher and the walker taken as inputs.
 *
 *   - the pattern check before the walk (main.go:83-95);
 *   - the walk callback's decision for one entry (main.go:100-132);
 *   - what the callback does with a file it processes: the write it asks
 *     for and the text it prints (main.go:134-168).
 */
module Walk {
  import opened Bytes
  import TidyTransform

  datatype Option<T> = None | Some(value: T)

  /**
   * What `filepath.Match(pattern, name)` returns: whether the name matched,
   * or `ErrBadPattern` (Go then reports no match).
   */
  datatype MatchResult = Matched(matched: bool) | BadPattern

  /** The glob matcher `filepath.Match`, taken as given. */
  type Matcher = (string, string) -> MatchResult

  /** Base names skipped unless `--all` is given (main.go:36). */
  const ExcludedDirs: seq<string> := [".git", ".hg", ".svn", "node_modules", "bower_components", "vendor"]

  // ---------------------------------------------------------------------
  // Pattern check (main.go:83-95)
  // ---------------------------------------------------------------------

  /** A pattern is accepted when matching it against "dummy" reports no error. */
  predicate ValidPattern(m: Matcher, pattern: string) {
    m(pattern, "dummy") != BadPattern
  }

  datatype ConfigError = NoPatterns | InvalidPattern(pattern: string)

  /**
   * The checks `main` runs on the positional arguments before walking: at
   * least one pattern, and every pattern valid. The first invalid pattern is
   * the one reported.
   */
  method CheckPatterns(patterns: seq<string>, m: Matcher) returns (err: Option<ConfigError>)
    ensures err == None <==> |patterns| > 0 && forall i :: 0 <= i < |patterns| ==> ValidPattern(m, patterns[i])
    ensures err == Some(NoPatterns) <==> |patterns| == 0
    ensures err.Some? && err.value.InvalidPattern? ==>
      exists i :: 0 <= i < |patterns| && patterns[i] == err.value.pattern && !ValidPattern(m, patterns[i])
        && forall j :: 0 <= j < i ==> ValidPattern(m, patterns[j])
  {
    if |patterns| == 0 {
      return Some(NoPatterns);
    }
    for i := 0 to |patterns|
      invariant forall j :: 0 <= j < i ==> ValidPattern(m, patterns[j])
    {
      var r := m(patterns[i], "dummy");
      if r == BadPattern {
        return Some(InvalidPattern(patterns[i]));
      }
    }
    return None;
  }

  // ---------------------------------------------------------------------
  // Base names (`filepath.Base` with the separator '/')
  // ---------------------------------------------------------------------

  function StripTrailingSlashes(path: string): (r: string)
    ensures |r| <= |path| && r == path[..|r|]
    ensures r == [] || r[|r| - 1] != '/'
    ensures forall k :: |r| <= k < |path| ==> path[k] == '/'
    decreases |path|
  {
    if path != [] && path[|path| - 1] == '/' then StripTrailingSlashes(path[..|path| - 1]) else path
  }

  /** The part of `path` after its last '/'. */
  function LastElement(path: string): (r: string)
    ensures |r| <= |path| && r == path[|path| - |r|..]
    ensures '/' !in r
    ensures |r| < |path| ==> path[|path| - |r| - 1] == '/'
    decreases |path|
  {
    if path == [] || path[|path| - 1] == '/' then []
    else LastElement(path[..|path| - 1]) + [path[|path| - 1]]
  }

  /** `filepath.Base`: "." for "", "/" for a path of slashes, else the last element. */
  function BaseName(path: string): string {
    if path == "" then "."
    else
      var p := StripTrailingSlashes(path);
      if p == "" then "/" else LastElement(p)
  }

  /** The base name of a path that ends in an element is that element, and never holds a '/'. */
  lemma BaseNameOfJoin(dir: string, name: string)
    requires name != [] && '/' !in name
    ensures BaseName(dir + "/" + name) == name
  {
    var path := dir + "/" + name;
    assert path[|path| - 1] == name[|name| - 1];
    assert StripTrailingSlashes(path) == path;
    LastElementOfJoin(dir + "/", name);
  }

  /** The last element is the longest slash-free end of the path, so it is `name` after a '/'. */
  lemma LastElementOfJoin(front: string, name: string)
    requires front != [] && front[|front| - 1] == '/' && '/' !in name
    ensures LastElement(front + name) == name
  {
    var p := front + name;
    assert p[|p| - |name|..] == name;
  }

  lemma BaseNameHasNoSlash(path: string)
    ensures BaseName(path) != []
    ensures BaseName(path) == "/" || '/' !in BaseName(path)
  {
    var p := StripTrailingSlashes(path);
    if path != "" && p != "" {
      assert LastElement(p) != [] by {
        assert LastElement(p) == LastElement(p[..|p| - 1]) + [p[|p| - 1]];
      }
    }
  }

  // ---------------------------------------------------------------------
  // The walk callback's decision (main.go:100-132)
  // ---------------------------------------------------------------------

  /** One entry as `filepath.Walk` hands it to the callback. */
  datatype Entry = Entry(path: string, isDir: bool)

  /**
   * What the callback does with an entry: stop the walk with the walker's
   * error, return nil for a directory, return `filepath.SkipDir`, return nil
   * for an unmatched file, or go on to process the file.
   */
  datatype Decision = Abort(err: string) | Descend | SkipDir | Ignore | Process

  /** The decision, stated directly; `Classify` is the callback's code for it. */
  function Decide(entry: Entry, walkErr: Option<string>, visitAll: bool, patterns: seq<string>, m: Matcher): Decision {
    if walkErr.Some? then Abort(walkErr.value)
    else if entry.isDir then Descend
    else if !visitAll && BaseName(entry.path) in ExcludedDirs then SkipDir
    else if exists i :: 0 <= i < |patterns| && m(patterns[i], BaseName(entry.path)) == Matched(true) then Process
    else Ignore
  }

  /** The loop over `excludedDirs`: whether the base name is one of them. */
  method IsExcluded(filename: string) returns (excluded: bool)
    ensures excluded <==> filename in ExcludedDirs
  {
    for k := 0 to |ExcludedDirs|
      invariant forall j :: 0 <= j < k ==> ExcludedDirs[j] != filename
    {
      if filename == ExcludedDirs[k] {
        return true;
      }
    }
    return false;
  }

  /**
   * The loop over the patterns, which stops at the first match; the
   * matcher's error result counts as no match. `probed` counts the patterns
   * handed to the matcher.
   */
  method FirstMatch(patterns: seq<string>, m: Matcher, filename: string) returns (matched: bool, ghost probed: nat)
    ensures matched <==> exists i :: 0 <= i < |patterns| && m(patterns[i], filename) == Matched(true)
    ensures matched ==>
      && 0 < probed <= |patterns|
      && m(patterns[probed - 1], filename) == Matched(true)
      && forall j :: 0 <= j < probed - 1 ==> m(patterns[j], filename) != Matched(true)
    ensures !matched ==> probed == |patterns|
  {
    matched := false;
    probed := 0;
    var i := 0;
    while i < |patterns|
      invariant 0 <= i <= |patterns|
      invariant !matched && probed == i
      invariant forall j :: 0 <= j < i ==> m(patterns[j], filename) != Matched(true)
    {
      var r := m(patterns[i], filename);
      if r == Matched(true) {
        matched := true;
        probed := i + 1;
        break;
      }
      i := i + 1;
      probed := i;
    }
  }

  /**
   * The callback's checks in their order: the walker's error, the directory
   * test, the loop over `excludedDirs`, then the loop over the patterns.
   */
  method Classify(entry: Entry, walkErr: Option<string>, visitAll: bool, patterns: seq<string>, m: Matcher)
    returns (d: Decision, ghost probed: nat)
    ensures d == Decide(entry, walkErr, visitAll, patterns, m)
    ensures d == Process ==>
      && 0 < probed <= |patterns|
      && m(patterns[probed - 1], BaseName(entry.path)) == Matched(true)
      && forall j :: 0 <= j < probed - 1 ==> m(patterns[j], BaseName(entry.path)) != Matched(true)
    ensures d == Ignore ==> probed == |patterns|
    ensures d != Process && d != Ignore ==> probed == 0
  {
    probed := 0;
    if walkErr.Some? {
      return Abort(walkErr.value), probed;
    }
    if entry.isDir {
      return Descend, probed;
    }
    var filename := BaseName(entry.path);
    if !visitAll {
      var excluded := IsExcluded(filename);
      if excluded {
        return SkipDir, probed;
      }
    }
    var matched;
    matched, probed := FirstMatch(patterns, m, filename);
    if !matched {
      return Ignore, probed;
    }
    return Process, probed;
  }

  /** Directories are never excluded; the exclusion loop is not reached for them. */
  lemma DirectoryAlwaysDescends(path: string, visitAll: bool, patterns: seq<string>, m: Matcher)
    ensures Decide(Entry(path, true), None, visitAll, patterns, m) == Descend
  {
  }

  /** A file, not a directory, whose base name is excluded makes the callback return `SkipDir`. */
  lemma ExcludedFileSkipsDir(dir: string, name: string, patterns: seq<string>, m: Matcher)
    requires name in ExcludedDirs
    ensures Decide(Entry(dir + "/" + name, false), None, false, patterns, m) == SkipDir
  {
    assert '/' !in name by {
      assert name == ".git" || name == ".hg" || name == ".svn" || name == "node_modules"
        || name == "bower_components" || name == "vendor";
    }
    BaseNameOfJoin(dir, name);
  }

  /** With `--all` no name is excluded: a file is processed exactly when a pattern matches it. */
  lemma VisitAllProcessesIffMatch(path: string, patterns: seq<string>, m: Matcher)
    ensures Decide(Entry(path, false), None, true, patterns, m) == Process
        <==> exists i :: 0 <= i < |patterns| && m(patterns[i], BaseName(path)) == Matched(true)
  {
  }

  // ---------------------------------------------------------------------
  // Processing one file (main.go:134-168)
  // ---------------------------------------------------------------------

  /** Standard output, as the text written to it so far. */
  class Stdout {
    var text: string

    constructor ()
      ensures text == ""
    {
      text := "";
    }

    /** `fmt.Printf` with the formatting already done. */
    method Emit(s: string)
      modifies this
      ensures text == old(text) + s
    {
      text := text + s;
    }
  }

  /** `os.FileMode` bits, as `os.Stat` reports them. */
  newtype FileMode = m: int | 0 <= m < 0x1_0000_0000

  /** The result of `os.ReadFile`. */
  datatype ReadResult = ReadOk(content: seq<byte>) | ReadFailed(msg: string)

  /** A call `os.WriteFile(path, content, mode)`. */
  datatype WriteCall = WriteCall(content: seq<byte>, mode: FileMode)

  /** How processing a file ended. */
  datatype FileOutcome = Unchanged | Fixed | ReadError(msg: string) | WriteError(msg: string)

  /** The outcome once `content` was read and `tidied` is what `tidy` made of it. */
  function TidyOutcome(content: seq<byte>, tidied: seq<byte>, writeErr: Option<string>): FileOutcome {
    if tidied == content then Unchanged
    else if writeErr.Some? then WriteError(writeErr.value)
    else Fixed
  }

  /** The outcome, from what reading and (if it happens) writing returned. */
  function OutcomeOf(read: ReadResult, writeErr: Option<string>): FileOutcome {
    match read
    case ReadFailed(e) => ReadError(e)
    case ReadOk(c) => TidyOutcome(c, TidyTransform.Tidy(c), writeErr)
  }

  /** `"{path} …"`; the ellipsis is U+2026. */
  function Prefix(path: string): string {
    path + " …"
  }

  /** The line printed for a processed file, by outcome. */
  function Report(path: string, verbose: bool, outcome: FileOutcome): string {
    if outcome == Unchanged && !verbose then "" else Prefix(path) + Verdict(outcome)
  }

  /** What `Report` prints before the file is read: the prefix exactly when verbose. */
  function ReportLead(path: string, verbose: bool): string {
    if verbose then Prefix(path) else ""
  }

  /** The prefix as the callback prints it once the file is read: only when not verbose. */
  function LazyPrefix(path: string, verbose: bool): string {
    if verbose then "" else Prefix(path)
  }

  /** The rest of the line after the prefix, for an outcome that prints one. */
  function Verdict(outcome: FileOutcome): string {
    match outcome
    case Unchanged => "\n"
    case Fixed => " fixed.\n"
    case ReadError(e) => " error: " + e + "\n"
    case WriteError(e) => " error: " + e + "\n"
  }

  /** What `Report` prints after the file is read. */
  function ReportTail(path: string, verbose: bool, outcome: FileOutcome): string {
    if outcome == Unchanged then (if verbose then Verdict(outcome) else "")
    else LazyPrefix(path, verbose) + Verdict(outcome)
  }

  /**
   * The callback's code for a matched file: the prefix printed eagerly when
   * verbose and lazily otherwise, the read, `tidy`, and the write with the
   * mode `os.Stat` reported just before it.
   */
  method ProcessFile(out: Stdout, path: string, verbose: bool, read: ReadResult, mode: FileMode, writeErr: Option<string>)
    returns (outcome: FileOutcome, written: Option<WriteCall>)
    modifies out
    ensures outcome == OutcomeOf(read, writeErr)
    ensures written == if read.ReadOk? && TidyTransform.Tidy(read.content) != read.content
                       then Some(WriteCall(TidyTransform.Tidy(read.content), mode)) else None
    ensures out.text == old(out.text) + Report(path, verbose, outcome)
  {
    if verbose {
      out.Emit(Prefix(path));
    }
    ghost var lead := out.text;
    assert lead == old(out.text) + ReportLead(path, verbose);
    if read.ReadFailed? {
      outcome, written := ReadError(read.msg), None;
      ReadFailure(out, path, verbose, read.msg);
    } else {
      var original := read.content;
      var content := TidyTransform.Tidy(original);
      outcome, written := WriteBack(out, path, verbose, original, content, mode, writeErr);
    }
    AppendAssociates(old(out.text), ReportLead(path, verbose), ReportTail(path, verbose, outcome));
    ReportSplits(path, verbose, outcome);
  }

  /** The callback after a failed read: the lazy prefix and the error. */
  method ReadFailure(out: Stdout, path: string, verbose: bool, msg: string)
    modifies out
    ensures out.text == old(out.text) + ReportTail(path, verbose, ReadError(msg))
  {
    if !verbose {
      out.Emit(Prefix(path));
    }
    out.Emit(" error: " + msg + "\n");
    AppendAssociates(old(out.text), LazyPrefix(path, verbose), Verdict(ReadError(msg)));
  }

  /**
   * The callback once the file is read and tidied: when the content changed,
   * the lazy prefix, the write with the mode `os.Stat` reported and its
   * result; otherwise the verbose line end.
   */
  method WriteBack(out: Stdout, path: string, verbose: bool, original: seq<byte>, content: seq<byte>,
                   mode: FileMode, writeErr: Option<string>)
    returns (outcome: FileOutcome, written: Option<WriteCall>)
    modifies out
    ensures outcome == TidyOutcome(original, content, writeErr)
    ensures written == if content != original then Some(WriteCall(content, mode)) else None
    ensures out.text == old(out.text) + ReportTail(path, verbose, outcome)
  {
    if content != original {
      if !verbose {
        out.Emit(Prefix(path));
      }
      ghost var mid := out.text;
      assert mid == old(out.text) + LazyPrefix(path, verbose);
      written := Some(WriteCall(content, mode));
      if writeErr.Some? {
        outcome := WriteError(writeErr.value);
        out.Emit(" error: " + writeErr.value + "\n");
      } else {
        outcome := Fixed;
        out.Emit(" fixed.\n");
      }
      assert out.text == mid + Verdict(outcome);
      AppendAssociates(old(out.text), LazyPrefix(path, verbose), Verdict(outcome));
    } else {
      if verbose {
        out.Emit("\n");
      }
      outcome, written := Unchanged, None;
    }
  }

  /** `Report` is what is printed before the read followed by what is printed after it. */
  lemma ReportSplits(path: string, verbose: bool, outcome: FileOutcome)
    ensures Report(path, verbose, outcome) == ReportLead(path, verbose) + ReportTail(path, verbose, outcome)
  {
    if outcome != Unchanged {
      if verbose {
        AppendAssociates(Prefix(path), "", Verdict(outcome));
      }
    }
  }

  /** A file is written exactly when it was read and `tidy` changes it. */
  lemma WriteIffChanged(read: ReadResult, writeErr: Option<string>)
    ensures OutcomeOf(read, writeErr) == Fixed || OutcomeOf(read, writeErr).WriteError?
        <==> read.ReadOk? && TidyTransform.Tidy(read.content) != read.content
  {
  }

  /** Nothing is printed for a file exactly when it is unchanged and output is not verbose. */
  lemma ReportSilentIff(path: string, verbose: bool, outcome: FileOutcome)
    ensures Report(path, verbose, outcome) == "" <==> outcome == Unchanged && !verbose
  {
  }

  /** Whatever is printed for a file starts with its prefix, printed once, and ends the line. */
  lemma ReportStartsWithPrefix(path: string, verbose: bool, outcome: FileOutcome)
    ensures var r := Report(path, verbose, outcome);
      r != "" ==> |Prefix(path)| < |r| && r[..|Prefix(path)|] == Prefix(path) && r[|r| - 1] == '\n'
  {
  }

  /** The processed file's line for each outcome. */
  lemma ReportByOutcome(path: string, verbose: bool, e: string)
    ensures Report(path, true, Unchanged) == Prefix(path) + "\n"
    ensures Report(path, false, Unchanged) == ""
    ensures Report(path, verbose, Fixed) == Prefix(path) + " fixed.\n"
    ensures Report(path, verbose, ReadError(e)) == Prefix(path) + " error: " + e + "\n"
    ensures Report(path, verbose, WriteError(e)) == Prefix(path) + " error: " + e + "\n"
  {
    AppendAssociates(Prefix(path), " error: " + e, "\n");
  }

  // ---------------------------------------------------------------------
  // The whole callback (main.go:99-171)
  // ---------------------------------------------------------------------

  /** What the callback returns to `filepath.Walk`. */
  datatype WalkReturn = Nil | SkipDirErr | Err(err: string)

  /**
   * The walk callback for one entry. The results of reading, stating and
   * writing the file are inputs; they are used only when the file is
   * processed.
   */
  method Visit(out: Stdout, entry: Entry, walkErr: Option<string>, visitAll: bool, verbose: bool,
               patterns: seq<string>, m: Matcher, read: ReadResult, mode: FileMode, writeErr: Option<string>)
    returns (ret: WalkReturn, written: Option<WriteCall>)
    modifies out
    ensures var d := Decide(entry, walkErr, visitAll, patterns, m);
      && ret == (match d case Abort(e) => Err(e) case SkipDir => SkipDirErr case _ => Nil)
      && (d == Process ==> out.text == old(out.text) + Report(entry.path, verbose, OutcomeOf(read, writeErr)))
      && (d != Process ==> out.text == old(out.text) && written == None)
      && (d == Process ==> written == if read.ReadOk? && TidyTransform.Tidy(read.content) != read.content
                                      then Some(WriteCall(TidyTransform.Tidy(read.content), mode)) else None)
  {
    var d, _ := Classify(entry, walkErr, visitAll, patterns, m);
    written := None;
    match d
    case Abort(e) => ret := Err(e);
    case SkipDir => ret := SkipDirErr;
    case Descend => ret := Nil;
    case Ignore => ret := Nil;
    case Process =>
      var _, w := ProcessFile(out, entry.path, verbose, read, mode, writeErr);
      written := w;
      ret := Nil;
  }
}
