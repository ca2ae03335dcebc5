# txtidy in Dafny

txtidy walks a directory tree and normalises every text file whose base name
matches one of the glob patterns given on the command line. The
normalisation (`tidy`, main.go:177-196) does five things in order:

1. it removes every carriage return;
2. it removes one leading UTF-8 byte order mark;
3. it deletes the spaces and tabs at the end of each line;
4. it trims leading and trailing whitespace from the whole buffer, as `bytes.TrimSpace` does;
5. it appends one line feed.

A file is rewritten only when this changes it. At most one line per
processed file is printed on standard output: nothing for a directory, an
unmatched file, or an unchanged file without `--verbose`.

The model has four modules:

- `Bytes` (bytes.dfy): the byte type, the special bytes, and the
  subsequence relation used to say that a step only deletes bytes.
- `Whitespace` (whitespace.dfy): Go's `bytes.TrimSpace`. A rune counts as
  whitespace under `unicode.IsSpace`, so this covers the ASCII whitespace
  bytes and the UTF-8 encodings of the non-ASCII space code points.
- `TidyTransform` (tidy.dfy): the steps of `tidy` as functions, `Tidy`
  itself, and the lemmas about its output.
  - Step 3 is a regular expression in the source. Here it is a
    left-to-right scan that holds back a run of blanks until it sees what
    follows. A per-line reference definition, `DropTrailingBlanks`, gives
    its meaning.
- `Walk` (walk.dfy): everything around `tidy`.
  - The pattern checks made before the walk.
  - The walk callback's decision for each entry.
  - What the callback writes and prints for a matched file. Standard output
    is a `Stdout` object whose text grows with each print.
  - Inputs, not modelled code: the file system's answers (the walker's
    error, the read result, the file mode, the write error) and the glob
    matcher `filepath.Match`.

### Where the code and the intended design part ways

The model follows the code in both cases below.

- **Excluded directories are not pruned.** The callback returns nil for
  every directory before it looks at `excludedDirs` (main.go:104-106).
  - So `.git`, `vendor` and the rest are descended into like any other
    directory.
  - Only a *file* whose base name is in the list makes the callback return
    `filepath.SkipDir`. At a file, the walker then skips the remaining
    entries of the file's directory.
  - `DirectoryAlwaysDescends` and `ExcludedFileSkipsDir` state this.
- **`tidy` is not idempotent in general.** Step 2 removes only one byte order mark.
  - A double mark leaves the output starting with a mark, so a second
    pass removes another (`DoubleBomNotIdempotent`).
  - A mark that, after step 2, is preceded only by whitespace (a space, a
    line feed, a no-break space, ...) survives steps 2 and 3. Step 4 then
    exposes it. `BlankBeforeBomNotIdempotent` shows this for a space.
  - `TidyIdempotentUnlessBom` states exactly when it fails:
    `Tidy(Tidy(x)) == Tidy(x)` exactly when `Tidy(x)` does not start with
    a mark.
- **A walker error ends the program.** When `filepath.Walk` hands the
  callback an error for an entry, the callback returns that error
  (main.go:100-102). This stops the walk, and `main` then calls
  `log.Fatalf` (main.go:172-174). The walk does not report the error and
  go on. `Decide` gives `Abort` and `Visit` returns `Err` for it.

## Model

| member | source | states |
|---|---|---|
| TidyTransform.Tidy | main.go:177-196 | the output of `tidy`: steps 1 to 4, then one LF appended; its properties are those of the `Tidy*` lemmas below |
| TidyTransform.TidyBody | main.go:179-190 | the four trimming steps in order; `TidyBodySubsequence` shows they only delete bytes |
| TidyTransform.StripCarriageReturns | main.go:179 | the result holds no CR |
| TidyTransform.StripCarriageReturnsKeepsOthers | main.go:179 | every byte other than CR occurs as often in the result as in the input |
| TidyTransform.StripCarriageReturnsSubsequence | main.go:179 | the result is obtained from the input by deleting bytes |
| TidyTransform.StripCarriageReturnsKeepsCrFree | main.go:179 | a buffer without CR is left unchanged |
| TidyTransform.StripBom | main.go:182-184 | a buffer starting with EF BB BF is that mark followed by the result; any other buffer is returned unchanged; after a double mark the result still starts with a mark |
| TidyTransform.StripBomSubsequence | main.go:182-184 | the result is obtained from the input by deleting bytes |
| TidyTransform.TrimLineEnds | main.go:187 | the regular expression's replacement as a scan; its meaning per line is given by `TrimLineEndsSplitsLines` and `TrimLineEndsLastLine` |
| TidyTransform.TrimLineEndsFrom | main.go:187 | the scan with the blanks held back so far; `TrimLineEndsFromLine` and `TrimLineEndsFromLastLine` give its result on a line |
| TidyTransform.TrimLineEndsSplitsLines | main.go:187 | on a line ended by LF and followed by more text, the step drops that line's trailing spaces and tabs, keeps the LF and goes on with the rest |
| TidyTransform.TrimLineEndsLastLine | main.go:187 | on the last line, which has no LF, the step drops its trailing spaces and tabs |
| TidyTransform.DropTrailingBlanksSpec | main.go:44 | the per-line reference removes exactly a run of spaces and tabs from the end, and leaves a line that is empty or ends in something else |
| TidyTransform.TrimLineEndsNoTrailingBlanks | main.go:187 | after the step, a space or tab is always followed by a byte other than LF |
| TidyTransform.TrimLineEndsKeepsClean | main.go:187 | a buffer with no blank before a line end or at its end is left unchanged |
| TidyTransform.TrimLineEndsSubsequence | main.go:187 | the result is obtained from the input by deleting bytes |
| Whitespace.TrimStart | main.go:190 | the front trim stops, within the buffer, at a position where no whitespace rune begins |
| Whitespace.TrimEnd | main.go:190 | the back trim stops, within the part left by the front trim, at a position where no whitespace rune ends |
| Whitespace.TrimStartCutsSpaces | main.go:190 | what the front trim skips is a run of whole whitespace runes |
| Whitespace.TrimEndCutsSpaces | main.go:190 | what the back trim skips is a run of whole whitespace runes |
| Whitespace.TrimSpace | main.go:190 | the result is no longer than the input, and starts and ends with no whitespace rune |
| Whitespace.TrimSpaceIsSlice | main.go:190 | the result is a contiguous slice `s[i..j]` of the input, and both `s[..i]` and `s[j..]` are runs of whole whitespace runes |
| Whitespace.TrimSpaceOfAsciiSpaces | main.go:190 | a buffer of ASCII whitespace trims to nothing |
| Whitespace.TrimSpaceKeepsPrefix | main.go:190 | a prefix whose bytes begin no whitespace rune is kept at the front of the result |
| Whitespace.TrimSpaceOfTrimmedLine | main.go:190-193 | a trimmed buffer followed by LF trims back to the buffer |
| TidyTransform.TrimSpaceSubsequence | main.go:190 | the result is obtained from the input by deleting bytes |
| TidyTransform.TidyEndsWithOneNewline | main.go:177-196 | the output ends in LF, and the byte before that LF is not whitespace, nor the end of a whitespace rune |
| TidyTransform.TidyOfWhitespace | main.go:177-196 | an input made only of whole whitespace runes (ASCII or not, the empty input included) becomes a single LF |
| TidyTransform.TidyOfNoBreakSpace | main.go:177-196 | a lone no-break space becomes a single LF |
| TidyTransform.StripCarriageReturnsAppend | main.go:179 | deleting CRs distributes over concatenation |
| TidyTransform.StripCarriageReturnsKeepsSpaceRun | main.go:179 | deleting CRs from a run of whitespace runes leaves a run of whitespace runes |
| TidyTransform.SpaceRunHasNoBom | main.go:182-184 | a run of whitespace runes has no leading mark, so step 2 keeps it |
| TidyTransform.TrimLineEndsFromKeepsSpaceRun | main.go:187 | step 3 on a run of whitespace runes leaves a run of whitespace runes |
| Whitespace.TrimSpaceOfSpaceRun | main.go:190 | a buffer made only of whole whitespace runes trims to nothing |
| TidyTransform.TidyHasNoCarriageReturn | main.go:177-196 | the output holds no CR |
| TidyTransform.TidyHasNoTrailingBlanks | main.go:177-196 | in the output no space or tab comes right before an LF |
| TidyTransform.TidySubsequence | main.go:177-196 | the output without its final LF is obtained from the input by deleting bytes, so the output is at most one byte longer than the input |
| TidyTransform.TidyBodySubsequence | main.go:179-190 | the four trimming steps together only delete bytes |
| TidyTransform.TrimLineEndsKeepsBom | main.go:187 | step 3 keeps a leading byte order mark |
| TidyTransform.TrimSpaceKeepsBom | main.go:190 | step 4 keeps a leading byte order mark |
| TidyTransform.TidyKeepsSecondBom | main.go:182-184 | when the input starts with two byte order marks once CRs are gone, the output still starts with one |
| TidyTransform.TidyKeepsTidied | main.go:177-196 | a buffer that has the output's shape and does not start with a byte order mark is left unchanged |
| TidyTransform.TidyShortensBomOutput | main.go:182-184 | a CR-free buffer starting with a byte order mark always gets shorter |
| TidyTransform.TidyIdempotentUnlessBom | main.go:177-196 | applying `tidy` twice gives the same as once exactly when the first output does not start with a byte order mark |
| TidyTransform.DoubleBomNotIdempotent | main.go:182-184 | with a double mark, a second pass changes the output |
| TidyTransform.TidyOfBlankThenBom | main.go:177-196 | a space, a mark and `x` become the mark, `x` and LF |
| TidyTransform.BlankBeforeBomNotIdempotent | main.go:182-190 | for that input a second pass changes the output |
| Walk.CheckPatterns | main.go:83-95 | no error exactly when there is at least one pattern and every pattern matches "dummy" without error; the no-patterns error exactly when the list is empty; an invalid-pattern error names an invalid pattern that is preceded only by valid ones |
| Walk.ExcludedDirs | main.go:36 | the six excluded base names, in the source's order |
| Walk.BaseName | main.go:108 | `filepath.Base` with '/'; `BaseNameOfJoin` and `BaseNameHasNoSlash` state what it returns |
| Walk.BaseNameOfJoin | main.go:108 | the base name of a path that ends in `/name` is `name` |
| Walk.BaseNameHasNoSlash | main.go:108 | a base name is never empty, and is `/` or holds no slash |
| Walk.Decide | main.go:100-132 | the callback's decision stated as one expression; `Classify` proves the callback's loops reach it |
| Walk.IsExcluded | main.go:111-117 | the loop over `excludedDirs` finds the base name exactly when it is one of the excluded names |
| Walk.FirstMatch | main.go:120-128 | a match is found exactly when some pattern matches; then the last pattern tried is the first that matches, otherwise every pattern was tried |
| Walk.Classify | main.go:100-132 | the callback's checks reach the declarative decision `Decide`. When the file is processed, the last pattern tried is the first that matches. When it is ignored, every pattern was tried. Otherwise none was tried |
| Walk.DirectoryAlwaysDescends | main.go:104-106 | a directory is never skipped or excluded, whatever its name |
| Walk.ExcludedFileSkipsDir | main.go:110-117 | without `--all`, a file whose name is in excludedDirs makes the callback return SkipDir |
| Walk.VisitAllProcessesIffMatch | main.go:119-132 | with `--all`, a file is processed if and only if some pattern matches its base name |
| Walk.TidyOutcome | main.go:153-165 | unchanged when `tidy` kept the content; otherwise fixed, or the write's error; `WriteIffChanged` states when a write happens |
| Walk.OutcomeOf | main.go:139-165 | the read's error, or `TidyOutcome` of the read content; `WriteIffChanged` states when a write happens |
| Walk.Prefix | main.go:135 | the text `path …`; `ReportStartsWithPrefix` shows every printed line starts with it |
| Walk.Verdict | main.go:145-167 | the rest of the line after the prefix for each outcome; `ReportByOutcome` spells it out |
| Walk.Report | main.go:134-168 | the whole text printed for a processed file; `ReportSilentIff`, `ReportStartsWithPrefix` and `ReportByOutcome` state it |
| Walk.ProcessFile | main.go:134-168 | the outcome and the write follow the read result and `tidy`: a write of the tidied content with the file's mode happens exactly when the read succeeded and `tidy` changed the content; the text printed is `Report` for that outcome |
| Walk.WriteBack | main.go:153-168 | once tidied, the write happens exactly when the content changed, and what is printed is the rest of the report |
| Walk.ReadFailure | main.go:141-148 | on a read error the lazy prefix and the error message are printed |
| Walk.Visit | main.go:99-171 | the callback returns the walker's error, SkipDir or nil as `Decide` says; it prints and writes nothing unless the file is processed; otherwise it prints and writes as `ProcessFile` |
| Walk.WriteIffChanged | main.go:153-163 | the outcome is a fix or a write error if and only if the read succeeded and `tidy` changed the content |
| Walk.ReportSilentIff | main.go:134-168 | nothing is printed for a processed file if and only if it is unchanged and output is not verbose |
| Walk.ReportStartsWithPrefix | main.go:134-168 | whatever is printed for a file starts with `path …`, printed once, and ends with a line feed |
| Walk.ReportSplits | main.go:134-168 | the report is the part printed before the read followed by the part printed after it |
| Walk.ReportByOutcome | main.go:134-168 | the exact line for each outcome: `path …` when verbose and unchanged, nothing when not verbose and unchanged, ` fixed.` after a write, ` error: msg` after a failed read or write |
| Walk.Stdout.Emit | main.go:134-168 | printing appends the text to what was printed before |

## Left out

- Flag parsing, `--version` and `printVersion` (main.go:25-33, 38-42, 47-55): command-line handling, not behaviour of the normaliser. `verbose`, `visitAll` and the patterns are inputs.
- Resolving and checking the root directory (main.go:57-81): file-system calls, outside the model.
- `filepath.Walk` itself: the order of entries, and what returning `SkipDir` for a file does to the rest of its directory. The model covers one callback invocation and what it returns.
- `filepath.Match` internals: the matcher is a function parameter returning a match or a bad-pattern error.
- File I/O: `os.ReadFile`, `os.Stat` and `os.WriteFile` are represented by their results, passed in as parameters. A write is recorded as the request `WriteCall(content, mode)`.
- Walk.ProcessFile: assumes `os.Stat` succeeds. The source ignores its error and would dereference a nil result (main.go:158-160).
- Walk.ProcessFile: the eager verbose prefix is printed before the read in the source. The model keeps that order within the printed text, but not in time with respect to the read.
- The regular expression engine: step 3 is the scan `TrimLineEnds`, and its lemmas tie it to the per-line meaning of the expression `(?m:[\t ]+$)`. `$` in multi-line mode matches before LF and at the end of the text, so this includes blanks at the very end.
- Whitespace.TrimSpace: works on the UTF-8 encodings of the whitespace runes instead of decoding runes. This is the same for whitespace runes; the model does not spell out how invalid UTF-8 decodes, since such bytes stop the trim in both.
- `filepath.Base` is modelled with '/' as the only separator (Unix), and without Windows volume names.
- `log.Fatalf` and the process exit status: errors are returned as values (`ConfigError`, `WalkReturn.Err`).
- Pattern checking stops at the first invalid pattern, as `log.Fatalf` ends the program there.
