# webp-test: a Dafny model

`webp-test.rb` compares WebP and JPEG compression of PNG images. Each PNG
is encoded to WebP, and the WebP's DSSIM score against the original is
measured. A bisection over JPEG qualities in the open bracket (80, 100)
then looks for a JPEG whose DSSIM comes within 0.01 of the WebP score. The
script writes one tab-separated report line per image. The line holds the
PNG size, the WebP size and score, and the JPEG size, score and quality.
Images whose WebP measurement fails are reported on stdout and skipped; a
failed JPEG search instead ends the run (see below).

The model has four modules:

- `Measure` (`measure.dfy`): what the external tools hand back. Each
  encode + decode + `dssim` pipeline becomes a `Measurement`. It is
  `NoOutput` when an intermediate file is missing, otherwise a size and
  an optional score (nil when the `dssim` output is not a Float). The
  module also holds the Ruby values a result array can contain.
- `QualitySearch` (`quality_search.dfy`): `jpeg_bsearch_dssim`. The
  recursive specification `Search`/`Probes` is proved equal to the
  imperative loop `Bisect`, which keeps the two mutable bounds of the
  script. The JPEG pipeline is an oracle from quality to `Measurement`.
- `ReportFormat` (`report_format.dfy`): the header and row lines, meaning
  `Integer#to_s`, `Array#join` with tabs and nil as the empty string. It
  proves that splitting a line at its tabs gives back its fields.
- `BatchDriver` (`batch_driver.dfy`): `test_file`, `main` and the
  argument check at the top level of the script.
  - `TestFile`, `RunMain` and `RunScript` are imperative methods. They
    write to `TextStream` objects (the report file and stdout) and are
    proved equal to the functions `FileResult`, `MainRun` and
    `ScriptRun`.
  - A run is specified as a replay of per-file effects: write a row,
    print a skip message, abort on a missing file, or raise. The lemmas
    about a whole run are proved against that replay.

Two behaviours of the code that a reader of the script might not expect:

- When the WebP step succeeds but the JPEG search returns nil, `res += nil`
  raises a `TypeError`. `test_file` then neither skips the file nor
  returns nil, and the run ends there. The model follows the code: the
  `Crash` outcome and the `Crashed` run status. See "## Findings".
- The search returns the LAST quality probed, not the closest one. With
  scores `1/q` and target `1/95`, it stops at the first probe, 90, because
  `1/90 - 1/95` is already below 0.01, although quality 95 would match the
  target exactly.

## Model

| member | source | states |
|---|---|---|
| QualitySearch.ProbeFacts | webp-test.rb:160-173 | One loop iteration probes the midpoint quality strictly inside the bracket. It returns nil exactly when that probe has no score, and stops exactly when the score is within 0.01 of the target. Otherwise exactly one bound moves to the midpoint: the lower bound when the score is above the target, the upper when it is below. The bracket shrinks |
| QualitySearch.ProbesInBracket | webp-test.rb:160-174 | The loop terminates: at least one probe and at most ProbeBound(width) probes, each strictly inside the initial bracket |
| QualitySearch.DefaultSearchProbes | webp-test.rb:158-174 | From the bracket (80, 100) the search makes between 1 and 5 probes, all at qualities 81..99 |
| QualitySearch.SearchReturnsLastProbe | webp-test.rb:162-176 | Every probe before the last had a score outside the tolerance. The result is nil exactly when the last probe has no score; otherwise it is the size, score and quality of the last probe |
| QualitySearch.SearchQualityInBracket | webp-test.rb:160-176 | A returned quality lies strictly inside the bracket |
| QualitySearch.TargetAboveAllScores | webp-test.rb:169-173 | When every score is below the target by at least the tolerance, the search walks down to the lowest quality, lo + 1 |
| QualitySearch.TargetBelowAllScores | webp-test.rb:169-173 | When every score is above the target by at least the tolerance, the search walks up to the highest quality, hi - 1 |
| QualitySearch.ReturnsLastNotClosest | webp-test.rb:165-176 | For scores (100 - q)/20 and target 0.13, the probes are 90, 95, 97, 98 and quality 98 is returned although 97 was closer to the target |
| QualitySearch.ReciprocalScoreStopsAtFirstProbe | webp-test.rb:161-167 | For scores 1/q and target 1/95, the search stops at its first probe, quality 90 |
| QualitySearch.Bisect | webp-test.rb:158-177 | The loop with two mutable bounds returns exactly Search and probes exactly the qualities of Probes; a returned quality is the last one probed, inside the bracket |
| QualitySearch.JpegBsearchDssim | webp-test.rb:154-177 | The search from (80, 100) equals Search; it probes 1 to 5 qualities in 81..99, and a returned quality is the last probe, in 81..99 |
| ReportFormat.NatToStringRoundTrip | webp-test.rb:211 | The decimal digits written for a natural number read back as that number |
| ReportFormat.IntToStringRoundTrip | webp-test.rb:211 | Integer#to_s on any integer, with its minus sign, reads back as that integer |
| ReportFormat.SplitJoin | webp-test.rb:211 | Joining tab-free fields with tabs and splitting at the tabs gives the fields back |
| ReportFormat.HeaderColumns | webp-test.rb:203 | The header line splits into the seven column names, #File to JPEG-Quality |
| ReportFormat.RowLineColumns | webp-test.rb:211 | A row of six values splits into seven fields, the file name followed by the values as written, lining up with the header |
| BatchDriver.FileResultCases | webp-test.rb:183-196 | `test_file` returns nil exactly when the WebP size or score is missing, and, among the modelled pipeline outcomes, raises exactly when the search then fails. Otherwise it returns the six values in order, with the JPEG quality in 81..99 and no nil |
| BatchDriver.TestFile | webp-test.rb:183-196 | Building `res` with `<<` and `+=` gives exactly FileResult |
| BatchDriver.SkippingNeverCrashes | webp-test.rb:192-193 | Among the modelled pipeline outcomes, the corrected step never raises. It skips a file exactly when the WebP step or the search fails, and agrees with the written step wherever that one does not raise |
| BatchDriver.EffectOfSkipping | webp-test.rb:205-212 | With the corrected step, visiting a file never raises. It prints the skip message where the written step raises, and otherwise does what the written step does |
| BatchDriver.SkippingRunCompletes | webp-test.rb:205-215 | With the corrected step and the modelled pipeline outcomes, a run over existing files always completes, with at most one row per file after the header |
| BatchDriver.EffectOfCases | webp-test.rb:205-212 | A file stops the run exactly when it is missing or `test_file` raises on it. It aborts exactly when missing, and writes a row exactly when `test_file` returns a row |
| BatchDriver.ScriptGuards | webp-test.rb:199-203 | The report is opened exactly when there are at least two arguments, the temporary directory exists and the report path can be opened for writing, and it then begins with the header. With fewer arguments the run aborts with the usage message; without the directory, with the directory message; and when `File.open` cannot open the path, the run crashes with no report and nothing on stdout |
| BatchDriver.ReplayWithoutStop | webp-test.rb:205-213 | Files that neither abort nor raise leave the run going. The report gains each written row in order, and stdout each skip message in order |
| BatchDriver.StoppedStays | webp-test.rb:206-207 | After an abort or an exception no later file changes the run |
| BatchDriver.FirstStopEndsReplay | webp-test.rb:205-213 | The first stopping effect ends the run with its status; the report keeps exactly the rows before it |
| BatchDriver.CleanRun | webp-test.rb:202-213 | When every file exists and `test_file` raises on none, the run completes with the header followed by the rows of the successful files in input order, and stdout holds the skip messages in order |
| BatchDriver.FirstFailureEndsRun | webp-test.rb:205-207 | The first missing file aborts the run with "Can't find <file>", and the first file on which `test_file` raises crashes it. The report keeps the header and the rows of the files before it, and no later file is processed |
| BatchDriver.OneFailedFileOmitted | webp-test.rb:205-213 | With N existing files where only file k has no result, the report is the header and N - 1 rows: those before k, then those after k |
| BatchDriver.OneSkipReplay | webp-test.rb:208-211 | A run over effects that all write but one, which only prints, has a report of the header and one row per writing effect, in order around the missing one |
| BatchDriver.FailedSearchEndsRun | webp-test.rb:192-193 | A file whose WebP step succeeds but whose every JPEG probe fails makes `test_file` raise, and the run over it and a second file ends crashed with only the header written. The corrected step skips that file instead |
| BatchDriver.TextStream.Puts | webp-test.rb:203 | `puts` appends exactly one line to the stream |
| BatchDriver.Visit | webp-test.rb:205-212 | One iteration of `files.each`: the report and stdout streams change exactly as the file's effect says, and the returned status says whether the run goes on |
| BatchDriver.RunMain | webp-test.rb:198-216 | `main` with its report and stdout streams ends in exactly the run MainRun describes, including the crash when `File.open` raises |
| BatchDriver.RunScript | webp-test.rb:218-219 | The top level ends in exactly the run ScriptRun describes: the usage abort with fewer than two arguments, else `main` on the first argument and the rest |

## Left out

- The subprocesses (`cwebp`, `dwebp`, `cjpeg`, `djpeg`, `convert`, `dssim`) and the files they write are not modelled. Each pipeline (`webp_size_dssim`, `jpeg_size_dssim`) is an outcome supplied from outside: `NoOutput`, or a size with an optional score.
- The pipelines raising is not modelled. A backtick command whose tool is not on the PATH raises Errno::ENOENT (webp-test.rb:64, 80, 86, 105, 114, 117, 130, 139). With `USE_LIBJPEG` and `DELETE_FILES` both true (webp-test.rb:55, 57), `File.delete ppm_file` raises Errno::ENOENT when `convert` wrote no PPM (webp-test.rb:114-118). Either exception escapes `test_file` and ends the run. `Measurement` has no raising case, so the claims that `test_file` raises only on a failed search (FileResultCases) and that the corrected step never raises (SkippingNeverCrashes, SkippingRunCompletes) hold only for the modelled outcomes.
- The `USE_LIBJPEG` and `DELETE_FILES` switches, `png_basename` and the temporary file names under `/tmp/webp-tests/` are not modelled beyond the line above: otherwise they choose which commands run and which files get deleted.
- `File.exist?`, `File.stat(...).size`, `Dir.exist?` and whether `File.open(output_file, 'w')` succeeds are inputs of the environment. Why an open fails (ENOENT, EACCES, EISDIR) is not distinguished: every failure is the `Crashed` status.
- `Float(...)` parsing and `Float#to_s` are not modelled. The parse is part of the supplied score, and `Float#to_s` is a function given with the environment.
- Floating-point arithmetic is not modelled: scores are exact reals, so `delta` and its comparison with 0.01 carry no rounding.
- BatchDriver.RunMain: the path of the report file is not recorded, and neither is `puts` newline handling or the closing of the file.
- `abort` writing its message to stderr is modelled as the status `Aborted(message)`, not as a stream.
- The search is not claimed to find the closest quality; `ReturnsLastNotClosest` shows that it does not.

## Findings

| source | as written | input that shows it | evidently intended | confidence | as-written member | corrected member |
|---|---|---|---|---|---|---|
| webp-test.rb:192-193 | `res += jpeg_bsearch_dssim(...)` with a nil search result raises TypeError, so the nil check after it never sees the failure and the whole run ends | A first file whose WebP step succeeds and whose every JPEG probe produces no output, followed by any second file | the file is skipped with "Error in file ..., skipping" and the run goes on | high, not executed | BatchDriver.FailedSearchEndsRun | BatchDriver.SkippingRunCompletes |
