/** The per-file step `test_file` and the driver `main` with the argument
    check of the script: a header line, then one row per file whose WebP and
    JPEG measurements both succeed, in the order the files are given. */
module BatchDriver {
  import opened Measure
  import opened QualitySearch
  import opened ReportFormat

  /** The directory the script keeps its temporary files in. */
  const OutDir: string := "/tmp/webp-tests/"

  const UsageMessage: string := "Usage: webp-tests output-file png-file [...]"

  function NoOutDirMessage(): string { OutDir + " doesn't exists. mkdir before running" }

  function MissingFileMessage(file: string): string { "Can't find " + file }

  function SkipMessage(file: string): string { "Error in file " + file + ", skipping" }

  /** What the file system and the tools give for one input path: whether
      the file exists, its size, the WebP pipeline's outcome and the JPEG
      pipeline's outcome at every quality. */
  datatype FileEnv = FileEnv(present: bool, pngSize: nat, webp: Measurement, jpeg: Oracle)

  /** Everything outside the script: whether the temporary directory exists,
      which report paths `File.open(..., 'w')` can open (on any other path it
      raises), each input path, and Float#to_s. */
  datatype Env = Env(outDirExists: bool, canWrite: string -> bool, files: string -> FileEnv, floatToS: real -> string)

  /** What `test_file` produces: a result array, nil, or a TypeError raised
      by `res += nil` when the search returned nil. */
  datatype FileOutcome = Row(cells: seq<Value>) | NoRow | Crash

  /** `test_file` as written: nil when the WebP step fails, a TypeError when
      the search fails, else the six values of the row. */
  function FileResult(f: FileEnv): FileOutcome {
    match f.webp
    case Measured(webpSize, Some(webpDssim)) =>
      (match Search(f.jpeg, webpDssim, QStart, QEnd)
       case None => Crash
       case Some(s) =>
         var res := [Int(f.pngSize), Int(webpSize), Float(webpDssim)] + [Int(s.size), Float(s.dssim), Int(s.quality)];
         if Nil in res then NoRow else Row(res))
    case _ => NoRow
  }

  /** The WebP step is checked first: without a WebP size and score there is
      no row. Otherwise the WebP score is the search target, a failed search
      raises, and a row holds the PNG size, the WebP size and score, and the
      JPEG size, score and quality (within [81, 99]) of the search, and never
      nil, so the nil checks after it never fire. */
  lemma FileResultCases(f: FileEnv)
    ensures FileResult(f).NoRow? <==> Score(f.webp).None?
    ensures FileResult(f).Crash? <==>
      Score(f.webp).Some? && Search(f.jpeg, Score(f.webp).value, QStart, QEnd).None?
    ensures FileResult(f).Row? ==>
      var s := Search(f.jpeg, Score(f.webp).value, QStart, QEnd).value;
      FileResult(f).cells == [Int(f.pngSize), Int(f.webp.size), Float(Score(f.webp).value),
                              Int(s.size), Float(s.dssim), Int(s.quality)] &&
      81 <= s.quality <= 99 && Nil !in FileResult(f).cells
  {
    if Score(f.webp).Some? {
      SearchQualityInBracket(f.jpeg, Score(f.webp).value, QStart, QEnd);
    }
  }

  /** `test_file` with the failed search mapped to nil, as the nil check
      after `res += ...` evidently intends. */
  function FileResultSkipping(f: FileEnv): FileOutcome {
    match FileResult(f)
    case Crash => NoRow
    case other => other
  }

  /** The corrected step never raises: it skips the file exactly when the
      WebP step or the search fails, and otherwise agrees with the written
      one. */
  lemma SkippingNeverCrashes(f: FileEnv)
    ensures !FileResultSkipping(f).Crash?
    ensures FileResultSkipping(f).NoRow? <==>
      Score(f.webp).None? || Search(f.jpeg, Score(f.webp).value, QStart, QEnd).None?
    ensures !FileResult(f).Crash? ==> FileResultSkipping(f) == FileResult(f)
  {
    FileResultCases(f);
  }

  /** `test_file`: builds `res` step by step, with `<<` and `+=`. */
  method TestFile(f: FileEnv) returns (r: FileOutcome)
    ensures r == FileResult(f)
  {
    var res := [Int(f.pngSize)];
    var webp := f.webp;
    if !(webp.Measured? && webp.dssim.Some?) {
      return NoRow;
    }
    var webpSize, webpDssim := webp.size, webp.dssim.value;
    res := res + [Int(webpSize)] + [Float(webpDssim)];
    ghost var probes;
    var found;
    found, probes := JpegBsearchDssim(f.jpeg, webpDssim);
    if found.None? {
      return Crash;
    }
    res := res + [Int(found.value.size), Float(found.value.dssim), Int(found.value.quality)];
    assert f.webp == Measured(webpSize, Some(webpDssim));
    assert res == [Int(f.pngSize), Int(webpSize), Float(webpDssim)] +
      [Int(found.value.size), Float(found.value.dssim), Int(found.value.quality)];
    if Nil in res {
      return NoRow;
    }
    return Row(res);
  }

  /** How a run ends: normally, by `abort`, or by an uncaught exception. */
  datatype Status = Completed | Aborted(message: string) | Crashed

  /** The end state of a run: its status, the lines of the report file (None
      when the file was never opened) and the lines written to stdout. */
  datatype Run = Run(status: Status, report: Option<seq<string>>, console: seq<string>)

  /** What one iteration of `files.each` in `main` does. */
  datatype Effect =
    | Missing(file: string)   // `abort "Can't find ..."`
    | Raises                  // `test_file` raised
    | Skips(message: string)  // `puts "Error in file ..., skipping"`
    | Writes(line: string)    // `output.puts(...)`

  predicate Stops(e: Effect) { e.Missing? || e.Raises? }

  /** The effect of visiting one input path. */
  function EffectOf(env: Env, file: string): Effect {
    var f := env.files(file);
    if !f.present then Missing(file)
    else
      match FileResult(f)
      case Crash => Raises
      case NoRow => Skips(SkipMessage(file))
      case Row(cells) =>
        if Nil in cells then Skips(SkipMessage(file))
        else Writes(RowLine(file, cells, env.floatToS))
  }

  /** The effect of an existing file, read off what `test_file` returned. */
  lemma EffectOfPresent(env: Env, file: string, res: FileOutcome)
    requires env.files(file).present && res == FileResult(env.files(file))
    ensures EffectOf(env, file) ==
      if res.Crash? then Raises
      else if res.NoRow? || Nil in res.cells then Skips(SkipMessage(file))
      else Writes(RowLine(file, res.cells, env.floatToS))
  {
  }

  function Effects(env: Env, files: seq<string>): (es: seq<Effect>)
    ensures |es| == |files|
  {
    seq(|files|, i requires 0 <= i < |files| => EffectOf(env, files[i]))
  }

  /** Applies one effect to the state of a run that is still going. */
  function Apply(run: Run, e: Effect): Run
    requires run.report.Some?
  {
    match e
    case Missing(file) => run.(status := Aborted(MissingFileMessage(file)))
    case Raises => run.(status := Crashed)
    case Skips(message) => run.(console := run.console + [message])
    case Writes(line) => run.(report := Some(run.report.value + [line]))
  }

  /** The effects applied in order to the state `start` of a run, until one
      of them stops the run. */
  function Replay(start: Run, effects: seq<Effect>): (r: Run)
    requires start.report.Some?
    ensures r.report.Some? && |r.report.value| >= |start.report.value|
    ensures r.report.value[..|start.report.value|] == start.report.value
    decreases |effects|
  {
    if effects == [] then start
    else
      var before := Replay(start, effects[..|effects| - 1]);
      if before.status.Completed? then Apply(before, effects[|effects| - 1]) else before
  }

  /** The state right after the report is opened and its header written. */
  function Opened(): Run {
    Run(Completed, Some([Header]), [])
  }

  /** `main` after the directory check: the files visited in order. */
  function Process(env: Env, files: seq<string>): Run {
    Replay(Opened(), Effects(env, files))
  }

  /** `main`: the temporary directory check, opening the report (which
      raises when the path cannot be opened for writing), then the files. */
  function MainRun(outputFile: string, files: seq<string>, env: Env): Run {
    if !env.outDirExists then Run(Aborted(NoOutDirMessage()), None, [])
    else if !env.canWrite(outputFile) then Run(Crashed, None, [])
    else Process(env, files)
  }

  /** The script: the argument count check, then `main ARGV.shift, ARGV`. */
  function ScriptRun(args: seq<string>, env: Env): Run {
    if |args| <= 1 then Run(Aborted(UsageMessage), None, [])
    else MainRun(args[0], args[1..], env)
  }

  /** The report file is opened only when there are at least two arguments
      and the temporary directory exists; it then starts with the header. */
  lemma ScriptGuards(args: seq<string>, env: Env)
    ensures ScriptRun(args, env).report.None? <==>
      |args| < 2 || !env.outDirExists || !env.canWrite(args[0])
    ensures |args| < 2 ==> ScriptRun(args, env).status == Aborted(UsageMessage)
    ensures |args| >= 2 && !env.outDirExists ==> ScriptRun(args, env).status == Aborted(NoOutDirMessage())
    ensures |args| >= 2 && env.outDirExists && !env.canWrite(args[0]) ==>
      ScriptRun(args, env) == Run(Crashed, None, [])
    ensures ScriptRun(args, env).report.Some? ==>
      |ScriptRun(args, env).report.value| >= 1 && ScriptRun(args, env).report.value[0] == Header
  {
    if |args| >= 2 && env.outDirExists && env.canWrite(args[0]) {
      var r := Process(env, args[1..]);
      assert r.report.value[..1] == [Header];
    }
  }

  /** Reference definition: the report rows the effects write, in order. */
  function Rows(effects: seq<Effect>): seq<string>
    decreases |effects|
  {
    if effects == [] then []
    else (if effects[0].Writes? then [effects[0].line] else []) + Rows(effects[1..])
  }

  /** Reference definition: the skip messages the effects print, in order. */
  function SkipLines(effects: seq<Effect>): seq<string>
    decreases |effects|
  {
    if effects == [] then []
    else (if effects[0].Skips? then [effects[0].message] else []) + SkipLines(effects[1..])
  }

  lemma {:induction false} RowsAppend(a: seq<Effect>, b: seq<Effect>)
    ensures Rows(a + b) == Rows(a) + Rows(b)
    ensures SkipLines(a + b) == SkipLines(a) + SkipLines(b)
    decreases |a|
  {
    if a == [] {
      assert a + b == b;
    } else {
      RowsAppend(a[1..], b);
      assert (a + b)[0] == a[0];
      assert (a + b)[1..] == a[1..] + b;
    }
  }

  /** Effects none of which stops the run: it goes on, its report gains
      every written row in order, and its stdout every skip message. */
  lemma {:induction false} ReplayWithoutStop(start: Run, effects: seq<Effect>)
    requires start.report.Some? && start.status.Completed?
    requires forall i :: 0 <= i < |effects| ==> !Stops(effects[i])
    ensures Replay(start, effects) ==
      Run(Completed, Some(start.report.value + Rows(effects)), start.console + SkipLines(effects))
    decreases |effects|
  {
    if effects == [] {
      assert start.report.value + [] == start.report.value;
      assert start.console + [] == start.console;
    } else {
      var init, last := effects[..|effects| - 1], effects[|effects| - 1];
      ReplayWithoutStop(start, init);
      var before := Replay(start, init);
      assert Replay(start, effects) == Apply(before, last);
      assert !Stops(last);
      RowsAppend(init, [last]);
      assert init + [last] == effects;
      assert [last][1..] == [];
      assert Rows([last]) == (if last.Writes? then [last.line] else []) + [];
      assert SkipLines([last]) == (if last.Skips? then [last.message] else []) + [];
      var report, console := start.report.value, start.console;
      if last.Writes? {
        assert report + Rows(init) + [last.line] == report + Rows(effects);
        assert console + SkipLines(init) == console + SkipLines(effects);
      } else {
        assert last.Skips?;
        assert report + Rows(init) == report + Rows(effects);
        assert console + SkipLines(init) + [last.message] == console + SkipLines(effects);
      }
    }
  }

  /** Replaying one more effect on a run that is still going applies it. */
  lemma ReplayStep(start: Run, init: seq<Effect>, e: Effect)
    requires start.report.Some?
    requires Replay(start, init).status.Completed?
    ensures Replay(start, init + [e]) == Apply(Replay(start, init), e)
  {
    var longer := init + [e];
    assert longer[..|longer| - 1] == init;
  }

  /** Once a prefix of the effects has stopped the run, later effects change
      nothing. */
  lemma {:induction false} StoppedStays(start: Run, effects: seq<Effect>, k: nat)
    requires start.report.Some?
    requires k <= |effects|
    requires !Replay(start, effects[..k]).status.Completed?
    ensures Replay(start, effects) == Replay(start, effects[..k])
    decreases |effects| - k
  {
    if k < |effects| {
      var longer := effects[..k + 1];
      assert longer[..k] == effects[..k];
      StoppedStays(start, effects, k + 1);
    } else {
      assert effects[..k] == effects;
    }
  }

  /** The first effect that stops the run ends it there: the report keeps
      the rows of the effects before it and nothing after it is applied. */
  lemma FirstStopEndsReplay(start: Run, effects: seq<Effect>, k: nat)
    requires start.report.Some? && start.status.Completed?
    requires k < |effects|
    requires forall i :: 0 <= i < k ==> !Stops(effects[i])
    requires Stops(effects[k])
    ensures Replay(start, effects) ==
      Run(if effects[k].Missing? then Aborted(MissingFileMessage(effects[k].file)) else Crashed,
          Some(start.report.value + Rows(effects[..k])),
          start.console + SkipLines(effects[..k]))
  {
    var prefix := effects[..k + 1];
    assert prefix[..k] == effects[..k];
    ReplayWithoutStop(start, effects[..k]);
    StoppedStays(start, effects, k + 1);
  }

  /** A file stops the run exactly when it is missing or `test_file` raises
      on it; it writes a row exactly when `test_file` returns a row. */
  lemma EffectOfCases(env: Env, file: string)
    ensures Stops(EffectOf(env, file)) <==>
      !env.files(file).present || FileResult(env.files(file)).Crash?
    ensures EffectOf(env, file).Missing? <==> !env.files(file).present
    ensures EffectOf(env, file).Writes? <==>
      env.files(file).present && FileResult(env.files(file)).Row?
  {
    FileResultCases(env.files(file));
  }

  /** When every file exists and `test_file` does not raise on any, the run
      completes with the header and then one row per successful file, in
      input order. */
  lemma CleanRun(env: Env, files: seq<string>)
    requires forall i :: 0 <= i < |files| ==>
      env.files(files[i]).present && !FileResult(env.files(files[i])).Crash?
    ensures Process(env, files) ==
      Run(Completed, Some([Header] + Rows(Effects(env, files))), SkipLines(Effects(env, files)))
  {
    var es := Effects(env, files);
    forall i | 0 <= i < |es| ensures !Stops(es[i]) {
      EffectOfCases(env, files[i]);
    }
    ReplayWithoutStop(Opened(), es);
  }

  /** The first input file that is missing, or on which `test_file` raises,
      ends the run: the report keeps the rows of the files before it, and no
      later file is processed. */
  lemma FirstFailureEndsRun(env: Env, files: seq<string>, k: nat)
    requires k < |files|
    requires forall i :: 0 <= i < k ==>
      env.files(files[i]).present && !FileResult(env.files(files[i])).Crash?
    requires !env.files(files[k]).present || FileResult(env.files(files[k])).Crash?
    ensures Process(env, files) ==
      Run(if !env.files(files[k]).present then Aborted(MissingFileMessage(files[k])) else Crashed,
          Some([Header] + Rows(Effects(env, files[..k]))),
          SkipLines(Effects(env, files[..k])))
  {
    var es := Effects(env, files);
    forall i | 0 <= i < k ensures !Stops(es[i]) {
      EffectOfCases(env, files[i]);
    }
    EffectOfCases(env, files[k]);
    FirstStopEndsReplay(Opened(), es, k);
    assert es[..k] == Effects(env, files[..k]);
  }

  /** Effects that all write, but for one at index k that does not: the
      rows are those before k followed by those after k, one per effect. */
  lemma OneEffectWithoutRow(effects: seq<Effect>, k: nat)
    requires k < |effects|
    requires !effects[k].Writes?
    requires forall i :: 0 <= i < |effects| && i != k ==> effects[i].Writes?
    ensures Rows(effects) == Rows(effects[..k]) + Rows(effects[k + 1..])
    ensures |Rows(effects)| == |effects| - 1
  {
    var left, right := effects[..k], effects[k + 1..];
    assert effects == left + [effects[k]] + right;
    RowsAppend(left + [effects[k]], right);
    RowsAppend(left, [effects[k]]);
    assert [effects[k]][1..] == [];
    assert Rows([effects[k]]) == [] + Rows([]);
    forall i | 0 <= i < |left| ensures left[i].Writes? {
      assert left[i] == effects[i];
    }
    forall i | 0 <= i < |right| ensures right[i].Writes? {
      assert right[i] == effects[k + 1 + i];
    }
    AllWrite(left);
    AllWrite(right);
  }

  /** With N files that all exist, where `test_file` returns nil for file k
      and a row for every other file, the report holds the header and N - 1
      rows: those of the files before k, then those after k. */
  lemma OneFailedFileOmitted(env: Env, files: seq<string>, k: nat)
    requires k < |files|
    requires forall i :: 0 <= i < |files| ==> env.files(files[i]).present
    requires FileResult(env.files(files[k])).NoRow?
    requires forall i :: 0 <= i < |files| && i != k ==> FileResult(env.files(files[i])).Row?
    ensures var report := Process(env, files).report.value;
      report == [Header] + Rows(Effects(env, files[..k])) + Rows(Effects(env, files[k + 1..])) &&
      |report| == |files|
  {
    var es := Effects(env, files);
    forall i | 0 <= i < |es| ensures !Stops(es[i]) && (i != k <==> es[i].Writes?) {
      EffectOfCases(env, files[i]);
    }
    OneSkipReplay(es, k);
    assert es[..k] == Effects(env, files[..k]);
    assert es[k + 1..] == Effects(env, files[k + 1..]);
  }

  /** Replaying effects that all write but one, which only prints: the report
      is the header and the rows before and after it, one per writing effect. */
  lemma OneSkipReplay(effects: seq<Effect>, k: nat)
    requires k < |effects|
    requires forall i :: 0 <= i < |effects| ==> !Stops(effects[i])
    requires !effects[k].Writes?
    requires forall i :: 0 <= i < |effects| && i != k ==> effects[i].Writes?
    ensures var report := Replay(Opened(), effects).report.value;
      report == [Header] + Rows(effects[..k]) + Rows(effects[k + 1..]) &&
      |report| == |effects|
  {
    ReplayWithoutStop(Opened(), effects);
    OneEffectWithoutRow(effects, k);
  }

  /** Effects that all write contribute one row each. */
  lemma {:induction false} AllWrite(effects: seq<Effect>)
    requires forall i :: 0 <= i < |effects| ==> effects[i].Writes?
    ensures |Rows(effects)| == |effects|
    decreases |effects|
  {
    if effects != [] {
      AllWrite(effects[1..]);
    }
  }

  /** A JPEG pipeline that never produces output. */
  function NoJpeg(q: int): Measurement { NoOutput }

  /** An input whose WebP step succeeds but whose every JPEG probe fails. */
  function SearchFailsFile(): FileEnv { FileEnv(true, 100, Measured(10, Some(0.5)), NoJpeg) }

  /** Two inputs: "a.png" is SearchFailsFile, every other path exists and
      has a failing WebP step. */
  function TwoFileEnv(): Env {
    Env(true, p => true, p => if p == "a.png" then SearchFailsFile() else FileEnv(true, 100, NoOutput, NoJpeg), x => "")
  }

  /** On a file whose WebP step succeeds but whose search fails, the written
      `test_file` raises, and the run ends before the next file, where the
      corrected step would have skipped it and gone on. */
  lemma FailedSearchEndsRun()
    ensures FileResult(SearchFailsFile()) == Crash
    ensures FileResultSkipping(SearchFailsFile()) == NoRow
    ensures ScriptRun(["out.tsv", "a.png", "b.png"], TwoFileEnv()) == Run(Crashed, Some([Header]), [])
    ensures EffectOfSkipping(TwoFileEnv(), "a.png") == Skips(SkipMessage("a.png"))
  {
    var bad, env := SearchFailsFile(), TwoFileEnv();
    var args := ["out.tsv", "a.png", "b.png"];
    var files := args[1..];
    assert files[0] == "a.png";
    Unfold(NoJpeg, 0.5, QStart, QEnd);
    assert Search(NoJpeg, 0.5, QStart, QEnd) == None;
    assert FileResult(bad) == Crash;
    assert env.files(files[0]) == bad;
    FirstFailureEndsRun(env, files, 0);
    assert files[..0] == [];
    assert Effects(env, []) == [];
    assert Rows([]) == [] && SkipLines([]) == [];
    assert [Header] + [] == [Header];
    assert Process(env, files) == Run(Crashed, Some([Header]), []);
    assert ScriptRun(args, env) == MainRun(args[0], files, env);
  }

  /** The effect of visiting one input path with the corrected step: a
      failed search prints the skip message instead of raising. */
  function EffectOfSkipping(env: Env, file: string): (e: Effect)
    ensures !e.Raises?
    ensures EffectOf(env, file).Raises? ==> e == Skips(SkipMessage(file))
    ensures !EffectOf(env, file).Raises? ==> e == EffectOf(env, file)
  {
    var f := env.files(file);
    if !f.present then Missing(file)
    else
      match FileResultSkipping(f)
      case Crash => Skips(SkipMessage(file))
      case NoRow => Skips(SkipMessage(file))
      case Row(cells) =>
        if Nil in cells then Skips(SkipMessage(file))
        else Writes(RowLine(file, cells, env.floatToS))
  }

  /** `main` after the directory check, with the corrected step. */
  function ProcessSkipping(env: Env, files: seq<string>): Run {
    Replay(Opened(), seq(|files|, i requires 0 <= i < |files| => EffectOfSkipping(env, files[i])))
  }

  /** With the corrected step, a run over files that all exist always
      completes: every file either writes its row or prints the skip
      message, whatever the searches return. */
  lemma SkippingRunCompletes(env: Env, files: seq<string>)
    requires forall i :: 0 <= i < |files| ==> env.files(files[i]).present
    ensures ProcessSkipping(env, files).status.Completed?
    ensures |ProcessSkipping(env, files).report.value| <= |files| + 1
  {
    var es := seq(|files|, i requires 0 <= i < |files| => EffectOfSkipping(env, files[i]));
    forall i | 0 <= i < |es| ensures !Stops(es[i]) {
    }
    ReplayWithoutStop(Opened(), es);
    RowsBound(es);
  }

  /** The report gains at most one row per effect. */
  lemma {:induction false} RowsBound(effects: seq<Effect>)
    ensures |Rows(effects)| <= |effects|
    decreases |effects|
  {
    if effects != [] {
      RowsBound(effects[1..]);
    }
  }

  /** A stream the script writes lines to with `puts`. */
  class TextStream {
    var lines: seq<string>

    constructor ()
      ensures lines == []
    {
      lines := [];
    }

    method Puts(line: string)
      modifies this
      ensures lines == old(lines) + [line]
    {
      lines := lines + [line];
    }
  }

  /** One iteration of `files.each` in `main`: the existence check, then
      `test_file`, then the skip message or the report row. The status says
      whether the run goes on (an abort or an exception ends it), and the
      streams change exactly as the file's effect describes. */
  method Visit(file: string, env: Env, output: TextStream, stdout: TextStream) returns (status: Status)
    requires output != stdout
    modifies output, stdout
    ensures Run(status, Some(output.lines), stdout.lines) ==
      Apply(Run(Completed, Some(old(output.lines)), old(stdout.lines)), EffectOf(env, file))
  {
    var f := env.files(file);
    if !f.present {
      return Aborted(MissingFileMessage(file));
    }
    var res := TestFile(f);
    EffectOfPresent(env, file, res);
    if res.Crash? {
      return Crashed;
    }
    if res.NoRow? || Nil in res.cells {
      stdout.Puts(SkipMessage(file));
    } else {
      output.Puts(RowLine(file, res.cells, env.floatToS));
    }
    status := Completed;
  }

  /** `main`: checks the temporary directory, opens the report, writes the
      header, then visits the files in order. */
  method RunMain(outputFile: string, files: seq<string>, env: Env) returns (run: Run)
    ensures run == MainRun(outputFile, files, env)
  {
    if !env.outDirExists {
      return Run(Aborted(NoOutDirMessage()), None, []);
    }
    if !env.canWrite(outputFile) {
      return Run(Crashed, None, []);
    }
    var output := new TextStream();
    var stdout := new TextStream();
    output.Puts(Header);
    ghost var es := Effects(env, files);
    assert output.lines == [Header] && stdout.lines == [];
    assert es[..0] == [];
    for i := 0 to |files|
      invariant Run(Completed, Some(output.lines), stdout.lines) == Replay(Opened(), es[..i])
    {
      assert es[..i + 1] == es[..i] + [es[i]];
      ReplayStep(Opened(), es[..i], es[i]);
      var status := Visit(files[i], env, output, stdout);
      if !status.Completed? {
        run := Run(status, Some(output.lines), stdout.lines);
        StoppedStays(Opened(), es, i + 1);
        return;
      }
    }
    assert es[..|files|] == es;
    run := Run(Completed, Some(output.lines), stdout.lines);
  }

  /** The top level of the script: the argument count check, then `main`
      with the first argument as the report path and the rest as files. */
  method RunScript(args: seq<string>, env: Env) returns (run: Run)
    ensures run == ScriptRun(args, env)
  {
    if !(|args| > 1) {
      return Run(Aborted(UsageMessage), None, []);
    }
    run := RunMain(args[0], args[1..], env);
  }
}
