/**
 * The batch driver (`run_conversion`): the checks before the loop, the
 * output location of each file, the classification of each file's outcome,
 * and the success counter and failure report the loop builds.
 */
module Batch {
  import opened Wrappers
  import opened PosixPath
  import opened PurePaths
  import opened StringOrder
  import opened Discovery
  import opened Extraction
  import opened FailureGroups

  datatype Format = Txt | Csv | Unknown(name: string)

  /** `str.lower` on ASCII letters. */
  function Lower(s: string): (r: string)
    ensures |r| == |s|
  {
    seq(|s|, i requires 0 <= i < |s| => if 'A' <= s[i] <= 'Z' then (s[i] as int + 32) as char else s[i])
  }

  /** The format branch taken on `export_format.lower()`. */
  function ParseFormat(s: string): Format {
    var l := Lower(s);
    if l == "txt" then Txt else if l == "csv" then Csv else Unknown(s)
  }

  /** The arguments of `run_conversion` (verbose output is not modelled). */
  datatype Config = Config(importDir: string, exportDir: string, format: string, mirror: bool, recursive: bool)

  /** What the file system and the reader answer for one input file: the
      error `makedirs` raises for its output directory, what the reader
      decodes, and an I/O error raised while writing its output. */
  datatype FileEnv = FileEnv(dirError: Option<string>, decoded: Decoded, ioFault: Option<IoFault>)

  /** Everything `run_conversion` learns from outside: the components of the
      working directory, whether the import directory is one, the error
      creating the export directory, the entries below the import directory,
      and the answers for each file. */
  datatype World = World(cwd: seq<string>, importIsDir: bool, exportDirError: Option<string>,
                         entries: seq<Entry>, env: string -> FileEnv)

  /** The output directory of a file in text mode. */
  function TxtTarget(exportDir: string, relDir: string, stem: string, mirror: bool): string {
    if mirror then Join3(exportDir, relDir, stem) else Join(exportDir, stem)
  }

  /** The output file of a file in CSV mode. */
  function CsvTarget(exportDir: string, relDir: string, stem: string, mirror: bool): string {
    if mirror then Join3(exportDir, relDir, stem + ".csv") else Join(exportDir, stem + ".csv")
  }

  /** What happened to one file: converted (with the tables written), a
      failure recorded under an error text, or an exception that ends the batch. */
  datatype Verdict = Converted(writes: seq<TableWrite>) | Failed(err: string) | Crashed(fault: Fault)

  /** Classification of an exporter result: `written > 0` is a success, else
      the error text, or `fallback` when there is none. */
  function Classify(r: ExportResult, fallback: string): Verdict {
    match r
    case Raised(f, _) => Crashed(f)
    case Returned(written, err, writes) =>
      if written > 0 then Converted(writes) else Failed(err.GetOr(fallback))
  }

  /** The body of the loop for the file `path`, in a known format, with the
      working directory `cwd`. */
  function Judge(cfg: Config, fmt: Format, path: string, cwd: seq<string>, fe: FileEnv): Verdict
    requires !fmt.Unknown?
  {
    var stem := Stem(Basename(path));
    match RelDir(path, cfg.importDir, cwd)
    case None => Crashed(NoPathSpecified)
    case Some(relDir) =>
      if fmt.Txt? then
        if fe.dirError.Some? then Failed("OS error creating output dir: " + fe.dirError.value)
        else Classify(TxtExport(fe.decoded, TxtTarget(cfg.exportDir, relDir, stem, cfg.mirror), fe.ioFault),
                      "No spectra written")
      else
        if fe.dirError.Some? then Failed("OS error creating CSV output dir: " + fe.dirError.value)
        else Classify(CsvExport(fe.decoded, CsvTarget(cfg.exportDir, relDir, stem, cfg.mirror), fe.ioFault),
                      "CSV write failed")
  }

  /** A file without a directory part ends the batch before anything else is
      tried for it; otherwise a directory-creation error is recorded without
      calling the exporter, so the verdict does not depend on what the reader
      or the writes would do. */
  lemma DirErrorSkipsExport(cfg: Config, fmt: Format, path: string, cwd: seq<string>, fe: FileEnv, d: Decoded, f: Option<IoFault>)
    requires !fmt.Unknown? && fe.dirError.Some?
    ensures Judge(cfg, fmt, path, cwd, fe).Failed? <==> Dirname(path) != ""
    ensures Judge(cfg, fmt, path, cwd, fe) == Judge(cfg, fmt, path, cwd, FileEnv(fe.dirError, d, f))
  {
  }

  /** `relpath` raises, and the file crashes the batch, exactly for a file
      without a directory part, whatever the format and the file's contents. */
  lemma NoDirectoryCrashes(cfg: Config, fmt: Format, path: string, cwd: seq<string>, fe: FileEnv)
    requires !fmt.Unknown?
    ensures Dirname(path) == "" ==> Judge(cfg, fmt, path, cwd, fe) == Crashed(NoPathSpecified)
    ensures Dirname(path) != "" ==> RelDir(path, cfg.importDir, cwd).Some?
  {
  }

  /** In text mode a file is converted exactly when its spectra were all
      written and there was at least one; the default error text is used
      exactly for a file with a directory part that opens to an empty record matrix. */
  lemma TxtVerdicts(cfg: Config, path: string, cwd: seq<string>, fe: FileEnv)
    requires fe.dirError.None?
    ensures Judge(cfg, Txt, path, cwd, fe).Converted? ==>
              fe.decoded.Opened? && Normalise(fe.decoded.spectra, fe.decoded.count, fe.decoded.pointsPerSpectrum).Matrix? &&
              Normalise(fe.decoded.spectra, fe.decoded.count, fe.decoded.pointsPerSpectrum).rows > 0 &&
              |Judge(cfg, Txt, path, cwd, fe).writes| == Normalise(fe.decoded.spectra, fe.decoded.count, fe.decoded.pointsPerSpectrum).rows
    ensures Judge(cfg, Txt, path, cwd, fe) == Failed("No spectra written") <==>
              Dirname(path) != "" &&
              fe.decoded.Opened? && Normalise(fe.decoded.spectra, fe.decoded.count, fe.decoded.pointsPerSpectrum).Matrix? &&
              Normalise(fe.decoded.spectra, fe.decoded.count, fe.decoded.pointsPerSpectrum).rows == 0
    ensures Dirname(path) != "" && fe.decoded.OpenFailed? ==>
              Judge(cfg, Txt, path, cwd, fe) == Failed(OpenError(fe.decoded.excType, fe.decoded.message))
  {
    var stem := Stem(Basename(path));
    match RelDir(path, cfg.importDir, cwd)
    case None =>
    case Some(relDir) =>
      var target := TxtTarget(cfg.exportDir, relDir, stem, cfg.mirror);
      var r := TxtExport(fe.decoded, target, fe.ioFault);
      if r.Returned? {
        TxtExportReturns(fe.decoded, target, fe.ioFault);
        if fe.decoded.OpenFailed? {
          var e := OpenError(fe.decoded.excType, fe.decoded.message);
          assert e[0] == 'F';
        }
      }
  }

  /** In CSV mode the exporter always returns its own error text, so the
      default `"CSV write failed"` is never recorded; a success writes one table. */
  lemma CsvVerdicts(cfg: Config, path: string, cwd: seq<string>, fe: FileEnv)
    ensures Judge(cfg, Csv, path, cwd, fe) != Failed("CSV write failed")
    ensures Judge(cfg, Csv, path, cwd, fe).Converted? ==>
              fe.dirError.None? && fe.ioFault.None? && |Judge(cfg, Csv, path, cwd, fe).writes| == 1
  {
    match RelDir(path, cfg.importDir, cwd)
    case None =>
    case Some(relDir) =>
      if fe.dirError.Some? {
        var e := "OS error creating CSV output dir: " + fe.dirError.value;
        assert e[0] == 'O';
      } else {
        CsvClassified(fe.decoded, CsvTarget(cfg.exportDir, relDir, Stem(Basename(path)), cfg.mirror), fe.ioFault);
      }
  }

  lemma CsvClassified(d: Decoded, target: string, fault: Option<IoFault>)
    ensures Classify(CsvExport(d, target, fault), "CSV write failed") != Failed("CSV write failed")
    ensures Classify(CsvExport(d, target, fault), "CSV write failed").Converted? ==>
              fault.None? && |Classify(CsvExport(d, target, fault), "CSV write failed").writes| == 1
  {
    var r := CsvExport(d, target, fault);
    if r.Returned? {
      CsvExportReturns(d, target, fault);
      if r.err.Some? {
        assert r.err.value[0] == 'F';
      }
    }
  }

  /** One processed file: its basename and what happened to it. */
  datatype Item = Item(basename: string, verdict: Verdict)

  /** The verdict for each file of a batch. */
  function JudgeOf(cfg: Config, fmt: Format, cwd: seq<string>, env: string -> FileEnv): string -> Verdict
    requires !fmt.Unknown?
  {
    path => Judge(cfg, fmt, path, cwd, env(path))
  }

  function ItemsBy(judge: string -> Verdict, paths: seq<string>): (r: seq<Item>)
    ensures |r| == |paths|
    ensures forall i :: 0 <= i < |paths| ==> r[i] == Item(Basename(paths[i]), judge(paths[i]))
  {
    seq(|paths|, i requires 0 <= i < |paths| => Item(Basename(paths[i]), judge(paths[i])))
  }

  function Items(cfg: Config, fmt: Format, paths: seq<string>, cwd: seq<string>, env: string -> FileEnv): (r: seq<Item>)
    requires !fmt.Unknown?
    ensures |r| == |paths|
    ensures forall i :: 0 <= i < |paths| ==> r[i] == Item(Basename(paths[i]), Judge(cfg, fmt, paths[i], cwd, env(paths[i])))
  {
    ItemsBy(JudgeOf(cfg, fmt, cwd, env), paths)
  }

  /** The loop's state: the success counter, the failure report, and the
      tables written so far. */
  datatype Tally = Tally(success: nat, failed: Groups, writes: seq<TableWrite>)

  /** The loop is either still running or was ended by an exception. */
  datatype Progress = Running(tally: Tally) | Stopped(fault: Fault)

  function Step(t: Tally, it: Item): Progress
    requires Valid(t.failed)
  {
    match it.verdict
    case Converted(w) => Running(Tally(t.success + 1, t.failed, t.writes + w))
    case Failed(e) => Running(Tally(t.success, SetDefaultAppend(t.failed, e, it.basename), t.writes))
    case Crashed(f) => Stopped(f)
  }

  /** The loop over the processed files, in order. */
  function Aggregate(items: seq<Item>): (p: Progress)
    ensures p.Running? ==> Valid(p.tally.failed)
    decreases |items|
  {
    if items == [] then Running(Tally(0, Empty(), []))
    else
      match Aggregate(items[..|items| - 1])
      case Stopped(f) => Stopped(f)
      case Running(t) => Step(t, items[|items| - 1])
  }

  /** What `run_conversion` comes to: one of the exceptions it raises before
      or during the loop, or its success count and failure report. */
  datatype RunResult =
    | ImportDirMissing(message: string)     // FileNotFoundError
    | ExportDirFailed(message: string)      // OSError
    | NoFiles(message: string)              // FileNotFoundError
    | UnknownFormat(format: string)         // configuration error, no file converted
    | Aborted(fault: Fault)                 // an exception escaping the loop
    | Completed(success: nat, failed: Groups, failedNames: set<string>, writes: seq<TableWrite>)

  function ImportTree(cfg: Config, w: World): Tree {
    Tree(cfg.importDir, w.entries)
  }

  /** The files the batch processes, in order. */
  function BatchFiles(cfg: Config, w: World): seq<string> {
    Discover(ImportTree(cfg, w), [".wdf"], cfg.recursive)
  }

  /** `run_conversion(import_dir, export_dir, format, mirror, recursive)`.
      `os.path.isdir("")` is false. With an unknown format the first file
      still reaches the `relpath` call before the format is looked at. */
  function RunSpec(cfg: Config, w: World): RunResult {
    if cfg.importDir == "" || !w.importIsDir then ImportDirMissing("Import directory does not exist: " + cfg.importDir)
    else if w.exportDirError.Some? then
      ExportDirFailed("Failed to create export directory " + cfg.exportDir + ": " + w.exportDirError.value)
    else
      var files := BatchFiles(cfg, w);
      if files == [] then NoFiles("No WDF files found in " + cfg.importDir)
      else
        var fmt := ParseFormat(cfg.format);
        if fmt.Unknown? then
          if RelDir(files[0], cfg.importDir, w.cwd).None? then Aborted(NoPathSpecified) else UnknownFormat(cfg.format)
        else
          match Aggregate(Items(cfg, fmt, files, w.cwd, w.env))
          case Stopped(f) => Aborted(f)
          case Running(t) => Completed(t.success, t.failed, AllNames(t.failed), t.writes)
  }

  /** The body of the loop for one file, up to the bookkeeping. */
  method ConvertOne(cfg: Config, fmt: Format, wdf: string, cwd: seq<string>, fe: FileEnv) returns (v: Verdict)
    requires !fmt.Unknown?
    ensures v == Judge(cfg, fmt, wdf, cwd, fe)
  {
    var basename := Basename(wdf);
    var stem := Stem(basename);
    var rel := RelDir(wdf, cfg.importDir, cwd);
    if rel.None? {
      return Crashed(NoPathSpecified);
    }
    var relDir := rel.value;
    var res: ExportResult;
    var fallback: string;
    if fmt.Txt? {
      var subdir := if cfg.mirror then Join3(cfg.exportDir, relDir, stem) else Join(cfg.exportDir, stem);
      if fe.dirError.Some? {
        return Failed("OS error creating output dir: " + fe.dirError.value);
      }
      res := ExtractAndSaveSpectraToTxt(fe.decoded, subdir, fe.ioFault);
      fallback := "No spectra written";
    } else {
      var csvFilename := if cfg.mirror then Join3(cfg.exportDir, relDir, stem + ".csv")
                         else Join(cfg.exportDir, stem + ".csv");
      if fe.dirError.Some? {
        return Failed("OS error creating CSV output dir: " + fe.dirError.value);
      }
      res := CsvExport(fe.decoded, csvFilename, fe.ioFault);
      fallback := "CSV write failed";
    }
    if res.Raised? {
      return Crashed(res.fault);
    }
    if res.written > 0 {
      return Converted(res.writes);
    }
    return Failed(res.err.GetOr(fallback));
  }

  lemma AggregateSnoc(items: seq<Item>, i: nat)
    requires i < |items|
    ensures Aggregate(items[..i + 1]) ==
            match Aggregate(items[..i])
            case Stopped(f) => Stopped(f)
            case Running(t) => Step(t, items[i])
  {
    assert items[..i + 1][..i] == items[..i];
  }

  /** Once a file crashes the batch, the files after it change nothing. */
  lemma {:induction false} AggregateStopped(items: seq<Item>, i: nat)
    requires i <= |items|
    requires Aggregate(items[..i]).Stopped?
    ensures Aggregate(items) == Aggregate(items[..i])
    decreases |items| - i
  {
    if i < |items| {
      AggregateSnoc(items, i);
      AggregateStopped(items, i + 1);
    } else {
      assert items[..i] == items;
    }
  }

  /** No file of the batch raised an exception that escapes the loop. */
  predicate NoCrash(items: seq<Item>) {
    forall i :: 0 <= i < |items| ==> !items[i].verdict.Crashed?
  }

  /** Reference definitions over the processed files, read left to right. */
  function CountConverted(items: seq<Item>): nat
    decreases |items|
  {
    if items == [] then 0
    else CountConverted(items[..|items| - 1]) + (if items[|items| - 1].verdict.Converted? then 1 else 0)
  }

  function CountFailed(items: seq<Item>): nat
    decreases |items|
  {
    if items == [] then 0
    else CountFailed(items[..|items| - 1]) + (if items[|items| - 1].verdict.Failed? then 1 else 0)
  }

  function AllWrites(items: seq<Item>): seq<TableWrite>
    decreases |items|
  {
    if items == [] then []
    else
      var last := items[|items| - 1];
      AllWrites(items[..|items| - 1]) + (if last.verdict.Converted? then last.verdict.writes else [])
  }

  /** The basenames of the files that failed with the error text `e`, in order. */
  function FailedWith(items: seq<Item>, e: string): seq<string>
    decreases |items|
  {
    if items == [] then []
    else
      var last := items[|items| - 1];
      FailedWith(items[..|items| - 1], e) + (if last.verdict == Failed(e) then [last.basename] else [])
  }

  /** The error texts in the order in which each first occurs. */
  function ErrorOrder(items: seq<Item>): seq<string>
    decreases |items|
  {
    if items == [] then []
    else
      var o := ErrorOrder(items[..|items| - 1]);
      var last := items[|items| - 1];
      if last.verdict.Failed? && last.verdict.err !in o then o + [last.verdict.err] else o
  }

  lemma NoCrashInit(items: seq<Item>)
    requires items != [] && NoCrash(items)
    ensures NoCrash(items[..|items| - 1]) && !items[|items| - 1].verdict.Crashed?
  {
    var init := items[..|items| - 1];
    forall i | 0 <= i < |init|
      ensures !init[i].verdict.Crashed?
    {
      assert init[i] == items[i];
    }
  }

  /** The loop runs to the end exactly when no file crashes it. */
  lemma {:induction false} AggregateRunsIff(items: seq<Item>)
    ensures Aggregate(items).Running? <==> NoCrash(items)
    decreases |items|
  {
    if items != [] {
      var init := items[..|items| - 1];
      var last := items[|items| - 1];
      AggregateRunsIff(init);
      if Aggregate(items).Running? {
        forall j | 0 <= j < |items|
          ensures !items[j].verdict.Crashed?
        {
          if j < |items| - 1 {
            assert items[j] == init[j];
          }
        }
      }
      if NoCrash(items) {
        NoCrashInit(items);
      }
    }
  }

  /** A crash ends the batch with the fault of the first file that crashed. */
  lemma FirstCrashEndsBatch(items: seq<Item>, i: nat)
    requires i < |items| && items[i].verdict.Crashed? && NoCrash(items[..i])
    ensures Aggregate(items) == Stopped(items[i].verdict.fault)
  {
    AggregateRunsIff(items[..i]);
    AggregateSnoc(items, i);
    AggregateStopped(items, i + 1);
  }

  /** The counters: successes, tables written, and every file accounted for. */
  lemma {:induction false} AggregateCounts(items: seq<Item>)
    requires NoCrash(items)
    ensures Aggregate(items).Running?
    ensures Aggregate(items).tally.success == CountConverted(items)
    ensures TotalFailed(Aggregate(items).tally.failed) == CountFailed(items)
    ensures Aggregate(items).tally.writes == AllWrites(items)
    ensures CountConverted(items) + CountFailed(items) == |items|
    decreases |items|
  {
    AggregateRunsIff(items);
    if items != [] {
      var init := items[..|items| - 1];
      var last := items[|items| - 1];
      NoCrashInit(items);
      AggregateCounts(init);
      var t := Aggregate(init).tally;
      if last.verdict.Failed? {
        TotalAfterAppend(t.failed, last.verdict.err, last.basename);
      }
    }
  }

  lemma {:induction false} FailedWithOutsideOrder(items: seq<Item>, e: string)
    requires e !in ErrorOrder(items)
    ensures FailedWith(items, e) == []
    decreases |items|
  {
    if items != [] {
      FailedWithOutsideOrder(items[..|items| - 1], e);
    }
  }

  /** The failure report: its keys are the error texts in order of first
      occurrence, and each holds the basenames that failed with it, in order. */
  lemma {:induction false} AggregateGroups(items: seq<Item>)
    requires NoCrash(items)
    ensures Aggregate(items).Running?
    ensures Aggregate(items).tally.failed.keys == ErrorOrder(items)
    ensures forall e :: e in Aggregate(items).tally.failed.lists <==> e in ErrorOrder(items)
    ensures forall e :: e in Aggregate(items).tally.failed.lists ==>
              Aggregate(items).tally.failed.lists[e] == FailedWith(items, e)
    decreases |items|
  {
    AggregateRunsIff(items);
    if items != [] {
      var init := items[..|items| - 1];
      var last := items[|items| - 1];
      NoCrashInit(items);
      AggregateGroups(init);
      if last.verdict.Failed? && last.verdict.err !in ErrorOrder(init) {
        FailedWithOutsideOrder(init, last.verdict.err);
      }
    }
  }

  /** A file's basename is in some failure list exactly when the file failed. */
  lemma {:induction false} FailedWithMembership(items: seq<Item>, e: string, b: string)
    ensures b in FailedWith(items, e) <==> exists i :: 0 <= i < |items| && items[i] == Item(b, Failed(e))
    decreases |items|
  {
    if items != [] {
      var init := items[..|items| - 1];
      FailedWithMembership(init, e, b);
      if exists i :: 0 <= i < |items| && items[i] == Item(b, Failed(e)) {
        var i :| 0 <= i < |items| && items[i] == Item(b, Failed(e));
        if i < |items| - 1 {
          assert init[i] == items[i];
        }
      }
      if exists i :: 0 <= i < |init| && init[i] == Item(b, Failed(e)) {
        var i :| 0 <= i < |init| && init[i] == Item(b, Failed(e));
        assert items[i] == init[i];
      }
    }
  }

  lemma {:induction false} ErrorOrderMembership(items: seq<Item>, e: string)
    ensures e in ErrorOrder(items) <==> exists i :: 0 <= i < |items| && items[i].verdict == Failed(e)
    decreases |items|
  {
    if items != [] {
      var init := items[..|items| - 1];
      ErrorOrderMembership(init, e);
      if exists i :: 0 <= i < |items| && items[i].verdict == Failed(e) {
        var i :| 0 <= i < |items| && items[i].verdict == Failed(e);
        if i < |items| - 1 {
          assert init[i] == items[i];
        }
      }
      if exists i :: 0 <= i < |init| && init[i].verdict == Failed(e) {
        var i :| 0 <= i < |init| && init[i].verdict == Failed(e);
        assert items[i] == init[i];
      }
    }
  }

  /** The set of failed basenames `run_conversion` returns. */
  lemma FailedNamesAreFailedFiles(items: seq<Item>, b: string)
    requires NoCrash(items)
    ensures Aggregate(items).Running?
    ensures b in AllNames(Aggregate(items).tally.failed) <==>
            exists i :: 0 <= i < |items| && items[i].basename == b && items[i].verdict.Failed?
  {
    AggregateGroups(items);
    var g := Aggregate(items).tally.failed;
    if b in AllNames(g) {
      var k :| k in g.lists && b in g.lists[k];
      FailedWithMembership(items, k, b);
      var i :| 0 <= i < |items| && items[i] == Item(b, Failed(k));
    }
    if exists i :: 0 <= i < |items| && items[i].basename == b && items[i].verdict.Failed? {
      var i :| 0 <= i < |items| && items[i].basename == b && items[i].verdict.Failed?;
      var e := items[i].verdict.err;
      ErrorOrderMembership(items, e);
      FailedWithMembership(items, e, b);
      assert b in g.lists[e];
    }
  }

  /** The loop of lines 260-321 over the discovered files. */
  method ProcessFiles(cfg: Config, fmt: Format, files: seq<string>, cwd: seq<string>, env: string -> FileEnv) returns (p: Progress)
    requires !fmt.Unknown?
    ensures p == Aggregate(Items(cfg, fmt, files, cwd, env))
  {
    ghost var judge := JudgeOf(cfg, fmt, cwd, env);
    ghost var done: seq<Item> := [];
    var successCount := 0;
    var failed := new FailureReport();
    var writes: seq<TableWrite> := [];
    for i := 0 to |files|
      invariant done == ItemsBy(judge, files[..i])
      invariant Aggregate(done) == Running(Tally(successCount, failed.View(), writes))
    {
      var wdf := files[i];
      var basename := Basename(wdf);
      var v := ConvertOne(cfg, fmt, wdf, cwd, env(wdf));
      var it := Item(basename, v);
      assert judge(wdf) == v;
      ItemsBySnoc(judge, files, i);
      AggregateAppend(done, it);
      done := done + [it];
      if v.Crashed? {
        ItemsByPrefix(judge, files, i + 1);
        AggregateStopped(ItemsBy(judge, files), i + 1);
        return Stopped(v.fault);
      }
      successCount, writes := Record(successCount, failed, writes, it);
    }
    assert files[..|files|] == files;
    return Running(Tally(successCount, failed.View(), writes));
  }

  /** The bookkeeping at the end of the loop body for a file that did not crash. */
  method Record(success: nat, failed: FailureReport, writes: seq<TableWrite>, it: Item)
      returns (success': nat, writes': seq<TableWrite>)
    requires Valid(failed.View()) && !it.verdict.Crashed?
    modifies failed
    ensures Step(Tally(success, old(failed.View()), writes), it) == Running(Tally(success', failed.View(), writes'))
  {
    success', writes' := success, writes;
    if it.verdict.Converted? {
      success' := success + 1;
      writes' := writes + it.verdict.writes;
    } else {
      failed.Add(it.verdict.err, it.basename);
    }
  }

  lemma ItemsByPrefix(judge: string -> Verdict, files: seq<string>, n: nat)
    requires n <= |files|
    ensures ItemsBy(judge, files)[..n] == ItemsBy(judge, files[..n])
  {
  }

  lemma ItemsBySnoc(judge: string -> Verdict, files: seq<string>, i: nat)
    requires i < |files|
    ensures ItemsBy(judge, files[..i + 1]) == ItemsBy(judge, files[..i]) + [Item(Basename(files[i]), judge(files[i]))]
  {
    var a := ItemsBy(judge, files[..i + 1]);
    var b := ItemsBy(judge, files[..i]);
    forall k | 0 <= k < i
      ensures a[k] == b[k]
    {
      assert files[..i + 1][k] == files[..i][k];
    }
    assert files[..i + 1][i] == files[i];
    assert a == b + [a[i]];
  }

  lemma AggregateAppend(done: seq<Item>, it: Item)
    ensures Aggregate(done + [it]) ==
            match Aggregate(done)
            case Stopped(f) => Stopped(f)
            case Running(t) => Step(t, it)
  {
    assert (done + [it])[..|done|] == done;
  }

  /** Where the output of the file at `dirs/name` below the import root goes:
      below the export root, under its relative directory when mirroring. */
  function OutputBase(cfg: Config, e: Entry, leaf: string): string {
    if cfg.mirror && e.dirs != [] then DirPrefix(cfg.exportDir) + SlashJoin(e.dirs) + "/" + leaf
    else DirPrefix(cfg.exportDir) + leaf
  }

  lemma OutputLeaf(cfg: Config, e: Entry, leaf: string)
    requires WfEntry(e)
    requires |leaf| > 0 && leaf[0] != '/'
    ensures (if cfg.mirror then Join3(cfg.exportDir, SlashJoin(e.dirs), leaf)
             else Join(cfg.exportDir, leaf)) == OutputBase(cfg, e, leaf)
  {
    if e.dirs != [] {
      SlashJoinLastChar(e.dirs);
      assert e.dirs[0][0] in e.dirs[0];
      SlashJoinFirstChar(e.dirs);
      JoinNested(cfg.exportDir, SlashJoin(e.dirs), leaf);
    } else {
      JoinEmptyComponent(cfg.exportDir, leaf);
    }
    JoinRelative(cfg.exportDir, leaf);
  }

  /** For the file pathlib finds at `dirs/name` below the import root, in any
      spelling of that root: its basename, and the relative directory `relpath`
      gives (none where it raises). */
  lemma FileLocation(cfg: Config, e: Entry, cwd: seq<string>)
    requires WfEntry(e)
    ensures Basename(PathOf(PathStr(cfg.importDir), e)) == e.name
    ensures RelDir(PathOf(PathStr(cfg.importDir), e), cfg.importDir, cwd) ==
            if PathStr(cfg.importDir) == "." && e.dirs == [] then None else Some(SlashJoin(e.dirs))
  {
    FileDirectory(cfg.importDir, e.dirs, e.name, cwd);
  }

  /** The relative directory as line 272 evidently intends it: `relpath` of
      `dirname(wdf) or "."`, which never raises. */
  function FixedRelDir(file: string, root: string, cwd: seq<string>): string {
    var dir := if Dirname(file) == "" then "." else Dirname(file);
    var rel := RelPath(dir, root, cwd).value;
    if rel == "." then "" else rel
  }

  /** With the corrected relative directory every found file, in any spelling
      of the import root, is mirrored at the directories leading to it. */
  lemma FixedFileLocation(cfg: Config, e: Entry, cwd: seq<string>)
    requires WfEntry(e)
    ensures FixedRelDir(PathOf(PathStr(cfg.importDir), e), cfg.importDir, cwd) == SlashJoin(e.dirs)
  {
    var d := cfg.importDir;
    var p := PathOf(PathStr(d), e);
    FileDirectory(d, e.dirs, e.name, cwd);
    if PathStr(d) == "." && e.dirs == [] {
      PathStrParts(d);
      UnderChild(PathStr(d), e.dirs, e.name);
      AbsPartsUnder(d, [], cwd);
      assert AbsParts(".", cwd) == AbsParts(d, cwd) + [];
      RelPathBelow(".", d, cwd, []);
    }
  }

  /** Text mode writes the spectra of `dirs/name` into the directory named
      after its stem, mirrored or flat. */
  lemma TxtOutputLocation(cfg: Config, e: Entry)
    requires WfEntry(e)
    ensures TxtTarget(cfg.exportDir, SlashJoin(e.dirs), Stem(e.name), cfg.mirror) == OutputBase(cfg, e, Stem(e.name))
  {
    StemOfValidName(e.name);
    assert Stem(e.name)[0] in Stem(e.name);
    OutputLeaf(cfg, e, Stem(e.name));
  }

  /** CSV mode writes `stem.csv`, mirrored or flat. */
  lemma CsvOutputLocation(cfg: Config, e: Entry)
    requires WfEntry(e)
    ensures CsvTarget(cfg.exportDir, SlashJoin(e.dirs), Stem(e.name), cfg.mirror) == OutputBase(cfg, e, Stem(e.name) + ".csv")
  {
    StemOfValidName(e.name);
    assert Stem(e.name)[0] in Stem(e.name);
    assert (Stem(e.name) + ".csv")[0] == Stem(e.name)[0];
    OutputLeaf(cfg, e, Stem(e.name) + ".csv");
  }

  /** Mirroring makes no difference for a file directly under the import root. */
  lemma MirrorIrrelevantAtTop(cfg: Config, e: Entry, cwd: seq<string>)
    requires WfEntry(e) && e.dirs == []
    ensures forall rel :: RelDir(PathOf(PathStr(cfg.importDir), e), cfg.importDir, cwd) == Some(rel) ==>
              TxtTarget(cfg.exportDir, rel, Stem(e.name), true) == TxtTarget(cfg.exportDir, rel, Stem(e.name), false)
  {
    FileLocation(cfg, e, cwd);
    TxtOutputLocation(cfg.(mirror := true), e);
    TxtOutputLocation(cfg.(mirror := false), e);
  }

  /** The file `root/sub/a.wdf`, mirrored into `out`, is written to `out/sub/a`. */
  lemma MirroredNestedExample(cwd: seq<string>)
    ensures RelDir("root/sub/a.wdf", "root", cwd) == Some("sub")
    ensures TxtTarget("out", "sub", Stem(Basename("root/sub/a.wdf")), true) == "out/sub/a"
  {
    NestedExamplePath(cwd);
    NestedExampleStem();
    NestedExampleJoin();
  }

  lemma NestedExampleJoin()
    ensures TxtTarget("out", "sub", "a", true) == "out/sub/a"
  {
    JoinNested("out", "sub", "a");
    assert DirPrefix("out") + "sub" + "/" + "a" == "out/sub/a";
  }

  /** A root that is a single relative name renders as itself. */
  lemma RendersAsItself(d: string)
    requires ValidName(d)
    ensures PathStr(d) == d
  {
    assert LastIndex(d, '/') == None;
    assert Pieces(d) == [d];
    assert Significant([d]) == Significant([]) + [d];
  }

  lemma NestedExamplePath(cwd: seq<string>)
    ensures Basename("root/sub/a.wdf") == "a.wdf" && RelDir("root/sub/a.wdf", "root", cwd) == Some("sub")
  {
    RendersAsItself("root");
    NestedExampleUnder();
    assert ValidName("a.wdf") && ValidName("sub");
    FileDirectory("root", ["sub"], "a.wdf", cwd);
  }

  lemma NestedExampleUnder()
    ensures Under("root", ["sub"] + ["a.wdf"]) == "root/sub/a.wdf"
  {
    TwoLevels("root", "sub", "a.wdf");
    assert "root" + "/" + "sub" + "/" + "a.wdf" == "root/sub/a.wdf";
  }

  /** Two components below a directory that is neither `.` nor an anchor. */
  lemma TwoLevels(r: string, x: string, y: string)
    requires r != "." && r != "/" && r != "//"
    ensures Under(r, [x] + [y]) == r + "/" + x + "/" + y
  {
    assert [x] + [y] == [x, y];
    assert SlashJoin([x, y]) == x + "/" + y by {
      assert [x, y][..1] == [x];
    }
  }

  lemma NestedExampleStem()
    ensures Stem("a.wdf") == "a"
  {
    assert HasNonDot("a") by { assert "a"[0] != '.'; }
    SplitExtOf("a", "wdf");
    assert "a" + "." + "wdf" == "a.wdf";
  }

  /** A trailing separator on the import root changes nothing: the same
      files are found, and each is treated the same way. */
  lemma TrailingSeparatorIgnored(cfg: Config, w: World, fmt: Format, path: string, fe: FileEnv)
    requires NormalRoot(cfg.importDir) && !fmt.Unknown?
    ensures BatchFiles(cfg.(importDir := cfg.importDir + "/"), w) == BatchFiles(cfg, w)
    ensures Judge(cfg.(importDir := cfg.importDir + "/"), fmt, path, w.cwd, fe) == Judge(cfg, fmt, path, w.cwd, fe)
  {
    TrailingSlashParts(cfg.importDir, w.cwd);
    SameRendering(ImportTree(cfg.(importDir := cfg.importDir + "/"), w), ImportTree(cfg, w), cfg.recursive);
    RelDirTrailingSlash(path, cfg.importDir, w.cwd);
    SameRelDir(cfg, cfg.(importDir := cfg.importDir + "/"), fmt, path, w.cwd, fe);
  }

  /** Discovery sees the root only as pathlib renders it. */
  lemma SameRendering(t1: Tree, t2: Tree, recursive: bool)
    requires PathStr(t1.root) == PathStr(t2.root) && t1.entries == t2.entries
    ensures Discover(t1, [".wdf"], recursive) == Discover(t2, [".wdf"], recursive)
  {
  }

  /** A file is treated alike under two import roots that give it the same relative directory. */
  lemma SameRelDir(cfg1: Config, cfg2: Config, fmt: Format, path: string, cwd: seq<string>, fe: FileEnv)
    requires !fmt.Unknown? && cfg1.(importDir := cfg2.importDir) == cfg2
    requires RelDir(path, cfg1.importDir, cwd) == RelDir(path, cfg2.importDir, cwd)
    ensures Judge(cfg1, fmt, path, cwd, fe) == Judge(cfg2, fmt, path, cwd, fe)
  {
  }

  /** Importing from `.`: the file `a.wdf` directly in it has no directory
      part, and `relpath` raises for it. */
  lemma DotRootExample(cwd: seq<string>)
    ensures PathOf(PathStr("."), Entry([], "a.wdf", File)) == "a.wdf"
    ensures RelDir("a.wdf", ".", cwd).None?
  {
    assert LastIndex(".", '/') == None;
    assert Significant(["."]) == [];
    assert PathStr(".") == ".";
    assert [] + ["a.wdf"] == ["a.wdf"];
    assert ValidName("a.wdf");
    FileDirectory(".", [], "a.wdf", cwd);
  }

  /** Two files, one converted and one the reader cannot open: one success and
      one group holding the second basename. */
  lemma OneGoodOneBadExample(w: seq<TableWrite>, msg: string)
    ensures Aggregate([Item("a.wdf", Converted(w)), Item("b.wdf", Failed(msg))])
            == Running(Tally(1, Groups([msg], map[msg := ["b.wdf"]]), w))
  {
    var items := [Item("a.wdf", Converted(w)), Item("b.wdf", Failed(msg))];
    assert items[..1] == [Item("a.wdf", Converted(w))];
    assert items[..1][..0] == [];
    assert Aggregate(items[..1]) == Running(Tally(1, Empty(), w)) by {
      assert [] + w == w;
    }
    assert SetDefaultAppend(Empty(), msg, "b.wdf") == Groups([msg], map[msg := ["b.wdf"]]) by {
      assert [] + [msg] == [msg];
      assert map[][msg := ["b.wdf"]] == map[msg := ["b.wdf"]];
    }
  }

  /** `Lower` maps a character to `c` exactly when it is `c` or its capital. */
  lemma LowerChar(s: string, i: nat, lower: char, upper: char)
    requires i < |s| && 'a' <= lower <= 'z' && upper as int == lower as int - 32
    ensures Lower(s)[i] == lower <==> s[i] == lower || s[i] == upper
  {
  }

  /** The format is chosen without regard to case: `txt` and `csv` in any
      mixture of capitals, and nothing else. */
  lemma FormatIgnoresCase(s: string)
    ensures ParseFormat(s) == Txt <==>
            |s| == 3 && s[0] in "tT" && s[1] in "xX" && s[2] in "tT"
    ensures ParseFormat(s) == Csv <==>
            |s| == 3 && s[0] in "cC" && s[1] in "sS" && s[2] in "vV"
    ensures ParseFormat(s).Unknown? ==> ParseFormat(s).name == s
  {
    if |s| == 3 {
      LowerChar(s, 0, 't', 'T');
      LowerChar(s, 1, 'x', 'X');
      LowerChar(s, 2, 't', 'T');
      LowerChar(s, 0, 'c', 'C');
      LowerChar(s, 1, 's', 'S');
      LowerChar(s, 2, 'v', 'V');
      assert Lower(s) == "txt" <==> Lower(s)[0] == 't' && Lower(s)[1] == 'x' && Lower(s)[2] == 't';
      assert Lower(s) == "csv" <==> Lower(s)[0] == 'c' && Lower(s)[1] == 's' && Lower(s)[2] == 'v';
    }
  }

  /** Lower-casing the format first changes nothing but the name an unknown one is reported under. */
  lemma FormatOfLowered(s: string)
    ensures ParseFormat(Lower(s)) == if ParseFormat(s).Unknown? then Unknown(Lower(s)) else ParseFormat(s)
  {
    assert Lower(Lower(s)) == Lower(s);
  }

  /** What `run_conversion` returns after a complete loop: the number of
      converted files and the basenames of exactly the files that failed;
      the model also exposes the report the call prints, which accounts for
      every other file. */
  lemma RunCompleted(cfg: Config, w: World)
    ensures RunSpec(cfg, w).Completed? <==>
            cfg.importDir != "" && w.importIsDir && w.exportDirError.None? && BatchFiles(cfg, w) != [] &&
            !ParseFormat(cfg.format).Unknown? &&
            NoCrash(Items(cfg, ParseFormat(cfg.format), BatchFiles(cfg, w), w.cwd, w.env))
    ensures RunSpec(cfg, w).Completed? ==>
            var items := Items(cfg, ParseFormat(cfg.format), BatchFiles(cfg, w), w.cwd, w.env);
            var r := RunSpec(cfg, w);
            r.success == CountConverted(items) &&
            TotalFailed(r.failed) == CountFailed(items) &&
            r.success + TotalFailed(r.failed) == |BatchFiles(cfg, w)| &&
            r.failed.keys == ErrorOrder(items) &&
            (forall b :: b in r.failedNames <==>
               exists i :: 0 <= i < |items| && items[i].basename == b && items[i].verdict.Failed?)
  {
    if cfg.importDir != "" && w.importIsDir && w.exportDirError.None? && BatchFiles(cfg, w) != [] &&
        !ParseFormat(cfg.format).Unknown? {
      var items := Items(cfg, ParseFormat(cfg.format), BatchFiles(cfg, w), w.cwd, w.env);
      AggregateRunsIff(items);
      if NoCrash(items) {
        CompletedReport(items);
      }
    }
  }

  /** What the loop reports when no file crashes. */
  lemma CompletedReport(items: seq<Item>)
    requires NoCrash(items)
    ensures Aggregate(items).Running?
    ensures var t := Aggregate(items).tally;
            t.success == CountConverted(items) &&
            TotalFailed(t.failed) == CountFailed(items) &&
            t.success + TotalFailed(t.failed) == |items| &&
            t.failed.keys == ErrorOrder(items) &&
            (forall b :: b in AllNames(t.failed) <==>
               exists i :: 0 <= i < |items| && items[i].basename == b && items[i].verdict.Failed?)
  {
    AggregateCounts(items);
    AggregateGroups(items);
    forall b
      ensures b in AllNames(Aggregate(items).tally.failed) <==>
              exists i :: 0 <= i < |items| && items[i].basename == b && items[i].verdict.Failed?
    {
      FailedNamesAreFailedFiles(items, b);
    }
  }

  /** A crash aborts the batch with the fault of the first file that crashes. */
  lemma RunAborted(cfg: Config, w: World, i: nat)
    requires cfg.importDir != "" && w.importIsDir && w.exportDirError.None? && !ParseFormat(cfg.format).Unknown?
    requires i < |BatchFiles(cfg, w)|
    requires var items := Items(cfg, ParseFormat(cfg.format), BatchFiles(cfg, w), w.cwd, w.env);
             items[i].verdict.Crashed? && NoCrash(items[..i])
    ensures RunSpec(cfg, w) ==
            Aborted(Judge(cfg, ParseFormat(cfg.format), BatchFiles(cfg, w)[i], w.cwd, w.env(BatchFiles(cfg, w)[i])).fault)
  {
    FirstCrashEndsBatch(Items(cfg, ParseFormat(cfg.format), BatchFiles(cfg, w), w.cwd, w.env), i);
  }

  /** Importing non-recursively from a directory that renders as `.` (such
      as `.` or `./`) aborts the run on the first file, whatever the format:
      every file found lies directly in it, so `relpath` raises. */
  lemma DotRootAborts(cfg: Config, w: World)
    requires cfg.importDir != "" && w.importIsDir && w.exportDirError.None?
    requires PathStr(cfg.importDir) == "." && !cfg.recursive && WfTree(ImportTree(cfg, w))
    requires BatchFiles(cfg, w) != []
    ensures RunSpec(cfg, w) == Aborted(NoPathSpecified)
  {
    var files := BatchFiles(cfg, w);
    assert files[0] in files;
    NonRecursiveStaysAtTop(ImportTree(cfg, w), [".wdf"], files[0], w.cwd);
    var fmt := ParseFormat(cfg.format);
    if !fmt.Unknown? {
      var items := Items(cfg, fmt, files, w.cwd, w.env);
      assert items[0].verdict == Crashed(NoPathSpecified);
      assert items[..0] == [];
      FirstCrashEndsBatch(items, 0);
    }
  }

  /** Importing from a directory that renders as `.`, a `.wdf` file directly
      in it aborts the run, recursive or not. */
  lemma TopLevelFileAborts(cfg: Config, w: World, e: Entry)
    requires cfg.importDir != "" && w.importIsDir && w.exportDirError.None? && !ParseFormat(cfg.format).Unknown?
    requires PathStr(cfg.importDir) == "."
    requires e in w.entries && e.dirs == [] && e.kind == File && ValidName(e.name) && Suffix(e.name) == ".wdf"
    ensures RunSpec(cfg, w).Aborted?
  {
    TopLevelFileFound(cfg, w, e);
    var files := BatchFiles(cfg, w);
    var j :| 0 <= j < |files| && files[j] == e.name;
    assert Dirname(e.name) == "" by {
      assert LastIndex(e.name, '/') == None;
    }
    var items := Items(cfg, ParseFormat(cfg.format), files, w.cwd, w.env);
    NoDirectoryCrashes(cfg, ParseFormat(cfg.format), files[j], w.cwd, w.env(files[j]));
    CrashStops(items, j);
    StoppedAborts(cfg, w);
  }

  lemma StoppedAborts(cfg: Config, w: World)
    requires cfg.importDir != "" && w.importIsDir && w.exportDirError.None? && !ParseFormat(cfg.format).Unknown?
    requires Aggregate(Items(cfg, ParseFormat(cfg.format), BatchFiles(cfg, w), w.cwd, w.env)).Stopped?
    ensures RunSpec(cfg, w).Aborted?
  {
  }

  lemma CrashStops(items: seq<Item>, j: nat)
    requires j < |items| && items[j].verdict.Crashed?
    ensures Aggregate(items).Stopped?
  {
    AggregateRunsIff(items);
  }

  /** Below a root that renders as `.`, a `.wdf` file directly in it is
      processed under its bare name. */
  lemma TopLevelFileFound(cfg: Config, w: World, e: Entry)
    requires PathStr(cfg.importDir) == "."
    requires e in w.entries && e.dirs == [] && e.kind == File && ValidName(e.name) && Suffix(e.name) == ".wdf"
    ensures e.name in BatchFiles(cfg, w)
  {
    var t := ImportTree(cfg, w);
    assert e.dirs + [e.name] == [e.name];
    assert PathOf(PathStr(t.root), e) == e.name;
    var k :| 0 <= k < |t.entries| && t.entries[k] == e;
    if cfg.recursive {
      FoundRecursively(t, e.name, k);
    } else {
      NonRecursiveDiscovery(t, [".wdf"], e.name);
    }
  }

  lemma FoundRecursively(t: Tree, p: string, k: nat)
    requires k < |t.entries| && p == PathOf(PathStr(t.root), t.entries[k]) && Suffix(t.entries[k].name) == ".wdf"
    ensures p in Discover(t, [".wdf"], true)
  {
    SuffixEndsWith(t.entries[k].name);
    WdfPattern(t.entries[k].name);
    RecursiveDiscovery(t, [".wdf"], p);
  }

  lemma WdfPattern(name: string)
    requires EndsWith(name, ".wdf")
    ensures MatchesSome(name, [".wdf"])
    ensures forall j :: 0 <= j < |[".wdf"]| ==> '*' !in GlobPattern([".wdf"][j])[1..]
  {
    var pats := [".wdf"];
    assert pats[0] == ".wdf";
    assert GlobPattern(".wdf") == "*" + ".wdf";
    assert GlobPattern(pats[0])[1..] == ".wdf";
    assert '*' !in ".wdf";
    assert EndsWith(name, GlobPattern(pats[0])[1..]);
  }

  lemma SuffixEndsWith(name: string)
    requires Suffix(name) == ".wdf"
    ensures EndsWith(name, ".wdf")
  {
    var i :| LastIndex(name, '.') == Some(i);
    assert name[i..] == ".wdf";
  }

  /** `run_conversion`, step by step. */
  method RunConversion(cfg: Config, w: World) returns (r: RunResult)
    ensures r == RunSpec(cfg, w)
    ensures r.Completed? ==> r.success + TotalFailed(r.failed) == |BatchFiles(cfg, w)|
  {
    if cfg.importDir == "" || !w.importIsDir {
      return ImportDirMissing("Import directory does not exist: " + cfg.importDir);
    }
    if w.exportDirError.Some? {
      return ExportDirFailed("Failed to create export directory " + cfg.exportDir + ": " + w.exportDirError.value);
    }
    var files := GetFilenames(ImportTree(cfg, w), [".wdf"], cfg.recursive);
    if |files| == 0 {
      return NoFiles("No WDF files found in " + cfg.importDir);
    }
    var fmt := ParseFormat(cfg.format);
    if fmt.Unknown? {
      var rel := RelDir(files[0], cfg.importDir, w.cwd);
      if rel.None? {
        return Aborted(NoPathSpecified);
      }
      return UnknownFormat(cfg.format);
    }
    ghost var items := Items(cfg, fmt, files, w.cwd, w.env);
    var p := ProcessFiles(cfg, fmt, files, w.cwd, w.env);
    AggregateRunsIff(items);
    if p.Running? {
      AggregateCounts(items);
    }
    match p {
      case Stopped(f) =>
        return Aborted(f);
      case Running(t) =>
        return Completed(t.success, t.failed, AllNames(t.failed), t.writes);
    }
  }
}
