/**
 * Per-file extraction and export (`extract_and_save_spectra_to_txt` and
 * `extract_and_save_spectra_to_csv`): the shape the spectra are brought into,
 * the files that are written, and the `(written, error)` pair returned.
 * Intensity values are never looked at; only shapes are.
 */
module Extraction {
  import opened Wrappers
  import opened PosixPath
  import opened Decimal

  /** The number of elements of an array of the given shape (1 for a 0-d array). */
  function Size(shape: seq<nat>): nat
    decreases |shape|
  {
    if shape == [] then 1 else shape[0] * Size(shape[1..])
  }

  /** What the WDF reader yields for one file: the exception raised while
      opening it, or the length of `xdata`, the shape of `spectra` and the
      header fields `count` and `point_per_spectrum` (None when absent). */
  datatype Decoded =
    | OpenFailed(excType: string, message: string)
    | Opened(axisLength: nat, spectra: seq<nat>, count: Option<nat>, pointsPerSpectrum: Option<nat>)

  /** Exceptions that escape the body of the batch loop: those of an exporter
      (nothing in the exporters catches them), and the one `os.path.relpath`
      raises for a file without a directory part. */
  datatype Fault =
    | ReshapeFailed(size: nat, rows: nat, cols: nat)   // ValueError from the last `reshape`
    | ColumnMismatch(axisLength: nat, cols: nat)       // ValueError from `np.column_stack`
    | WriteFailed(detail: string)                      // OSError from `np.savetxt`
    | NoPathSpecified                                  // ValueError from `os.path.relpath("")`

  /** An I/O error the file system would raise while writing the output of
      one file: at record `record` in text mode; anywhere in CSV mode. */
  datatype IoFault = IoFault(record: nat, detail: string)

  /** The record matrix after shape normalisation, or the final reshape failing. */
  datatype Normalised =
    | Matrix(rows: nat, cols: nat)
    | Unreshapable(size: nat, rows: nat, cols: nat)

  function Max1(n: nat): nat {
    if n < 1 then 1 else n
  }

  /** The declared dimensions fit the buffer, so the first reshape succeeds. */
  predicate Consistent(spectra: seq<nat>, count: Option<nat>, points: Option<nat>) {
    count.Some? && points.Some? && count.value * points.value == Size(spectra)
  }

  /** Lines 156-164 (and 196-203): reshape to the declared `(count, points)`;
      failing that keep a 2-d buffer as it is; failing that reshape to
      `(count, size // max(1, count))`, `count` defaulting to 1. */
  function Normalise(spectra: seq<nat>, count: Option<nat>, points: Option<nat>): Normalised {
    var size := Size(spectra);
    if Consistent(spectra, count, points) then Matrix(count.value, points.value)
    else if |spectra| == 2 then Matrix(spectra[0], spectra[1])
    else
      var c := count.GetOr(1);
      var n := size / Max1(c);
      if c * n == size then Matrix(c, n) else Unreshapable(size, c, n)
  }

  /** One table written to disk: its path, its number of data rows and of
      columns, and whether it has a header row. */
  datatype TableWrite = TableWrite(path: string, rows: nat, cols: nat, header: bool)

  /** The outcome of an exporter call: the `(written, error)` pair it returns,
      or the exception it raises; both with the tables written before. */
  datatype ExportResult =
    | Returned(written: nat, err: Option<string>, writes: seq<TableWrite>)
    | Raised(fault: Fault, writes: seq<TableWrite>)

  /** The error text for a file the reader could not open. */
  function OpenError(excType: string, message: string): string {
    "Failed to open: " + excType + ": " + message
  }

  /** The name of the text file of record `i`. */
  function SpectrumFileName(i: nat): string {
    DecimalString(i) + ".txt"
  }

  /** The first `n` per-record tables in `dir`: two columns (axis, intensity),
      one row per point, no header. */
  function SpectrumWrites(dir: string, n: nat, points: nat): (w: seq<TableWrite>)
    ensures |w| == n
    ensures forall i :: 0 <= i < n ==> w[i] == TableWrite(Join(dir, SpectrumFileName(i)), points, 2, false)
  {
    seq(n, i requires 0 <= i < n => TableWrite(Join(dir, SpectrumFileName(i)), points, 2, false))
  }

  lemma SpectrumWritesSnoc(dir: string, n: nat, points: nat)
    ensures SpectrumWrites(dir, n + 1, points) ==
            SpectrumWrites(dir, n, points) + [TableWrite(Join(dir, SpectrumFileName(n)), points, 2, false)]
  {
  }

  /** Where the per-record loop stops, if it does: `column_stack` of an axis
      and a row of different lengths raises on the first record; the write
      of record `k` raises when the file system fails there. */
  function TxtStop(rows: nat, cols: nat, axisLength: nat, fault: Option<IoFault>): Option<(nat, Fault)> {
    if rows == 0 then None
    else if axisLength != cols then Some((0, ColumnMismatch(axisLength, cols)))
    else if fault.Some? && fault.value.record < rows then Some((fault.value.record, WriteFailed(fault.value.detail)))
    else None
  }

  /** `extract_and_save_spectra_to_txt(wdf, dir)`. */
  function TxtExport(d: Decoded, dir: string, fault: Option<IoFault>): ExportResult {
    match d
    case OpenFailed(t, m) => Returned(0, Some(OpenError(t, m)), [])
    case Opened(axisLength, spectra, count, points) =>
      match Normalise(spectra, count, points)
      case Unreshapable(size, r, c) => Raised(ReshapeFailed(size, r, c), [])
      case Matrix(rows, cols) =>
        match TxtStop(rows, cols, axisLength, fault)
        case None => Returned(rows, None, SpectrumWrites(dir, rows, cols))
        case Some((k, f)) => Raised(f, SpectrumWrites(dir, k, cols))
  }

  /** pandas' complaint about a matrix whose width is not the number of column labels. */
  function ShapeMismatchText(rows: nat, cols: nat, labels: nat): string {
    "ValueError: Shape of passed values is (" + DecimalString(rows) + ", " + DecimalString(cols) +
    "), indices imply (" + DecimalString(rows) + ", " + DecimalString(labels) + ")"
  }

  /** `extract_and_save_spectra_to_csv(wdf, path)`. */
  function CsvExport(d: Decoded, path: string, fault: Option<IoFault>): ExportResult {
    match d
    case OpenFailed(t, m) => Returned(0, Some(OpenError(t, m)), [])
    case Opened(axisLength, spectra, count, points) =>
      match Normalise(spectra, count, points)
      case Unreshapable(size, r, c) => Raised(ReshapeFailed(size, r, c), [])
      case Matrix(rows, cols) =>
        if axisLength != cols then
          Returned(0, Some("Failed to write CSV: " + ShapeMismatchText(rows, cols, axisLength)), [])
        else if fault.Some? then
          Returned(0, Some("Failed to write CSV: " + fault.value.detail), [])
        else
          Returned(1, None, [TableWrite(path, rows, cols, true)])
  }

  /** The per-record loop of lines 170-174: one table per record, until a write raises. */
  method SaveSpectraTxt(dir: string, rows: nat, cols: nat, axisLength: nat, fault: Option<IoFault>)
    returns (writes: seq<TableWrite>, raised: Option<Fault>)
    ensures TxtStop(rows, cols, axisLength, fault).None? ==>
              raised.None? && writes == SpectrumWrites(dir, rows, cols)
    ensures TxtStop(rows, cols, axisLength, fault).Some? ==>
              raised == Some(TxtStop(rows, cols, axisLength, fault).value.1) &&
              writes == SpectrumWrites(dir, TxtStop(rows, cols, axisLength, fault).value.0, cols)
  {
    writes := [];
    raised := None;
    var idx := 0;
    while idx < rows
      invariant 0 <= idx <= rows
      invariant writes == SpectrumWrites(dir, idx, cols)
      invariant idx > 0 ==> axisLength == cols
      invariant fault.Some? ==> idx <= fault.value.record
    {
      var name := Join(dir, SpectrumFileName(idx));
      if axisLength != cols {
        raised := Some(ColumnMismatch(axisLength, cols));
        return;
      }
      if fault.Some? && fault.value.record == idx {
        raised := Some(WriteFailed(fault.value.detail));
        return;
      }
      SpectrumWritesSnoc(dir, idx, cols);
      writes := writes + [TableWrite(name, cols, 2, false)];
      idx := idx + 1;
    }
  }

  /** `extract_and_save_spectra_to_txt(wdf, dir)`, step by step. */
  method ExtractAndSaveSpectraToTxt(d: Decoded, dir: string, fault: Option<IoFault>) returns (r: ExportResult)
    ensures r == TxtExport(d, dir, fault)
  {
    match d {
      case OpenFailed(t, m) =>
        return Returned(0, Some(OpenError(t, m)), []);
      case Opened(axisLength, spectra, count, points) =>
        var shape := Normalise(spectra, count, points);
        if shape.Unreshapable? {
          return Raised(ReshapeFailed(shape.size, shape.rows, shape.cols), []);
        }
        var nSpectra := shape.rows;
        var writes, raised := SaveSpectraTxt(dir, nSpectra, shape.cols, axisLength, fault);
        if raised.Some? {
          return Raised(raised.value, writes);
        }
        return Returned(nSpectra, None, writes);
    }
  }

  // ----- Shape normalisation -----

  /** A declaration that fits the buffer is used as it is: `count` rows of
      `point_per_spectrum` columns. */
  lemma NormaliseConsistent(spectra: seq<nat>, count: nat, points: nat)
    requires count * points == Size(spectra)
    ensures Normalise(spectra, Some(count), Some(points)) == Matrix(count, points)
  {
  }

  lemma SizeOfPair(a: nat, b: nat)
    ensures Size([a, b]) == a * b
  {
    assert [a, b][1..] == [b];
    assert [b][1..] == [];
    assert Size([b]) == b * Size([]) == b;
  }

  /** When the declaration does not fit, a 2-d buffer keeps its own shape. */
  lemma NormaliseKeepsRank2(spectra: seq<nat>, count: Option<nat>, points: Option<nat>)
    requires !Consistent(spectra, count, points) && |spectra| == 2
    ensures Normalise(spectra, count, points) == Matrix(spectra[0], spectra[1])
  {
  }

  /** Otherwise the rows are `count` (1 when absent) and the columns
      `size // max(1, count)`; the final reshape succeeds exactly when that
      division is exact, so it fails when `count` does not divide the size,
      and when `count` is 0 and the buffer is not empty. */
  lemma NormaliseFallback(spectra: seq<nat>, count: Option<nat>, points: Option<nat>)
    requires !Consistent(spectra, count, points) && |spectra| != 2
    ensures var c := count.GetOr(1);
            var size := Size(spectra);
            && (Normalise(spectra, count, points).Matrix? <==>
                  (if c == 0 then size == 0 else size % c == 0))
            && (Normalise(spectra, count, points).Matrix? ==>
                  Normalise(spectra, count, points) == Matrix(c, size / Max1(c)))
            && (Normalise(spectra, count, points).Unreshapable? ==>
                  Normalise(spectra, count, points) == Unreshapable(size, c, size / Max1(c)))
  {
    var c := count.GetOr(1);
    var size := Size(spectra);
    if c > 0 {
      var n := size / c;
      assert size == c * n + size % c;
      if size % c == 0 { assert c * n == size; }
      if c * n == size { assert size % c == 0; }
    }
  }

  /** Whatever shape normalisation yields holds every element of the buffer. */
  lemma NormalisePreservesSize(spectra: seq<nat>, count: Option<nat>, points: Option<nat>)
    requires Normalise(spectra, count, points).Matrix?
    ensures Normalise(spectra, count, points).rows * Normalise(spectra, count, points).cols == Size(spectra)
  {
    if !Consistent(spectra, count, points) && |spectra| == 2 {
      SizeOfPair(spectra[0], spectra[1]);
      assert spectra == [spectra[0], spectra[1]];
    }
  }

  // ----- The text exporter -----

  /** The per-record files of one input are pairwise distinct. */
  lemma SpectrumPathsDistinct(dir: string, n: nat, points: nat, i: nat, j: nat)
    requires i < n && j < n && i != j
    ensures SpectrumWrites(dir, n, points)[i].path != SpectrumWrites(dir, n, points)[j].path
  {
    var w := SpectrumWrites(dir, n, points);
    if w[i].path == w[j].path {
      JoinInjective(dir, SpectrumFileName(i), SpectrumFileName(j));
      assert DecimalString(i) == SpectrumFileName(i)[..|SpectrumFileName(i)| - 4];
      assert DecimalString(j) == SpectrumFileName(j)[..|SpectrumFileName(j)| - 4];
      DecimalStringInjective(i, j);
    }
  }

  /** With a consistent declaration, an axis as long as a record and no write
      error, the text export writes exactly `count` files `0.txt` ..
      `{count-1}.txt`, each with one row per point, and returns `count`. */
  lemma TxtExportComplete(dir: string, axisLength: nat, spectra: seq<nat>, count: nat, points: nat, fault: Option<IoFault>)
    requires count * points == Size(spectra) && axisLength == points
    requires fault.None? || fault.value.record >= count
    ensures var r := TxtExport(Opened(axisLength, spectra, Some(count), Some(points)), dir, fault);
            && r.Returned? && r.written == count && r.err.None?
            && |r.writes| == count
            && (forall i :: 0 <= i < count ==>
                  r.writes[i].path == Join(dir, DecimalString(i) + ".txt") && r.writes[i].rows == points)
  {
  }

  /** A write error at record `k` leaves the files of records before `k` in
      place and raises. */
  lemma TxtExportPartial(dir: string, axisLength: nat, spectra: seq<nat>, count: nat, points: nat, k: nat, detail: string)
    requires count * points == Size(spectra) && axisLength == points
    requires k < count
    ensures TxtExport(Opened(axisLength, spectra, Some(count), Some(points)), dir, Some(IoFault(k, detail)))
            == Raised(WriteFailed(detail), SpectrumWrites(dir, k, points))
  {
  }

  /** What the text exporter returns: an error text only when the file could
      not be opened, and otherwise the number of records, one file for each. */
  lemma TxtExportReturns(d: Decoded, dir: string, fault: Option<IoFault>)
    requires TxtExport(d, dir, fault).Returned?
    ensures var r := TxtExport(d, dir, fault);
            && (r.err.Some? <==> d.OpenFailed?)
            && (r.err.Some? ==> r.written == 0 && r.writes == [] && r.err.value == OpenError(d.excType, d.message))
            && (r.err.None? ==>
                  (Normalise(d.spectra, d.count, d.pointsPerSpectrum).Matrix? &&
                   r.written == Normalise(d.spectra, d.count, d.pointsPerSpectrum).rows &&
                   |r.writes| == r.written))
  {
  }

  // ----- The CSV exporter -----

  /** The CSV export returns 1 whenever it succeeds, however many records
      there are, having written one table with a header and one row per record. */
  lemma CsvExportReturns(d: Decoded, path: string, fault: Option<IoFault>)
    requires CsvExport(d, path, fault).Returned?
    ensures var r := CsvExport(d, path, fault);
            && (r.err.None? <==> r.written == 1)
            && (r.err.None? ==>
                  (d.Opened? && Normalise(d.spectra, d.count, d.pointsPerSpectrum).Matrix? &&
                   r.writes == [TableWrite(path, Normalise(d.spectra, d.count, d.pointsPerSpectrum).rows,
                                           d.axisLength, true)]))
            && (r.err.Some? ==> r.written == 0 && r.writes == [])
  {
  }

  /** A record matrix narrower or wider than the axis is a CSV write failure. */
  lemma CsvExportShapeMismatch(d: Decoded, path: string, fault: Option<IoFault>)
    requires d.Opened? && Normalise(d.spectra, d.count, d.pointsPerSpectrum).Matrix?
    requires Normalise(d.spectra, d.count, d.pointsPerSpectrum).cols != d.axisLength
    ensures CsvExport(d, path, fault).Returned? && CsvExport(d, path, fault).written == 0
    ensures CsvExport(d, path, fault).err.Some?
    ensures CsvExport(d, path, fault).err.value[..20] == "Failed to write CSV:"
  {
  }
}
