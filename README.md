# WDF converter — a verified model of the batch core

`wdf_converter.py` batch-converts Renishaw WiRE spectroscopy files (`.wdf`)
found under an import directory into either one tab-separated text file
per spectrum (`txt` mode) or one CSV table per input file (`csv` mode),
optionally mirroring the import tree below the export directory and
optionally searching it recursively. This project models the logic of that
script that remains once the file system, the WDF decoder and the number
formatting are abstracted away, and proves what the script promises about it.

The model is split by the script's own structure:

- `paths.dfy` (`PosixPath`): the `posixpath` string operations the script
  relies on on Linux — `join`, `basename`, `dirname`, `splitext`,
  `PurePath.suffix` — and the splitting of a path at its separators.
- `purepaths.dfy` (`PurePaths`): how `pathlib` renders a path
  (`str(Path(d))`, with its anchor and without empty and `.` components),
  the children it builds below a rendered directory, and `os.path.relpath`,
  which resolves both arguments against the working directory and raises
  `ValueError` for an empty path.
- `decimal.dfy` (`Decimal`): the decimal rendering of a record index used in
  the per-spectrum file names `0.txt`, `1.txt`, ….
- `ordering.dfy` (`StringOrder`): Python's ordering of strings and `sorted()`
  as an insertion sort, proved sorted, a permutation and unique.
- `discovery.dfy` (`Discovery`): `get_filenames` over an abstract directory
  tree (entries with their directory components, name and kind: regular file, directory, or anything else).
- `mirror.dfy` (`Mirror`): `mirror_dir_path_tree` as a class holding the set of
  existing directories, with the directories whose creation raises as a parameter.
- `extraction.dfy` (`Extraction`): the shape normalisation of the spectra
  buffer and the two exporters, as the `(written, error)` pair they return,
  the exception they raise, and the tables they write.
- `failures.dfy` (`FailureGroups`): the insertion-ordered dict `failed` grown by
  `setdefault(err, []).append(basename)`, as a value and as the object the loop mutates.
- `batch.dfy` (`Batch`): `run_conversion` — the checks before the loop, the
  output location of each file, the classification of each outcome, the loop
  with its success counter and failure report, and what the call returns.

What the outside world answers is a parameter: a `World` gives the working
directory, whether the import directory exists, the error creating the export directory, the tree
below the import directory, and for each file the error creating its output
directory, what the decoder yields (an open exception, or the length of the
axis, the shape of the spectra buffer and the header fields `count` and
`point_per_spectrum`) and an I/O error while writing.

The code behaves as follows where a reader might expect otherwise:

- The last `reshape` of the fallback (lines 163-164 and 202-203) is not
  guarded: when `count` does not divide the buffer size, or `count` is 0 and
  the buffer is not empty, it raises, and the exception escapes the loop and
  ends the batch (`Unreshapable`, `Aborted`). It is not a best-effort step that never raises.
- In text mode `np.column_stack` raises when the axis length differs from the
  record length (line 173); this too escapes the loop. In CSV mode the same
  mismatch is caught and recorded as a failure (lines 205-209).
- Mirroring stops at the first directory whose creation raises (the
  exception leaves the `os.walk` loop at line 133 and is caught once around
  the whole call at lines 241-244); it does not continue with the remaining directories.
- `Path.rglob` also yields directories whose names match, and matches at the
  top level as well as below it.
- Importing from a directory that `pathlib` renders as `.` (`.`, `./`, `./.`)
  fails once the loop reaches a `.wdf` file lying directly in it: pathlib yields the bare
  name `a.wdf`, its `dirname` is empty, and `os.path.relpath("")` at line 272
  raises `ValueError` outside every per-file `try`, so the call ends and
  `main` exits with status 1 (lines 375-377), in either format
  (`Batch.DotRootAborts`, `Batch.TopLevelFileAborts`, Findings below).
- The `"CSV write failed"` default (line 318) can never be recorded: the CSV
  exporter always returns its own error text when it returns 0 (`Batch.CsvVerdicts`).

## Model

| member | source | states |
|---|---|---|
| PosixPath.LastIndex | wdf_converter.py:261 | the index found is an occurrence of the character with none after it; none found means the character does not occur |
| PosixPath.RStripSlash | wdf_converter.py:272 | the result is a prefix without a trailing separator, and only separators were removed |
| PosixPath.BasenameOfChild | wdf_converter.py:261 | the basename of `x/name` is `name` |
| PosixPath.DirnameOfChild | wdf_converter.py:272 | the directory of `x/name` is `x` |
| PosixPath.SplitExtOf | wdf_converter.py:262 | `splitext("s.t")` gives `("s", ".t")` for an extension without dots and a stem that is not all dots |
| PosixPath.SplitExtParts | wdf_converter.py:262 | `splitext` splits the name into two parts whose concatenation is the name, the second empty or a single extension |
| PosixPath.StemOfValidName | wdf_converter.py:262 | the stem of a valid file name is non-empty and has no separator |
| PosixPath.JoinEmptyComponent | wdf_converter.py:278 | joining an empty relative directory is the same as not joining it |
| PosixPath.JoinRelative | wdf_converter.py:280 | joining a relative component appends it to the directory, with one separator between them unless the directory is empty or already ends with one |
| PosixPath.JoinNested | wdf_converter.py:278 | `join(a, rel, b)` separates the three parts by `/`, adding none after an `a` that already ends with one |
| PosixPath.JoinInjective | wdf_converter.py:172 | different names joined into the same directory give different paths |
| PosixPath.SlashJoinLastChar | wdf_converter.py:116 | a path built from valid components does not end with a separator |
| PosixPath.SlashJoinNotDot | wdf_converter.py:273 | the relative path of a proper descendant is never `.` |
| PurePaths.Significant | wdf_converter.py:91 | the components pathlib keeps are neither empty nor `.` |
| PurePaths.Anchor | wdf_converter.py:116 | the anchor is empty, `/` or `//`, and non-empty exactly for an absolute path |
| PurePaths.PathStrParts | wdf_converter.py:91-116 | rendering a path keeps its significant components and whether it is absolute, and gives `/`, `//` or a path without trailing separator |
| PurePaths.RenderParts | wdf_converter.py:101-116 | the child `dirs/name` of a rendered directory has the directory's components followed by `dirs` and `name` |
| PurePaths.UnderChild | wdf_converter.py:261-272 | a found path has basename `name`; its directory is the rendered root with `dirs`, except that a file directly below `.` has the empty directory |
| PurePaths.TopChild | wdf_converter.py:104-106 | a top-level child of `.` is the bare name; below any other rendered root its directory is the root |
| PurePaths.CommonPrefix | wdf_converter.py:272 | the common prefix of two component lists is as long as possible |
| PurePaths.RelPath | wdf_converter.py:272 | `relpath` raises exactly for an empty path |
| PurePaths.RelDir | wdf_converter.py:272-274 | the relative directory is missing exactly when the file has no directory part |
| PurePaths.AbsPartsUnder | wdf_converter.py:272 | `abspath` of a child of a rendered directory is `abspath` of the directory followed by the child's components |
| PurePaths.RelPathBelow | wdf_converter.py:272 | `relpath` of a path below the start is its components below the start joined by `/`, and `.` for the start itself |
| PurePaths.FileDirectory | wdf_converter.py:261-274 | for a found file `dirs/name` below any spelling of the root, the basename is `name` and the relative directory is `dirs` joined by `/`, missing exactly for a file directly below `.` |
| PurePaths.WalkPathShape | wdf_converter.py:128 | a directory `os.walk` reaches is the top followed by its components, with one separator after the top |
| PurePaths.AbsPartsWalk | wdf_converter.py:128-129 | `abspath` of a directory `os.walk` reaches is `abspath` of the top followed by the components below it |
| PurePaths.TrailingSlashParts | wdf_converter.py:91 | a trailing separator on the root changes neither its rendering nor its `abspath` |
| PurePaths.RelDirTrailingSlash | wdf_converter.py:272 | a trailing separator on the start leaves the relative directory unchanged |
| Decimal.DecimalString | wdf_converter.py:172 | the rendering of an index is a non-empty digit string without a leading zero |
| Decimal.ParseDecimalString | wdf_converter.py:172 | reading the rendered digits back gives the index |
| Decimal.DecimalStringInjective | wdf_converter.py:172 | different indices give different names |
| StringOrder.LexLeTotal | wdf_converter.py:117 | Python string comparison is total |
| StringOrder.LexLeAntisymmetric | wdf_converter.py:117 | two strings each at most the other are equal |
| StringOrder.LexLeTransitive | wdf_converter.py:117 | string comparison is transitive |
| StringOrder.SortStrings | wdf_converter.py:117 | `sorted()` returns an ordered permutation of its input |
| StringOrder.SortedUnique | wdf_converter.py:117 | two ordered lists with the same elements are equal |
| StringOrder.SortIgnoresOrder | wdf_converter.py:115-117 | sorting two permutations of one list gives the same result |
| StringOrder.SortSorted | wdf_converter.py:117 | sorting an ordered list leaves it unchanged |
| Discovery.GetFilenames | wdf_converter.py:91-117 | the loop over the patterns returns the sorted candidates: ordered and a permutation of every match |
| Discovery.SelectMembership | wdf_converter.py:102-106 | a path is selected exactly when it is the path of an entry the criterion accepts |
| Discovery.GlobAllMembership | wdf_converter.py:98-102 | a path is found by the pattern loop exactly when some pattern matches an entry with that path |
| Discovery.RecursiveCandidates | wdf_converter.py:94-102 | recursive matches are entries of any depth, files or directories, whose name matches a normalised pattern |
| Discovery.SortedMembership | wdf_converter.py:116-117 | sorting neither adds nor drops a path |
| Discovery.GlobLiteral | wdf_converter.py:101 | a pattern without `*` matches only itself |
| Discovery.GlobSuffix | wdf_converter.py:99-101 | the pattern `*x` matches exactly the names ending in `x` |
| Discovery.GlobStar | wdf_converter.py:96 | the default pattern `*` matches every name |
| Discovery.NonRecursiveDiscovery | wdf_converter.py:104-113 | non-recursive discovery returns exactly the top-level regular files, filtered by suffix when patterns are given |
| Discovery.NonRecursiveStaysAtTop | wdf_converter.py:104-113 | every non-recursively found path is directly in the root, has a suffix in the pattern list, and has an empty relative directory |
| Discovery.AnyGlobIsSuffixMatch | wdf_converter.py:96-101 | after normalisation the patterns match exactly the names ending in one of the given suffixes, every name for no pattern |
| Discovery.RecursiveDiscovery | wdf_converter.py:94-102 | recursive discovery returns exactly the entries of every depth whose name ends in one of the suffixes |
| Discovery.SelectPermutation | wdf_converter.py:102-106 | selecting from two enumerations of the same entries gives the same paths up to order |
| Discovery.GlobAllPermutation | wdf_converter.py:98-102 | the pattern loop over two enumerations of the same entries finds the same paths up to order |
| Discovery.DiscoveryIgnoresListingOrder | wdf_converter.py:115-117 | the returned list does not depend on the order in which the file system lists the entries |
| Mirror.MirrorTargets | wdf_converter.py:128-132 | each visited directory is mapped to `join(export, rel)` |
| Mirror.DirectoryTree.MakeDirs | wdf_converter.py:133 | `makedirs` never raises for a directory that already exists; otherwise it raises for a failing target or adds the target and its ancestors |
| Mirror.DirectoryTree.MirrorDirTree | wdf_converter.py:128-133 | the loop leaves exactly the directories of the mirroring function, and reports whether it ran to the end |
| Mirror.MirrorOnlyAdds | wdf_converter.py:126 | mirroring never removes a directory |
| Mirror.MirrorCompleted | wdf_converter.py:128-133 | a complete run creates exactly the targets and their ancestors |
| Mirror.MirrorCompletedAvoidsFailures | wdf_converter.py:133 | a run that completes met a target whose creation fails only where that directory already existed when its turn came |
| Mirror.MirrorOverExisting | wdf_converter.py:133 | with every target already present, mirroring completes and changes nothing, whatever would make their creation fail |
| Mirror.MirrorRerun | wdf_converter.py:128-133 | running the loop again from any state between the start and the end of a run ends as that run did |
| Mirror.MirrorIdempotent | wdf_converter.py:126 | running the mirror again leaves the same directories and ends as the first run did, completed or stopped at the same target |
| Mirror.RootMapsToExport | wdf_converter.py:129-132 | the import root maps to the export root itself |
| Mirror.MirrorTargetsMembership | wdf_converter.py:128-132 | a target is created exactly when it is the mapping of a visited directory |
| Mirror.EntryRel | wdf_converter.py:129-131 | the relative path of a directory entry is its components joined by `/` |
| Mirror.WalkMembership | wdf_converter.py:128 | the walk visits the root and exactly the directory entries |
| Mirror.DirectoryTargets | wdf_converter.py:128-133 | the targets are `join(export, "")` and `join(export, d1/.../dk)` for each directory, and nothing else |
| Mirror.WalkDirsMembership | wdf_converter.py:128 | the walk below the root reaches exactly the directory entries, by joining their components to the root |
| Mirror.RootRel | wdf_converter.py:129-131 | the root is `.` relative to itself, read as the empty string |
| Mirror.WalkedTarget | wdf_converter.py:128-132 | every visited directory maps to the export root or to the export root joined with a directory entry's components |
| Extraction.SpectrumWrites | wdf_converter.py:170-174 | record `i` goes to `dir/i.txt` as a two-column table with one row per point |
| Extraction.SaveSpectraTxt | wdf_converter.py:170-174 | the loop writes every record, or stops at the first record whose stacking or writing raises, having written the ones before |
| Extraction.ExtractAndSaveSpectraToTxt | wdf_converter.py:148-176 | the text exporter step by step agrees with its definition |
| Extraction.NormaliseConsistent | wdf_converter.py:158 | a declaration that fits the buffer gives `count` rows of `point_per_spectrum` columns |
| Extraction.NormaliseKeepsRank2 | wdf_converter.py:159-161 | when the declaration does not fit, a 2-d buffer keeps its own shape |
| Extraction.NormaliseFallback | wdf_converter.py:162-164 | otherwise the rows are `count` (1 when absent) and the columns `size // max(1, count)`, and this succeeds exactly when the division is exact; it raises otherwise |
| Extraction.NormalisePreservesSize | wdf_converter.py:156-164 | every shape the normalisation yields holds exactly the elements of the buffer |
| Extraction.SpectrumPathsDistinct | wdf_converter.py:170-172 | the per-record files of one input are pairwise distinct |
| Extraction.TxtExportComplete | wdf_converter.py:166-176 | with a fitting declaration, a matching axis and no write error, exactly `count` files `0.txt` … are written, each with one row per point, and `count` is returned |
| Extraction.TxtExportPartial | wdf_converter.py:170-174 | a write error at record `k` raises after the files of the earlier records |
| Extraction.TxtExportReturns | wdf_converter.py:148-176 | the text exporter returns an error exactly for a file it cannot open, and otherwise the row count with one file per row |
| Extraction.CsvExportReturns | wdf_converter.py:188-211 | the CSV exporter returns 1 exactly on success, having written one table with a header and one row per record; 0 otherwise, with nothing written |
| Extraction.CsvExportShapeMismatch | wdf_converter.py:205-209 | a record width different from the axis length is recorded as a CSV write failure |
| FailureGroups.SetDefaultAppend | wdf_converter.py:285 | `setdefault(err, []).append(b)` keeps a well-formed dict, appends `b` to the list of `err`, leaves the other lists alone, and adds `err` as the last key when it is new |
| FailureGroups.TotalAfterAppend | wdf_converter.py:329 | each `setdefault(err, []).append(b)` adds exactly one basename to `sum(len(v))` |
| FailureGroups.FailureReport.constructor | wdf_converter.py:252 | the report starts empty |
| FailureGroups.FailureReport.Add | wdf_converter.py:285 | the mutation of the dict object is the append on its value |
| Batch.FormatIgnoresCase | wdf_converter.py:276 | for every string, the text branch is taken exactly for `txt` in any case and the CSV branch exactly for `csv` in any case |
| Batch.FormatOfLowered | wdf_converter.py:276 | lower-casing the format first changes no branch |
| Batch.NoDirectoryCrashes | wdf_converter.py:272 | a file without a directory part raises the `relpath` error whatever its format and contents; any other file gets a relative directory |
| Batch.DirErrorSkipsExport | wdf_converter.py:281-311 | a directory-creation error is a failure recorded without consulting the exporter |
| Batch.TxtVerdicts | wdf_converter.py:290-296 | a text-mode file is converted only with a non-zero row count and one file per row; `"No spectra written"` is recorded exactly for an empty record matrix; a file that cannot be opened is recorded under its open error |
| Batch.CsvVerdicts | wdf_converter.py:313-319 | a CSV success writes one table; the default `"CSV write failed"` is never recorded |
| Batch.Items | wdf_converter.py:260-262 | each processed file is paired with its basename and its verdict |
| Batch.Aggregate | wdf_converter.py:251-321 | the report of a loop that runs to the end is well formed |
| Batch.ItemsBySnoc | wdf_converter.py:260 | the verdicts of one more file extend the verdicts so far by that file's |
| Batch.ConvertOne | wdf_converter.py:261-321 | the loop body for one file agrees with the verdict definition |
| Batch.AggregateStopped | wdf_converter.py:260-321 | once an exception escapes, the files after it change nothing |
| Batch.AggregateRunsIff | wdf_converter.py:260-321 | the loop runs to the end exactly when no file raises an exception that escapes it |
| Batch.FirstCrashEndsBatch | wdf_converter.py:260-321 | an escaping exception ends the batch with the fault of the first file that raised |
| Batch.AggregateCounts | wdf_converter.py:290-329 | the success count is the number of converted files, the total in the report the number of failed ones, and together they are the number of files |
| Batch.AggregateGroups | wdf_converter.py:285-319 | the keys of the report are the error texts in order of first occurrence, and each holds the basenames that failed with it, in processing order |
| Batch.FailedWithMembership | wdf_converter.py:285 | a basename is in the list of an error text exactly when that file failed with that text |
| Batch.ErrorOrderMembership | wdf_converter.py:285 | an error text is a key exactly when some file failed with it |
| Batch.FailedNamesAreFailedFiles | wdf_converter.py:339 | the returned names are exactly the basenames of the files that failed |
| Batch.ProcessFiles | wdf_converter.py:251-321 | the loop with its counter and dict agrees with the aggregation of the verdicts |
| Batch.FileLocation | wdf_converter.py:261-274 | a found file `dirs/name` has basename `name` and relative directory `dirs`, none for a file directly below a `.` root |
| Batch.FixedFileLocation | wdf_converter.py:272-274 | with `relpath` taken of `dirname(wdf) or "."`, every found file has relative directory `dirs`, whatever the spelling of the root |
| Batch.TxtOutputLocation | wdf_converter.py:277-280 | for any export root, a text-mode file `d1/.../dk/name` is written to `export/d1/.../dk/stem` when mirroring and `export/stem` otherwise, with no second separator after an `export` ending in one |
| Batch.CsvOutputLocation | wdf_converter.py:300-303 | for any export root, a CSV-mode file is written to `export/d1/.../dk/stem.csv` when mirroring and `export/stem.csv` otherwise, with no second separator after an `export` ending in one |
| Batch.MirrorIrrelevantAtTop | wdf_converter.py:272-280 | mirroring does not change the target of a file directly under the import root |
| Batch.MirroredNestedExample | wdf_converter.py:272-278 | `root/sub/a.wdf` mirrored into `out` is written to `out/sub/a` |
| Batch.NestedExamplePath | wdf_converter.py:261-274 | `root/sub/a.wdf` has basename `a.wdf` and relative directory `sub` |
| Batch.TrailingSeparatorIgnored | wdf_converter.py:91-280 | a trailing separator on the import root changes neither the files found nor the verdict of any file |
| Batch.DotRootExample | wdf_converter.py:104-106 | below `.` the file `a.wdf` is found as `a.wdf`, and `relpath` raises for its directory |
| Batch.OneGoodOneBadExample | wdf_converter.py:290-296 | one converted and one failed file give one success and one group holding the failed basename |
| Batch.CompletedReport | wdf_converter.py:285-339 | a loop in which no file raises ends with the number of converted files, a report of the failed files by error in order of first occurrence, and exactly their names |
| Batch.RunCompleted | wdf_converter.py:231-339 | the call returns exactly when the checks pass, the format is known and no file raises; it then returns the number of converted files and the names of exactly the failed files; the model also exposes the report the call prints, which accounts for every other file in order of first failure |
| Batch.RunAborted | wdf_converter.py:260-321 | an escaping exception aborts the call with the fault of the first file that raised |
| Batch.DotRootAborts | wdf_converter.py:260-274 | importing non-recursively from a root rendered as `.` with at least one file found aborts with the `relpath` error |
| Batch.TopLevelFileAborts | wdf_converter.py:260-274 | a `.wdf` file directly in a root rendered as `.` makes the call abort in either known format, recursive or not |
| Batch.RunConversion | wdf_converter.py:231-339 | the call step by step agrees with its definition, and a returned success count plus the report total is the number of files |

## Left out

- The WDF decoder (`WDFReader`): an external binary-format library; what it yields for each file is an input of the model.
- The real file system (`os.path.isdir`, `os.walk`, `Path.rglob`, `iterdir`, `is_file`, `os.makedirs`): modelled by an abstract tree of entries and by the errors each call would raise.
- The numbers written (`np.savetxt` with `%.6f`, `DataFrame.to_csv`): floating-point formatting; only the path, rows, columns and header of each table are modelled.
- The progress bar, logging, the summary `print`s and the verbose listing (lines 256-270, 326-336): presentation only.
- `main`, argument parsing and the exit-code mapping (lines 342-385): command-line plumbing.
- The unknown-format branch (lines 322-324): it calls `append` on a dict and crashes on the first file; the model returns `UnknownFormat` (after the first file's `relpath` at line 272, which runs before the format test and can raise first), with no file converted.
- The working directory (`os.getcwd`, used by `relpath`): a parameter of the model.
- Symbolic links: not a kind of their own; a link to a regular file is a file, and a link to a directory is neither a file nor a directory, since neither `os.walk` nor `rglob` descends into it and `os.walk` visits no directory for it.
- The mirror call inside `run_conversion` (lines 240-244): its failure is only a warning, so it cannot change the result; it is modelled on its own as `Mirror.DirectoryTree.MirrorDirTree`.
- `Batch.RunCompleted`: the returned list of failed basenames is modelled as the set it is built from; its order is unspecified by the code.
- `Discovery.GlobMatch`: the glob metacharacters `?` and `[...]`, and case-insensitive matching, are not modelled; the script only uses `*`.
- `Batch.Lower`: lower-cases ASCII letters only.
- `Mirror.DirectoryTree.MakeDirs`: a `makedirs` that raises after creating some of the ancestors is modelled as creating none.
- `Extraction.CsvExport`: in CSV mode an I/O error is taken to fail the whole write, wherever it happens; the text of pandas' own errors other than the shape mismatch is an input.

## Findings

| source | as written | input that shows it | evidently intended | confidence | as-written member | corrected member |
|---|---|---|---|---|---|---|
| wdf_converter.py:272 | `os.path.relpath(os.path.dirname(wdf), start=import_dir)` raises `ValueError` when `wdf` has no directory part, outside any `try` | import directory `.` holding `a.wdf`: pathlib yields `a.wdf`, its `dirname` is `""` | a file directly in the import root has the empty relative directory and is converted like any other | high (not executed) | Batch.DotRootAborts | Batch.FixedFileLocation |
The model of `run_conversion` keeps the code as written; `Batch.FixedRelDir`
is the relative directory as it is evidently meant.
