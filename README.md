# Metagenomic-DeepFRI structure ingestion core, modelled in Dafny

This project models three pieces of sequential logic from Metagenomic-DeepFRI and proves properties of them.
Nothing in it reads files, starts processes or calls external tools: those are parameters or recorded effects.

- **`parse_mmcif`** (`mmcif_parser.dfy`, `mmcif_properties.dfy`) reads the `_atom_site` loop of a PDBx/mmCIF file.
  - The file is the sequence of lines `readline` returns. An element equal to `""` (what `readline` returns at end of file), or the end of the sequence, is end of file; a blank line `"\n"` is an ordinary line.
  - Pass 1 scans header lines up to the first `ATOM` record. It numbers the `_atom_site.` labels to find the field columns and reads an optional `_refine_hist.pdbx_number_atoms_protein` count.
  - Pass 2 reads `ATOM` records up to the first `#` line. With a positive count it writes into pre-sized arrays (`array` in the model) and trims them. Otherwise it appends to lists.
  - The modelled failures are `ParseError` values: a column variable never bound, an index past a split line or past a buffer, a bad integer, and the failing `append`. The float32 conversion of coordinates and `np.empty`'s allocation failures are not modelled (see Left out).
  - Coordinates are kept as the file's tokens.
- **`filter_mmseqs_results`** (`mmseqs.dfy`) works over MMseqs2 tabular hits. A `Hit` has the twelve columns of `MMSEQS_COLUMN_NAMES` in file order.
  - It applies the threshold masks.
  - It sorts in place with an insertion sort over an `array`.
  - It keeps the last `k` rows of every unique query (`select_top_k`) and concatenates them.
- **`build_database`** (`build_database.dfy`), lines 110-173, covers the bookkeeping of a build:
  - the duplicate-skipping loop;
  - worker statuses paired with files;
  - the `np.unique` tally;
  - the failures logged and the freshly added ids;
  - the abort when nothing is new;
  - the `db_params.json` record, written before the target database is created.

  Discovery is an ordered list of `(id, path)` entries, in dict insertion order. Existing outputs are a set of ids. The worker is a function from path to status string. `shutdown` ends the run with its message.

Shared helpers:
- `text.dfy`: `str.split()`, `startswith`, `int()`, numpy `<U10` truncation, string order.
- `ordering.dfy`: `sorted`, `np.unique`, and `np.unique(..., return_counts=True)`.
- `wrappers.dfy`: `Option` and `Result`.

Where code and design disagree, the model follows the code:
- **Thresholds.** The design describes ANDed thresholds. As written, each active threshold re-filters the full table, so only the last one applies, with priority e-value, then bit score, then identity. `Mmseqs.FilterSpec` models the code and `Mmseqs.FilterIntended` the design (see Findings).
- **E-value ties.** The design says ties in identity are broken by the lower e-value. The code sorts ascending by `(identity, e_value)` and keeps the last `k` rows, so among equal identities the larger e-values survive. `Mmseqs.RanksAtMost` states what the code keeps.
- **Cross-query order.** The design leaves the order across queries open. The code produces ascending query order, because `np.unique` is sorted and `pool.map` keeps order, and the model proves that order.
- **Sort ties.** `sort(order=[...])` on a structured array breaks ties on the remaining fields in dtype order, so the model's sort order is total on rows. The sort kind `"quciksort"` is read by numpy from its first letter.

## Model

| member | source | states |
|---|---|---|
| MmcifParser.HeaderEndFrom | mmcif_parser.py:11-14 | the header scan stops at a line starting with `ATOM` or at end of file, and not before `i` |
| MmcifParser.HeaderEndIsFirst | mmcif_parser.py:12-14 | no line before the header end starts with `ATOM`, so the scan stops at the first one, and that line is left for pass 2 |
| MmcifParser.RecordsEndFrom | mmcif_parser.py:43-45 | pass 2 stops at a line starting with `#` or at end of file |
| MmcifParser.RecordsEndIsFirst | mmcif_parser.py:43-45 | no record line before the stop starts with `#` |
| MmcifParser.CountFromLine | mmcif_parser.py:16-17 | the count line succeeds exactly when its last token is an ASCII-digit integer literal of a non-negative value (a negative size makes `np.empty` raise); otherwise ValueError |
| MmcifParser.DeclaredCount | mmcif_parser.py:5-17 | `n_atoms` is -1 or a count read from a line; the only failure is ValueError |
| MmcifParser.Unzip | mmcif_parser.py:49-73 | sequence, positions and groups have one entry per atom |
| MmcifParser.UnzipAligned | mmcif_parser.py:49-73 | entry `t` of each output is the residue, position and group of atom `t` |
| MmcifParser.UnzipSnoc | mmcif_parser.py:49-54 | storing one more atom extends each output by that atom's field |
| MmcifParser.DeclaredCountErrSticky | mmcif_parser.py:17 | once `int()` raises, pass 1 is over with that error |
| MmcifParser.PassErrSticky | mmcif_parser.py:47-54 | once a record raises, pass 2 is over with that error |
| MmcifParser.NoCountPassErrSticky | mmcif_parser.py:65-69 | once a record raises in the no-count branch, the branch is over with that error |
| MmcifParser.ScanLine | mmcif_parser.py:13-39 | one header line updates `n_atoms`, the label counter and the column variables exactly as the pass-1 definitions of one more line do |
| MmcifParser.ScanHeader | mmcif_parser.py:10-39 | the pass-1 loop returns the header end, declared count and columns `ScanResult` defines, or its ValueError |
| MmcifParser.ReadRecord | mmcif_parser.py:46-54 | one record writes buffer slot `index` with the extracted atom and advances `index` exactly when the line qualifies; a slot past the buffer is IndexError |
| MmcifParser.DeclaredLine | mmcif_parser.py:43-55 | one loop step of the declared-count branch keeps the buffers equal to the atoms read so far |
| MmcifParser.ReadDeclared | mmcif_parser.py:41-58 | the declared-count branch, `resize` included, returns the atoms or error `DeclaredResult` defines |
| MmcifParser.ReadNoCountRecord | mmcif_parser.py:64-69 | one no-count record raises exactly when `NoCountStep` raises, with the same error |
| MmcifParser.ReadNoCount | mmcif_parser.py:60-71 | the no-count branch returns what `NoCountResult` defines |
| MmcifParser.ParseMmcif | mmcif_parser.py:4-73 | the whole imperative parser equals `Parse` on every input |
| MmcifProperties.ColumnIsLastLabel | mmcif_parser.py:22-37 | a column variable is unbound exactly when no header line has its label; otherwise it is the 0-based position of the last such line among the `_atom_site.` lines |
| MmcifProperties.LabelsNumberedInOrder | mmcif_parser.py:22-23 | `_atom_site.` lines are numbered in file order, so different label lines give different columns |
| MmcifProperties.DeclaredCountFails | mmcif_parser.py:16-17 | pass 1 succeeds exactly when every count line holds a non-negative integer |
| MmcifProperties.DeclaredCountAbsent | mmcif_parser.py:5-16 | the count stays -1 exactly when there is no count line |
| MmcifProperties.DeclaredCountIsLast | mmcif_parser.py:16-17 | a declared count is the value of the last count line of the header |
| MmcifProperties.PassThroughLine | mmcif_parser.py:43-55 | one more record line appends its atom when it is selected, leaves the result alone when it is not, and raises when it cannot be read |
| MmcifProperties.PassIsFilter | mmcif_parser.py:42-58 | pass 2 succeeds exactly when every record line is readable and the selected lines fit the capacity; its atoms are those of the selected lines in file order; with readable lines the only error is the buffer overflow |
| MmcifProperties.SelectedAtomShape | mmcif_parser.py:48-50 | a kept atom has a three-letter residue, and its group is cut to the buffer width |
| MmcifProperties.DeclaredOutputShape | mmcif_parser.py:48-54 | the declared-count branch keeps at most `n` atoms, each with a three-letter residue and a group of at most 10 characters, and each read from an `ATOM` record line whose type symbol is not `H` |
| MmcifProperties.SelectedLinesAreSelected | mmcif_parser.py:46-48 | every line the filter selects is an `ATOM` line that passes the residue and symbol test |
| MmcifProperties.NoCountPassIsEmpty | mmcif_parser.py:61-70 | the no-count branch succeeds exactly when no `ATOM` record qualifies as a hydrogen and none makes the test raise; then all outputs are empty |
| MmcifProperties.NoCountFailsOnFirstHydrogen | mmcif_parser.py:66-69 | the first readable qualifying hydrogen raises AttributeError (numpy buffers of count 0) or TypeError (`append` with three arguments) |
| MmcifProperties.ParseIntendedKeepsHydrogens | mmcif_parser.py:60-71 | without a count line, the corrected parser fails exactly on an unreadable record and otherwise returns the qualifying hydrogen atoms in file order |
| MmcifProperties.NoCountAgreesWithoutHydrogens | mmcif_parser.py:60-71 | where no line qualifies, the branch as written and the corrected branch agree |
| MmcifProperties.ParseIntendedAgrees | mmcif_parser.py:42-71 | the as-written and corrected parsers differ only when there is no count line |
| MmcifProperties.ParseOutput | mmcif_parser.py:4-73 | a successful parse with a positive count returns the kept atoms of the record lines in file order as three aligned outputs, with every record line readable and at most `n` atoms; without a positive count it returns three empty outputs |
| Text.SplitTokens | mmcif_parser.py:47 | `split()` yields only non-empty tokens without whitespace |
| Text.Truncate | mmcif_parser.py:20 | a `<U10` cell keeps the first 10 characters: a prefix, of length min(10, length) |
| Text.ParseInt | mmcif_parser.py:17 | `int()` succeeds on an optionally signed string of ASCII digits, and the sign decides the sign of the value; every other token is rejected |
| Text.ParseIntOfString | mmcif_parser.py:17 | `int(str(n)) == n` |
| Mmseqs.SortFieldsInjective | mDeepFRI/mmseqs.py:13-17 | rows that agree on every compared field are the same row |
| Mmseqs.HitBelowIrreflexive | mDeepFRI/mmseqs.py:160 | no row sorts before itself |
| Mmseqs.HitBelowTransitive | mDeepFRI/mmseqs.py:160 | the sort order is transitive |
| Mmseqs.HitBelowTotal | mDeepFRI/mmseqs.py:160 | any two different rows are ordered one way |
| Mmseqs.HitBelowAsymmetric | mDeepFRI/mmseqs.py:160 | two rows are never ordered both ways |
| Mmseqs.HitBelowByQuery | mDeepFRI/mmseqs.py:160 | rows sort by query first |
| Mmseqs.HitBelowWithinQuery | mDeepFRI/mmseqs.py:160 | within one query, rows sort by identity and then by e-value |
| Mmseqs.InsertHit | mDeepFRI/mmseqs.py:160 | insertion adds exactly the one row |
| Mmseqs.SortHits | mDeepFRI/mmseqs.py:160 | the sorted table is a permutation of the input |
| Mmseqs.InsertHitSorted | mDeepFRI/mmseqs.py:160 | insertion keeps a table ascending |
| Mmseqs.SortHitsSorted | mDeepFRI/mmseqs.py:160 | the sorted table is ascending |
| Mmseqs.SortedUnique | mDeepFRI/mmseqs.py:160 | two ascending permutations of the same rows are equal |
| Mmseqs.SortHitsUnique | mDeepFRI/mmseqs.py:160 | every ascending permutation of the input is the sorted table, whatever algorithm produced it |
| Mmseqs.SwapDown | mDeepFRI/mmseqs.py:160 | one swap moves the sifted row down one place, keeps the rows as a multiset and does not touch the unsorted tail |
| Mmseqs.SiftDown | mDeepFRI/mmseqs.py:160 | extends the ascending prefix by one row, permuting only that prefix |
| Mmseqs.SortInPlace | mDeepFRI/mmseqs.py:160 | `filtered.sort(...)` leaves the array equal to the sorted table of its old contents |
| Mmseqs.Where | mDeepFRI/mmseqs.py:142-157 | a mask keeps no more rows than it is given |
| Mmseqs.WhereCount | mDeepFRI/mmseqs.py:142-157 | a mask keeps each admitted row as often as it occurs and drops every other row |
| Mmseqs.WhereMembers | mDeepFRI/mmseqs.py:142-157 | a row is in the masked table exactly when it is in the table and the mask admits it |
| Mmseqs.WherePermutation | mDeepFRI/mmseqs.py:142 | masks over two permutations of the same rows keep the same rows as a multiset, and so the same number |
| Mmseqs.WhereIdempotent | mDeepFRI/mmseqs.py:153-157 | applying a mask twice is applying it once |
| Mmseqs.WhereConcat | mDeepFRI/mmseqs.py:163-165 | a mask distributes over concatenation |
| Mmseqs.WhereSorted | mDeepFRI/mmseqs.py:142-160 | a mask keeps a table ascending |
| Mmseqs.Effective | mDeepFRI/mmseqs.py:152-157 | no threshold is in force exactly when all three are falsy; otherwise the last truthy assignment, e-value over bit score over identity, is in force |
| Mmseqs.ApplyThresholds | mDeepFRI/mmseqs.py:152-157 | the three `if` statements leave `filtered` unbound exactly when no threshold is truthy, and otherwise equal to the full table masked by the threshold in force |
| Mmseqs.ThresholdIdempotent | mDeepFRI/mmseqs.py:153-157 | re-applying one threshold changes nothing, and the masked rows are exactly the input rows passing it |
| Mmseqs.SliceFrom | mDeepFRI/mmseqs.py:142 | `s[start:]` is a suffix of the length Python's clamping gives, counting a negative start from the end |
| Mmseqs.SelectTopK | mDeepFRI/mmseqs.py:141-142 | `select_top_k` is a suffix of the query's rows: all of them for `k = 0`, min(k, count) for `k > 0`, all but the first `-k` for `k < 0` |
| Mmseqs.Queries | mDeepFRI/mmseqs.py:163 | the query column has one entry per row |
| Mmseqs.Chunks | mDeepFRI/mmseqs.py:161-163 | the map produces one chunk per unique query |
| Mmseqs.FilterMmseqsResults | mDeepFRI/mmseqs.py:141-165 | the imperative filter (masks, in-place sort, map, concatenation) returns or raises what `FilterSpec` does |
| Mmseqs.QueriesMembers | mDeepFRI/mmseqs.py:163 | a query is in the query column exactly when some row has it |
| Mmseqs.SelectTopKMembers | mDeepFRI/mmseqs.py:142 | every row `select_top_k` returns comes from the table and has the asked query |
| Mmseqs.ConcatChunksQueries | mDeepFRI/mmseqs.py:163-165 | every concatenated row belongs to one of the mapped queries |
| Mmseqs.ConcatChunksWhere | mDeepFRI/mmseqs.py:163-165 | picking one query out of the concatenation gives that query's chunk, or nothing when it was not mapped |
| Mmseqs.ConcatChunksSorted | mDeepFRI/mmseqs.py:160-165 | chunks of an ascending table in ascending query order concatenate to an ascending table |
| Mmseqs.TopKPerQueryFails | mDeepFRI/mmseqs.py:163-165 | selection raises exactly when no row passed the thresholds, and the error is the empty concatenation |
| Mmseqs.TopKPerQueryGroups | mDeepFRI/mmseqs.py:141-165 | the result restricted to any query is `select_top_k` of that query over the sorted rows |
| Mmseqs.TopKPerQuerySorted | mDeepFRI/mmseqs.py:160-165 | the result is grouped by ascending query, and each group is ascending in (identity, e-value) |
| Mmseqs.TopKPerQueryCountAt | mDeepFRI/mmseqs.py:142-165 | no row occurs in the result more often than in the filtered rows |
| Mmseqs.TopKPerQueryFromInput | mDeepFRI/mmseqs.py:142-165 | the result is a sub-multiset of the filtered rows |
| Mmseqs.TopKPerQueryCount | mDeepFRI/mmseqs.py:141-165 | with `k >= 1` each query keeps min(k, its row count) rows, and with `k = 0` all of them |
| Mmseqs.TopKPerQueryKeepsQueries | mDeepFRI/mmseqs.py:160-165 | with `k >= 0` every query with a filtered row appears in the result |
| Mmseqs.SortedRanks | mDeepFRI/mmseqs.py:160 | in an ascending table an earlier row of a query does not outrank a later one of the same query |
| Mmseqs.SelectTopKKeepsBest | mDeepFRI/mmseqs.py:141-160 | over ascending rows, no row `select_top_k` drops outranks a row it keeps |
| Mmseqs.GroupKeepsBest | mDeepFRI/mmseqs.py:141-165 | a dropped row of a query does not outrank a kept row of that query |
| Mmseqs.TopKPerQueryKeepsBest | mDeepFRI/mmseqs.py:141-165 | no filtered row the result drops outranks a kept row of its query: it has lower identity, or equal identity and no smaller e-value |
| Mmseqs.FilterKeepsPassing | mDeepFRI/mmseqs.py:152-165 | a successful call had a threshold in force, and returns input rows, no more often than given, that each pass it |
| Mmseqs.ThresholdsOverride | mDeepFRI/mmseqs.py:152-157 | with several thresholds given, the result is that of the last assigned one alone |
| Mmseqs.SingleRowSelection | mDeepFRI/mmseqs.py:160-165 | a single row with `k > 0` is returned unchanged |
| Mmseqs.OverrideKeepsLowIdentity | mDeepFRI/mmseqs.py:152-157 | as written, `max_evalue=1.0` with `min_identity=0.5` returns a hit of identity 0.2 |
| Mmseqs.NoThresholdFails | mDeepFRI/mmseqs.py:152-160 | as written, the defaults or all-zero thresholds leave `filtered` unbound |
| Mmseqs.IntendedMeetsEveryThreshold | mDeepFRI/mmseqs.py:152-157 | the corrected filter returns input rows passing every active threshold, and with `k >= 0` keeps every query that has such a row |
| Mmseqs.IntendedWithoutThresholds | mDeepFRI/mmseqs.py:152-160 | the corrected filter with no threshold selects over all rows |
| Mmseqs.IntendedAgreesOnOneThreshold | mDeepFRI/mmseqs.py:152-157 | with exactly one active threshold the corrected filter and the code agree |
| Mmseqs.IntendedDropsLowIdentity | mDeepFRI/mmseqs.py:152-157 | the corrected filter drops the low-identity hit, leaving nothing to concatenate |
| Ordering.SortStrings | scripts/build_database.py:163-166 | `sorted` returns an ascending permutation |
| Ordering.Unique | mDeepFRI/mmseqs.py:163 | `np.unique` returns the distinct values in strictly ascending order |
| Ordering.TallyProperties | scripts/build_database.py:139 | `np.unique(..., return_counts=True)` gives the distinct values ascending, each with its positive multiplicity, and the counts sum to the input length |
| BuildDatabase.FirstExisting | scripts/build_database.py:122-123 | the index found is of an entry whose output exists |
| BuildDatabase.FirstExistingIsFirst | scripts/build_database.py:122-123 | no entry whose output exists comes before the one found, and none is found only when no such entry exists |
| BuildDatabase.SkipDuplicates | scripts/build_database.py:119-127 | the dedup loop as written returns what `SkipAsWritten` describes |
| BuildDatabase.SkipAsWrittenCompletes | scripts/build_database.py:119-127 | the loop as written completes exactly when no id is already built, changing nothing; otherwise it has deleted the first built entry, counted 1 and raises on its next step |
| BuildDatabase.BuildRaisesOnDuplicate | scripts/build_database.py:119-127 | without `overwrite`, the run raises exactly when some discovered id is already built, before any processing or write |
| BuildDatabase.OverwriteIgnoresExisting | scripts/build_database.py:119 | with `overwrite` the existing outputs play no part |
| BuildDatabase.AbsentMembers | scripts/build_database.py:119-127 | the intended dedup keeps exactly the entries not yet built, and the number of drops is the number of built entries |
| BuildDatabase.AbsentKeepsDistinct | scripts/build_database.py:122-125 | dropping entries keeps the dictionary's keys distinct |
| BuildDatabase.DedupIntendedRemoves | scripts/build_database.py:119-127 | the intended dedup removes exactly the built ids, counts them and raises nothing |
| BuildDatabase.IntendedAgrees | scripts/build_database.py:119-127 | wherever the dedup loop as written completes, the run as written equals the intended run |
| BuildDatabase.DedupCounterexample | scripts/build_database.py:119-127 | with ids `a`, `b` and `a` built, the run as written raises on `a`, and the intended run skips 1 and processes `b` |
| BuildDatabase.StatusesJudgeOwnFile | scripts/build_database.py:132-155 | every file is judged by its own worker status: `(p, st)` is logged as a failure exactly when some processed entry has path `p`, `st` is that path's status and it starts with `FAIL`; an id is added exactly when its own path's status starts with `SUCCESS` |
| BuildDatabase.TallyCountsProcessed | scripts/build_database.py:139 | the per-status counts are over the distinct statuses, ascending, and sum to the number of processed files |
| BuildDatabase.CollectFailed | scripts/build_database.py:146-149 | the failure loop produces the (path, status) list `Failed` defines |
| BuildDatabase.FailedExactly | scripts/build_database.py:146-149 | a (path, status) pair is logged as a failure exactly when the file's status starts with `FAIL` |
| BuildDatabase.FailedInOrder | scripts/build_database.py:146-149 | the failures logged for earlier entries are a prefix of those for later ones, so they keep discovery order |
| BuildDatabase.CollectAdded | scripts/build_database.py:151-155 | the append loop produces the id list `Fresh` defines |
| BuildDatabase.FreshExactly | scripts/build_database.py:151-155 | an id is freshly added exactly when its file's status starts with `SUCCESS` |
| BuildDatabase.FreshInOrder | scripts/build_database.py:151-155 | the fresh ids of earlier entries are a prefix of those of later ones, so the list keeps discovery order |
| BuildDatabase.FreshAndFailedDisjoint | scripts/build_database.py:146-155 | no file is both added and failed: the two lists together are no longer than the files processed |
| BuildDatabase.FreshDistinct | scripts/build_database.py:151-155 | with distinct dictionary keys each fresh id appears once |
| BuildDatabase.BuildManifest | scripts/build_database.py:162-167 | the successive assignments build the manifest `ManifestOf` describes |
| BuildDatabase.ManifestContents | scripts/build_database.py:162-167 | the manifest's keys are `sequences`, `MAX_PROTEIN_LENGTH`, `input_structures_path` in that order; their values are the fresh ids sorted, the length parameter, and the input paths sorted |
| BuildDatabase.ManifestSequencesStrict | scripts/build_database.py:152-163 | with distinct keys the manifest's `sequences` are strictly ascending |
| BuildDatabase.FinishRun | scripts/build_database.py:133-173 | processing, tally, logging, the abort rule and the manifest return what `Finish` describes |
| BuildDatabase.FinishAbortsOnNothingNew | scripts/build_database.py:157-173 | after dedup the run shuts down, writing nothing, exactly when no status starts with `SUCCESS`; otherwise it writes the manifest and then creates the target database |
| BuildDatabase.Build | scripts/build_database.py:110-173 | the imperative run returns the outcome `BuildSpec` describes |
| BuildDatabase.NoFilesShutsDown | scripts/build_database.py:112-114 | the run stops with "No structure files found" exactly when discovery is empty, before any processing or write |
| BuildDatabase.BuildWritesOnlyOnSuccess | scripts/build_database.py:157-173 | the run writes something exactly when it completes, and then writes the manifest of its fresh ids before creating the target database |
| BuildDatabase.BuildProcessesNew | scripts/build_database.py:119-136 | the entries sent to the workers are the discovered ones, and without `overwrite` none of them is already built |

## Left out

- File reading, `readline` buffering and the float32 conversion of coordinates (mmcif_parser.py:19,51-53,71) are left out. Coordinates stay tokens, because float numerics are out of scope. So a non-numeric coordinate token such as `?` or `.` raises ValueError in the source, while `Parse` returns `Ok` holding the token.
- `np.recfromcsv` loading and its type inference (mDeepFRI/mmseqs.py:144-147) are a foreign library call. Rows are given as `Hit` values, with real numbers for float columns (no NaN, no rounding) and `int` for integer columns. A results file with exactly one row loads as a 0-d array, because `genfromtxt` squeezes its result, so `output.shape[0]` at mDeepFRI/mmseqs.py:149 raises IndexError before any filtering. The model does not capture that, and `Mmseqs.SingleRowSelection` describes the selection over one row once it is loaded.
- `ThreadPool` and `multiprocessing.Pool` are concurrency. Both are modelled as ordered sequential maps.
- Logging and argparse are left out. That covers the `logger.*` calls of scripts/build_database.py, including the reversed status printout, and the `logging.info` calls at mDeepFRI/mmseqs.py:149,167.
- Output directory creation (scripts/build_database.py:97-101) and the JSON encoding of `db_params.json` are I/O. The manifest is a key/value list in insertion order.
- `search_structure_files`, `process_structure_file`, `libAtomDistanceIO.initialize`, `create_target_database` and `shutdown` are not part of this model: their code is not shown.
  - Discovery is an input list.
  - The worker is a total function from path to status, so worker exceptions are not modelled.
  - `shutdown` is taken to end the run.
  - Creating the target database is a recorded effect.
- `numpy.resize` reference checks and `<U3` truncation of residues are not modelled. Only three-letter residues are stored, so the truncation never matters.
- Text.ParseInt: accepts only ASCII digits. Python's `int()` also accepts any Unicode decimal digit (`"١٢"`, `"１２"`) and underscore-grouped digits (`"1_000"`). On such a count token the source reads a count while the model reports ValueError. Surrounding whitespace cannot occur, because the token comes from `split()`.
- MmcifParser.CountFromLine: does not model allocation failure. `np.empty` at mmcif_parser.py:18-20 raises MemoryError, or ValueError past numpy's index range (e.g. `10**20`), for a count it cannot allocate, where the model returns that count.
- `sorted(input_paths)` is modelled as sorting strings. In `main` the inputs are `pathlib.Path` objects, which compare by path parts.
- `main` (scripts/build_database.py:176-185) always passes `overwrite=True`, so the CLI never runs the dedup loop. The model keeps `overwrite` as a parameter, and `BuildDatabase.OverwriteIgnoresExisting` states what that choice means.
- the MMseqs2 and FoldComp subprocess wrappers (mDeepFRI/mmseqs.py:27-116) are shell glue over external binaries.
- the binary atom codec and contact maps are not among the modelled files.

## Findings

| source | as written | input that shows it | evidently intended | confidence | as-written member | corrected member |
|---|---|---|---|---|---|---|
| mDeepFRI/mmseqs.py:152-157 | each active threshold re-filters the full `output`, so only the last one assigned applies | `min_identity=0.5`, `max_evalue=1.0`, one hit with identity 0.2 and e-value 0.001: the hit is returned | every active threshold applies (AND) | not executed; high | Mmseqs.OverrideKeepsLowIdentity | Mmseqs.IntendedMeetsEveryThreshold, Mmseqs.IntendedDropsLowIdentity |
| mDeepFRI/mmseqs.py:152-160 | with every threshold `None` (the defaults) or 0, `filtered` is never bound and line 160 raises UnboundLocalError | a call with the default arguments | no threshold means no filtering | not executed; high | Mmseqs.NoThresholdFails | Mmseqs.IntendedWithoutThresholds |
| mmcif_parser.py:69 | `positions.append(atom[x], atom[y], atom[z])` passes three arguments to `list.append` and raises TypeError | a file with no `_refine_hist.pdbx_number_atoms_protein` line and one `ATOM` record of type symbol `H` with a three-letter residue | append the coordinate triple as one tuple | not executed; high | MmcifProperties.NoCountFailsOnFirstHydrogen | MmcifProperties.ParseIntendedKeepsHydrogens |
| scripts/build_database.py:122-125 | `del structure_files_paths[structure_id]` inside the loop over that dict makes the next iteration step raise RuntimeError | `overwrite=False`, entries `a`, `b`, with `a` already built | iterate over a copy of the keys, drop every built id and count the drops | not executed; high | BuildDatabase.DedupCounterexample | BuildDatabase.DedupIntendedRemoves, BuildDatabase.IntendedAgrees |

More on these findings:
- The corrected parser `MmcifProperties.ParseIntended` fixes only the `append` call. It keeps the no-count branch's `== "H"` test as written, because the code does not show whether keeping only hydrogens there is intended.
- With a declared count of 0, the numpy buffers have no `append`, and the model keeps that branch's AttributeError.
- `BuildDatabase.BuildIntended` is the run with the corrected dedup.
