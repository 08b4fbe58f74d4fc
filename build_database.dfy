/**
 * The bookkeeping of `build_database`: skipping ids already in the output,
 * pairing worker statuses with files, tallying them, picking the freshly
 * added ids, aborting when nothing is new, and the manifest written before the
 * target database is created. File discovery, the worker, the existence test,
 * `shutdown` and the external database build are inputs or recorded effects.
 */

module BuildDatabase {
  import opened Wrappers
  import opened Text
  import opened Ordering

  /** One entry of the id -> path dictionary file discovery returns, in insertion order. */
  datatype Entry = Entry(id: string, path: string)

  /** Dictionary keys are distinct. */
  predicate DistinctIds(files: seq<Entry>) {
    forall i, j :: 0 <= i < j < |files| ==> files[i].id != files[j].id
  }

  const SuccessPrefix: string := "SUCCESS"
  const FailPrefix: string := "FAIL"
  const NoFilesMessage: string := "No structure files found"
  const NoNewMessage: string := "\nNo new protein structures added.\n No new target database will be created."

  /** The keys of `db_params.json`, in the order they are assigned (and so dumped). */
  const SequencesKey: string := "sequences"
  const MaxLengthKey: string := "MAX_PROTEIN_LENGTH"
  const InputsKey: string := "input_structures_path"

  datatype Json = Strings(items: seq<string>) | Int(value: int)

  /** `param_dict`: key/value pairs in insertion order. */
  type Manifest = seq<(string, Json)>

  /** What the run does to the outside world after the output directory exists. */
  datatype Effect = WriteManifest(manifest: Manifest) | CreateTargetDatabase

  /**
   * The run's statistics: how many ids were skipped, the entries sent to the
   * workers with their statuses, the per-status counts of `np.unique`, the
   * (path, status) pairs logged as failures and the freshly added ids.
   */
  datatype Report = Report(skipped: nat, processed: seq<Entry>, statuses: seq<string>,
                           tally: seq<(string, nat)>, failed: seq<(string, string)>, added: seq<string>)

  /** How the run ends: normally, through `shutdown` with its message, or by the dictionary iterator raising. */
  datatype Stop = Completed | Shutdown(message: string) | DictChangedSize(deleted: string)

  datatype Outcome = Outcome(report: Option<Report>, effects: seq<Effect>, stop: Stop)

  // Duplicate skipping

  /** The index of the first entry at or after `i` whose output already exists. */
  function FirstExisting(files: seq<Entry>, existing: set<string>, i: nat): (r: Option<nat>)
    requires i <= |files|
    ensures r.Some? ==> i <= r.value < |files| && files[r.value].id in existing
    decreases |files| - i
  {
    if i == |files| then None
    else if files[i].id in existing then Some(i)
    else FirstExisting(files, existing, i + 1)
  }

  datatype Dedup = Dedup(remaining: seq<Entry>, skipped: nat, raised: Option<string>)

  /**
   * The `del` loop as written: it deletes the first entry whose output exists
   * and bumps the counter, and the iterator's next step then raises
   * RuntimeError because the dictionary changed size during iteration.
   */
  function SkipAsWritten(files: seq<Entry>, existing: set<string>): Dedup {
    match FirstExisting(files, existing, 0)
    case None => Dedup(files, 0, None)
    case Some(i) => Dedup(files[..i] + files[i + 1..], 1, Some(files[i].id))
  }

  method SkipDuplicates(files: seq<Entry>, existing: set<string>) returns (d: Dedup)
    ensures d == SkipAsWritten(files, existing)
  {
    var remaining, skipped := files, 0;
    var i := 0;
    while i < |files|
      invariant 0 <= i <= |files|
      invariant FirstExisting(files, existing, 0) == FirstExisting(files, existing, i)
      invariant remaining == files && skipped == 0
    {
      if files[i].id in existing {
        remaining := files[..i] + files[i + 1..];
        skipped := skipped + 1;
        // the iterator notices the deletion on its next step
        return Dedup(remaining, skipped, Some(files[i].id));
      }
      i := i + 1;
    }
    return Dedup(remaining, skipped, None);
  }

  /** The entries whose output does not exist yet, in order. */
  function Absent(files: seq<Entry>, existing: set<string>): (r: seq<Entry>)
    ensures |r| <= |files|
  {
    if files == [] then []
    else (if files[0].id in existing then [] else [files[0]]) + Absent(files[1..], existing)
  }

  /** The deduplication the loop is meant to do: drop every existing id and count the drops. */
  function DedupIntended(files: seq<Entry>, existing: set<string>): Dedup {
    var remaining := Absent(files, existing);
    Dedup(remaining, |files| - |remaining|, None)
  }

  /** How many entries have an existing output. */
  function CountExisting(files: seq<Entry>, existing: set<string>): nat {
    if files == [] then 0
    else (if files[0].id in existing then 1 else 0) + CountExisting(files[1..], existing)
  }

  // Processing and the manifest

  /** `starmap` of the worker over the remaining paths, in order. */
  function Statuses(entries: seq<Entry>, process: string -> string): seq<string> {
    seq(|entries|, i requires 0 <= i < |entries| => process(entries[i].path))
  }

  /** The (path, status) pairs of the first `n` entries whose status starts with "FAIL". */
  function Failed(entries: seq<Entry>, statuses: seq<string>, n: nat): (r: seq<(string, string)>)
    requires n <= |entries| && n <= |statuses|
    ensures |r| <= n
  {
    if n == 0 then []
    else
      var i := n - 1;
      Failed(entries, statuses, i) + (if StartsWith(statuses[i], FailPrefix) then [(entries[i].path, statuses[i])] else [])
  }

  /** The ids of the first `n` entries whose status starts with "SUCCESS". */
  function Fresh(entries: seq<Entry>, statuses: seq<string>, n: nat): (r: seq<string>)
    requires n <= |entries| && n <= |statuses|
    ensures |r| <= n
  {
    if n == 0 then []
    else
      var i := n - 1;
      Fresh(entries, statuses, i) + (if StartsWith(statuses[i], SuccessPrefix) then [entries[i].id] else [])
  }

  function ManifestOf(added: seq<string>, maxProteinLength: int, inputPaths: seq<string>): Manifest {
    [(SequencesKey, Strings(SortStrings(added))), (MaxLengthKey, Int(maxProteinLength)),
     (InputsKey, Strings(SortStrings(inputPaths)))]
  }

  /** Everything after deduplication. */
  function Finish(remaining: seq<Entry>, skipped: nat, process: string -> string,
                  inputPaths: seq<string>, maxProteinLength: int): Outcome
  {
    var statuses := Statuses(remaining, process);
    var added := Fresh(remaining, statuses, |remaining|);
    var report := Report(skipped, remaining, statuses, Tally(statuses),
                         Failed(remaining, statuses, |remaining|), added);
    if added == [] then Outcome(Some(report), [], Shutdown(NoNewMessage))
    else Outcome(Some(report), [WriteManifest(ManifestOf(added, maxProteinLength, inputPaths)),
                                CreateTargetDatabase], Completed)
  }

  /** `build_database` over the discovered files, as written. */
  function BuildSpec(files: seq<Entry>, existing: set<string>, overwrite: bool,
                     process: string -> string, inputPaths: seq<string>, maxProteinLength: int): Outcome
  {
    if files == [] then Outcome(None, [], Shutdown(NoFilesMessage))
    else if overwrite then Finish(files, 0, process, inputPaths, maxProteinLength)
    else
      var d := SkipAsWritten(files, existing);
      if d.raised.Some? then Outcome(None, [], DictChangedSize(d.raised.value))
      else Finish(d.remaining, d.skipped, process, inputPaths, maxProteinLength)
  }

  /** `build_database` with the deduplication it is meant to do. */
  function BuildIntended(files: seq<Entry>, existing: set<string>, overwrite: bool,
                         process: string -> string, inputPaths: seq<string>, maxProteinLength: int): Outcome
  {
    if files == [] then Outcome(None, [], Shutdown(NoFilesMessage))
    else if overwrite then Finish(files, 0, process, inputPaths, maxProteinLength)
    else
      var d := DedupIntended(files, existing);
      Finish(d.remaining, d.skipped, process, inputPaths, maxProteinLength)
  }

  /** The loop that logs every file whose status starts with "FAIL". */
  method CollectFailed(remaining: seq<Entry>, statuses: seq<string>) returns (failed: seq<(string, string)>)
    requires |statuses| == |remaining|
    ensures failed == Failed(remaining, statuses, |remaining|)
  {
    failed := [];
    var i := 0;
    while i < |remaining|
      invariant 0 <= i <= |remaining|
      invariant failed == Failed(remaining, statuses, i)
    {
      if StartsWith(statuses[i], FailPrefix) {
        failed := failed + [(remaining[i].path, statuses[i])];
      }
      i := i + 1;
    }
  }

  /** The loop that appends to `freshly_added_ids`. */
  method CollectAdded(remaining: seq<Entry>, statuses: seq<string>) returns (added: seq<string>)
    requires |statuses| == |remaining|
    ensures added == Fresh(remaining, statuses, |remaining|)
  {
    added := [];
    var i := 0;
    while i < |remaining|
      invariant 0 <= i <= |remaining|
      invariant added == Fresh(remaining, statuses, i)
    {
      if StartsWith(statuses[i], SuccessPrefix) {
        added := added + [remaining[i].id];
      }
      i := i + 1;
    }
  }

  /** `param_dict`, built by successive assignments. */
  method BuildManifest(added: seq<string>, maxProteinLength: int, inputPaths: seq<string>) returns (m: Manifest)
    ensures m == ManifestOf(added, maxProteinLength, inputPaths)
  {
    m := [];
    m := m + [(SequencesKey, Strings(SortStrings(added)))];
    m := m + [(MaxLengthKey, Int(maxProteinLength))];
    m := m + [(InputsKey, Strings(SortStrings(inputPaths)))];
  }

  /** The status loops, the abort rule and the manifest. */
  method FinishRun(remaining: seq<Entry>, skipped: nat, process: string -> string,
                   inputPaths: seq<string>, maxProteinLength: int) returns (r: Outcome)
    ensures r == Finish(remaining, skipped, process, inputPaths, maxProteinLength)
  {
    var statuses := Statuses(remaining, process);
    var tally := Tally(statuses);
    var failed := CollectFailed(remaining, statuses);
    var added := CollectAdded(remaining, statuses);
    var report := Report(skipped, remaining, statuses, tally, failed, added);
    if |added| == 0 {
      return Outcome(Some(report), [], Shutdown(NoNewMessage));
    }
    var manifest := BuildManifest(added, maxProteinLength, inputPaths);
    var effects := [WriteManifest(manifest)];
    effects := effects + [CreateTargetDatabase];
    return Outcome(Some(report), effects, Completed);
  }

  /**
   * `build_database`: `files` is what discovery returned, `existing` the ids
   * whose binary atom file is already in the output, `process` the worker's
   * status for a path.
   */
  method Build(files: seq<Entry>, existing: set<string>, overwrite: bool,
               process: string -> string, inputPaths: seq<string>, maxProteinLength: int) returns (r: Outcome)
    ensures r == BuildSpec(files, existing, overwrite, process, inputPaths, maxProteinLength)
  {
    if |files| == 0 {
      return Outcome(None, [], Shutdown(NoFilesMessage));
    }
    var remaining, skipped := files, 0;
    if !overwrite {
      var d := SkipDuplicates(files, existing);
      if d.raised.Some? {
        return Outcome(None, [], DictChangedSize(d.raised.value));
      }
      remaining, skipped := d.remaining, d.skipped;
    }
    r := FinishRun(remaining, skipped, process, inputPaths, maxProteinLength);
  }

  // Properties of the run

  /** An empty discovery shuts the run down before any worker starts, and only then with that message. */
  lemma NoFilesShutsDown(files: seq<Entry>, existing: set<string>, overwrite: bool,
                         process: string -> string, inputPaths: seq<string>, maxProteinLength: int)
    ensures var o := BuildSpec(files, existing, overwrite, process, inputPaths, maxProteinLength);
      (files == [] <==> o.stop == Shutdown(NoFilesMessage))
      && (files == [] ==> o.report == None && o.effects == [])
  {
    assert NoNewMessage != NoFilesMessage by {
      assert |NoNewMessage| != |NoFilesMessage|;
    }
  }

  lemma {:induction false} FirstExistingIsFirst(files: seq<Entry>, existing: set<string>, i: nat)
    requires i <= |files|
    ensures FirstExisting(files, existing, i).None? <==> forall j :: i <= j < |files| ==> files[j].id !in existing
    ensures FirstExisting(files, existing, i).Some? ==>
      forall j :: i <= j < FirstExisting(files, existing, i).value ==> files[j].id !in existing
    decreases |files| - i
  {
    if i < |files| && files[i].id !in existing {
      FirstExistingIsFirst(files, existing, i + 1);
    }
  }

  /**
   * The dedup loop as written completes only when no discovered id is already
   * in the output; otherwise it has deleted exactly the first such entry.
   */
  lemma SkipAsWrittenCompletes(files: seq<Entry>, existing: set<string>)
    ensures var d := SkipAsWritten(files, existing);
      (d.raised.None? <==> forall i :: 0 <= i < |files| ==> files[i].id !in existing)
      && (d.raised.None? ==> d.remaining == files && d.skipped == 0)
      && (d.raised.Some? ==>
            exists i :: (0 <= i < |files| && files[i].id in existing
              && d.raised.value == files[i].id && d.remaining == files[..i] + files[i + 1..]
              && d.skipped == 1 && forall j :: 0 <= j < i ==> files[j].id !in existing))
  {
    FirstExistingIsFirst(files, existing, 0);
    var f := FirstExisting(files, existing, 0);
    if f.Some? {
      var i := f.value;
      assert files[i].id in existing && SkipAsWritten(files, existing).raised.value == files[i].id;
    }
  }

  /** Without `overwrite`, one id already in the output makes the run raise before any processing. */
  lemma BuildRaisesOnDuplicate(files: seq<Entry>, existing: set<string>,
                               process: string -> string, inputPaths: seq<string>, maxProteinLength: int)
    requires files != []
    ensures var o := BuildSpec(files, existing, false, process, inputPaths, maxProteinLength);
      (o.stop.DictChangedSize? <==> exists i :: 0 <= i < |files| && files[i].id in existing)
      && (o.stop.DictChangedSize? ==> o.report == None && o.effects == [] && o.stop.deleted in existing)
  {
    SkipAsWrittenCompletes(files, existing);
  }

  /** With `overwrite` (what `main` always passes) the existing outputs play no part. */
  lemma OverwriteIgnoresExisting(files: seq<Entry>, existing: set<string>,
                                 process: string -> string, inputPaths: seq<string>, maxProteinLength: int)
    ensures BuildSpec(files, existing, true, process, inputPaths, maxProteinLength)
         == BuildSpec(files, {}, false, process, inputPaths, maxProteinLength)
  {
    SkipAsWrittenCompletes(files, {});
  }

  lemma {:induction false} AbsentMembers(files: seq<Entry>, existing: set<string>)
    ensures forall e :: e in Absent(files, existing) <==> e in files && e.id !in existing
    ensures |files| - |Absent(files, existing)| == CountExisting(files, existing)
  {
    if files != [] {
      AbsentMembers(files[1..], existing);
      assert files == [files[0]] + files[1..];
    }
  }

  /** The rest of a dictionary with distinct keys has distinct keys, none of them the first. */
  lemma DistinctTail(files: seq<Entry>)
    requires files != [] && DistinctIds(files)
    ensures DistinctIds(files[1..])
    ensures forall e :: e in files[1..] ==> e.id != files[0].id
  {
    var t := files[1..];
    forall i, j | 0 <= i < j < |t| ensures t[i].id != t[j].id {
      assert t[i] == files[i + 1] && t[j] == files[j + 1];
    }
    forall e | e in t ensures e.id != files[0].id {
      var k :| 0 <= k < |t| && t[k] == e;
      assert files[k + 1] == e;
    }
  }

  lemma DistinctCons(e: Entry, r: seq<Entry>)
    requires DistinctIds(r) && forall x :: x in r ==> x.id != e.id
    ensures DistinctIds([e] + r)
  {
    var a := [e] + r;
    forall i, j | 0 <= i < j < |a| ensures a[i].id != a[j].id {
      assert a[j] == r[j - 1] && a[j] in r;
      if i > 0 {
        assert a[i] == r[i - 1];
      }
    }
  }

  lemma {:induction false} AbsentKeepsDistinct(files: seq<Entry>, existing: set<string>)
    requires DistinctIds(files)
    ensures DistinctIds(Absent(files, existing))
  {
    if files != [] {
      var r := Absent(files[1..], existing);
      DistinctTail(files);
      AbsentKeepsDistinct(files[1..], existing);
      AbsentMembers(files[1..], existing);
      if files[0].id !in existing {
        DistinctCons(files[0], r);
      } else {
        assert Absent(files, existing) == r;
      }
    }
  }

  /**
   * The intended dedup removes exactly the ids already in the output, keeps
   * the rest of the dictionary distinct, and counts the removals.
   */
  lemma DedupIntendedRemoves(files: seq<Entry>, existing: set<string>)
    requires DistinctIds(files)
    ensures var d := DedupIntended(files, existing);
      (forall e :: e in d.remaining <==> e in files && e.id !in existing)
      && d.skipped == CountExisting(files, existing)
      && DistinctIds(d.remaining)
      && d.raised == None
  {
    AbsentMembers(files, existing);
    AbsentKeepsDistinct(files, existing);
  }

  lemma {:induction false} AbsentAll(files: seq<Entry>, existing: set<string>)
    requires forall i :: 0 <= i < |files| ==> files[i].id !in existing
    ensures Absent(files, existing) == files
  {
    if files != [] {
      assert files[0].id !in existing;
      AbsentAll(files[1..], existing);
    }
  }

  /** The as-written run agrees with the intended one wherever its dedup loop completes. */
  lemma IntendedAgrees(files: seq<Entry>, existing: set<string>, overwrite: bool,
                       process: string -> string, inputPaths: seq<string>, maxProteinLength: int)
    requires overwrite || forall i :: 0 <= i < |files| ==> files[i].id !in existing
    ensures BuildSpec(files, existing, overwrite, process, inputPaths, maxProteinLength)
         == BuildIntended(files, existing, overwrite, process, inputPaths, maxProteinLength)
  {
    if !overwrite {
      SkipAsWrittenCompletes(files, existing);
      AbsentAll(files, existing);
    }
  }

  /** Two files, the first already built: as written the run raises, as intended it builds the second. */
  lemma DedupCounterexample(process: string -> string)
    requires StartsWith(process("b.cif"), SuccessPrefix)
    ensures var files, existing := [Entry("a", "a.cif"), Entry("b", "b.cif")], {"a"};
      BuildSpec(files, existing, false, process, ["in"], 1000).stop == DictChangedSize("a")
      && BuildIntended(files, existing, false, process, ["in"], 1000).stop == Completed
      && BuildIntended(files, existing, false, process, ["in"], 1000).report.value.skipped == 1
      && BuildIntended(files, existing, false, process, ["in"], 1000).report.value.processed == [Entry("b", "b.cif")]
  {
    var files, existing := [Entry("a", "a.cif"), Entry("b", "b.cif")], {"a"};
    assert FirstExisting(files, existing, 0) == Some(0);
    assert "b" != "a";
    assert Absent(files[1..], existing) == [Entry("b", "b.cif")];
    var rest := [Entry("b", "b.cif")];
    assert Absent(files, existing) == rest;
    var statuses := Statuses(rest, process);
    assert Fresh(rest, statuses, 1) == ["b"];
  }

  // Statuses, the tally, failures and fresh ids

  /**
   * Zipping the statuses with the dictionary's values and keys judges every
   * file by its own worker status: a failure is logged for a path exactly when
   * that path's status starts with "FAIL", and an id is added exactly when its
   * path's status starts with "SUCCESS".
   */
  lemma StatusesJudgeOwnFile(entries: seq<Entry>, process: string -> string)
    ensures forall p, st :: (p, st) in Failed(entries, Statuses(entries, process), |entries|) <==>
      exists i :: 0 <= i < |entries| && entries[i].path == p && st == process(p) && StartsWith(st, FailPrefix)
    ensures forall x :: x in Fresh(entries, Statuses(entries, process), |entries|) <==>
      exists i :: 0 <= i < |entries| && entries[i].id == x && StartsWith(process(entries[i].path), SuccessPrefix)
  {
    var statuses := Statuses(entries, process);
    FailedExactly(entries, statuses, |entries|);
    FreshExactly(entries, statuses, |entries|);
  }

  /** `np.unique` counts: ascending distinct statuses, each with its multiplicity, summing to the files processed. */
  lemma TallyCountsProcessed(entries: seq<Entry>, process: string -> string)
    ensures var s, t := Statuses(entries, process), Tally(Statuses(entries, process));
      StrictlyAscending(Keys(t))
      && (forall x :: x in Keys(t) <==> x in s)
      && (forall i :: 0 <= i < |t| ==> t[i].1 == multiset(s)[t[i].0] > 0)
      && Total(t) == |entries|
  {
    TallyProperties(Statuses(entries, process));
  }

  /** The freshly added ids are exactly the ids whose status starts with "SUCCESS". */
  lemma {:induction false} FreshExactly(entries: seq<Entry>, statuses: seq<string>, n: nat)
    requires n <= |entries| && n <= |statuses|
    ensures forall x :: x in Fresh(entries, statuses, n) <==>
      exists i :: 0 <= i < n && entries[i].id == x && StartsWith(statuses[i], SuccessPrefix)
  {
    if n > 0 {
      FreshExactly(entries, statuses, n - 1);
    }
  }

  /**
   * The freshly added ids keep discovery order: those of the first `n` entries
   * come before those of any later entry.
   */
  lemma {:induction false} FreshInOrder(entries: seq<Entry>, statuses: seq<string>, n: nat, m: nat)
    requires n <= m <= |entries| && m <= |statuses|
    ensures Fresh(entries, statuses, n) <= Fresh(entries, statuses, m)
    decreases m
  {
    if m > n {
      FreshInOrder(entries, statuses, n, m - 1);
    }
  }

  /** The logged failures keep discovery order in the same way. */
  lemma {:induction false} FailedInOrder(entries: seq<Entry>, statuses: seq<string>, n: nat, m: nat)
    requires n <= m <= |entries| && m <= |statuses|
    ensures Failed(entries, statuses, n) <= Failed(entries, statuses, m)
    decreases m
  {
    if m > n {
      FailedInOrder(entries, statuses, n, m - 1);
    }
  }

  /** The files logged as failures are exactly those whose status starts with "FAIL". */
  lemma {:induction false} FailedExactly(entries: seq<Entry>, statuses: seq<string>, n: nat)
    requires n <= |entries| && n <= |statuses|
    ensures forall p, st :: (p, st) in Failed(entries, statuses, n) <==>
      exists i :: 0 <= i < n && entries[i].path == p && statuses[i] == st && StartsWith(st, FailPrefix)
  {
    if n > 0 {
      FailedExactly(entries, statuses, n - 1);
    }
  }

  lemma SuccessIsNotFail(st: string)
    requires StartsWith(st, SuccessPrefix)
    ensures !StartsWith(st, FailPrefix)
  {
    assert st[0] == SuccessPrefix[0];
  }

  /** No file is both freshly added and a failure. */
  lemma {:induction false} FreshAndFailedDisjoint(entries: seq<Entry>, statuses: seq<string>, n: nat)
    requires n <= |entries| && n <= |statuses|
    ensures |Fresh(entries, statuses, n)| + |Failed(entries, statuses, n)| <= n
  {
    if n > 0 {
      FreshAndFailedDisjoint(entries, statuses, n - 1);
      if StartsWith(statuses[n - 1], SuccessPrefix) {
        SuccessIsNotFail(statuses[n - 1]);
      }
    }
  }

  /** With distinct dictionary keys each fresh id is listed once. */
  lemma {:induction false} FreshDistinct(entries: seq<Entry>, statuses: seq<string>, n: nat)
    requires n <= |entries| && n <= |statuses| && DistinctIds(entries)
    ensures forall i, j :: 0 <= i < j < |Fresh(entries, statuses, n)| ==>
      Fresh(entries, statuses, n)[i] != Fresh(entries, statuses, n)[j]
  {
    if n > 0 {
      var r := Fresh(entries, statuses, n - 1);
      FreshDistinct(entries, statuses, n - 1);
      FreshExactly(entries, statuses, n - 1);
      if StartsWith(statuses[n - 1], SuccessPrefix) {
        var a := r + [entries[n - 1].id];
        forall i, j | 0 <= i < j < |a| ensures a[i] != a[j] {
          if j == |r| {
            assert a[i] in r;
            var k :| 0 <= k < n - 1 && entries[k].id == a[i] && StartsWith(statuses[k], SuccessPrefix);
            assert entries[k].id != entries[n - 1].id;
          } else {
            assert a[i] == r[i] && a[j] == r[j];
          }
        }
      }
    }
  }

  // The abort rule and the manifest

  /**
   * After deduplication the run shuts down, writing nothing, exactly when no
   * status starts with "SUCCESS"; otherwise it writes the manifest and only
   * then creates the target database.
   */
  lemma FinishAbortsOnNothingNew(remaining: seq<Entry>, skipped: nat, process: string -> string,
                                 inputPaths: seq<string>, maxProteinLength: int)
    ensures var o, s := Finish(remaining, skipped, process, inputPaths, maxProteinLength), Statuses(remaining, process);
      o.report.Some? && o.report.value.processed == remaining && o.report.value.skipped == skipped
      && (o.stop == Shutdown(NoNewMessage) <==> forall i :: 0 <= i < |remaining| ==> !StartsWith(s[i], SuccessPrefix))
      && (o.stop.Shutdown? ==> o.effects == [])
      && (o.stop.Completed? <==> !o.stop.Shutdown?)
      && (o.stop.Completed? ==> |o.effects| == 2 && o.effects[0].WriteManifest? && o.effects[1] == CreateTargetDatabase)
  {
    var s := Statuses(remaining, process);
    FreshExactly(remaining, s, |remaining|);
    var added := Fresh(remaining, s, |remaining|);
    forall i | 0 <= i < |remaining| ensures StartsWith(s[i], SuccessPrefix) ==> remaining[i].id in added {
    }
    if added != [] {
      assert added[0] in added;
      var i :| 0 <= i < |remaining| && remaining[i].id == added[0] && StartsWith(s[i], SuccessPrefix);
    }
  }

  /**
   * `db_params.json` holds, in this key order, the fresh ids sorted, the
   * length parameter, and the input paths sorted.
   */
  lemma ManifestContents(added: seq<string>, maxProteinLength: int, inputPaths: seq<string>)
    ensures var m := ManifestOf(added, maxProteinLength, inputPaths);
      |m| == 3 && m[0].0 == SequencesKey && m[1].0 == MaxLengthKey && m[2].0 == InputsKey
      && m[0].1.Strings? && Ascending(m[0].1.items) && multiset(m[0].1.items) == multiset(added)
      && m[1].1 == Int(maxProteinLength)
      && m[2].1.Strings? && Ascending(m[2].1.items) && multiset(m[2].1.items) == multiset(inputPaths)
  {
  }

  /** A sorted sequence without repeats is strictly ascending. */
  lemma AscendingDistinct(s: seq<string>)
    requires Ascending(s)
    requires forall i, j :: 0 <= i < j < |s| ==> s[i] != s[j]
    ensures StrictlyAscending(s)
  {
    forall i, j | 0 <= i < j < |s| ensures Below(s[i], s[j]) {
      BelowTotal(s[i], s[j]);
    }
  }

  /** A value at two positions occurs at least twice. */
  lemma TwoOccurrences(s: seq<string>, i: nat, j: nat)
    requires i < j < |s|
    ensures s[i] == s[j] ==> multiset(s)[s[i]] >= 2
  {
    assert s == s[..j] + s[j..];
    assert s[..j][i] == s[i] && s[j..][0] == s[j];
    assert multiset(s[..j])[s[i]] >= 1 && multiset(s[j..])[s[j]] >= 1;
  }

  /** In a sequence without repeats every value occurs at most once. */
  lemma {:induction false} DistinctOnce(s: seq<string>, x: string)
    requires forall i, j :: 0 <= i < j < |s| ==> s[i] != s[j]
    ensures multiset(s)[x] <= 1
  {
    if s != [] {
      var t := s[1..];
      forall i, j | 0 <= i < j < |t| ensures t[i] != t[j] {
        assert t[i] == s[i + 1] && t[j] == s[j + 1];
      }
      DistinctOnce(t, x);
      assert s == [s[0]] + t;
      forall k | 0 <= k < |t| ensures t[k] != s[0] {
        assert t[k] == s[k + 1];
      }
      assert s[0] !in t;
    }
  }

  /** With distinct dictionary keys the manifest's `sequences` are strictly ascending. */
  lemma ManifestSequencesStrict(remaining: seq<Entry>, process: string -> string)
    requires DistinctIds(remaining)
    ensures StrictlyAscending(SortStrings(Fresh(remaining, Statuses(remaining, process), |remaining|)))
  {
    var added := Fresh(remaining, Statuses(remaining, process), |remaining|);
    var r := SortStrings(added);
    FreshDistinct(remaining, Statuses(remaining, process), |remaining|);
    forall i, j | 0 <= i < j < |r| ensures r[i] != r[j] {
      DistinctOnce(added, r[i]);
      assert multiset(r)[r[i]] <= 1;
      TwoOccurrences(r, i, j);
    }
    AscendingDistinct(r);
  }

  // The whole run

  /**
   * The run writes something only when it completes, and then it writes the
   * manifest of its fresh ids before creating the target database.
   */
  lemma BuildWritesOnlyOnSuccess(files: seq<Entry>, existing: set<string>, overwrite: bool,
                                 process: string -> string, inputPaths: seq<string>, maxProteinLength: int)
    ensures var o := BuildSpec(files, existing, overwrite, process, inputPaths, maxProteinLength);
      (o.effects != [] <==> o.stop.Completed?)
      && (o.stop.Completed? ==>
            (o.report.Some? && o.report.value.added != []
             && o.effects == [WriteManifest(ManifestOf(o.report.value.added, maxProteinLength, inputPaths)),
                              CreateTargetDatabase]))
  {
  }

  /** Whatever reaches the workers came from discovery and, without `overwrite`, is not yet built. */
  lemma BuildProcessesNew(files: seq<Entry>, existing: set<string>, overwrite: bool,
                          process: string -> string, inputPaths: seq<string>, maxProteinLength: int)
    ensures var o := BuildSpec(files, existing, overwrite, process, inputPaths, maxProteinLength);
      o.report.Some? ==>
        (o.report.value.processed == files && files != []
         && (!overwrite ==> forall i :: 0 <= i < |files| ==> files[i].id !in existing))
  {
    SkipAsWrittenCompletes(files, existing);
  }
}
