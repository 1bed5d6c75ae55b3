/**
 * The scan loop of `main`: every collected subtitle file whose stem ends in
 * `_ar` is passed over; of the others, a file whose `_ar` sibling already
 * exists in the folder is counted as skipped, and every other one is queued.
 * The folder is given as the set of names it holds.
 */
module FileSelection {
  import opened FileNames

  /**
   * `expected_output_path.exists()`: for the files `main` collects, exactly
   * when the file `process_single_file` writes for `f` is in the folder.
   */
  predicate AlreadyTranslated(f: FileName, existing: set<string>)
    ensures Lower(f.suffix) == ".vtt" || Lower(f.suffix) == ".srt" ==>
      (AlreadyTranslated(f, existing) <==> Name(SavedOutputName(f, IsVtt(f))) in existing)
  {
    if Lower(f.suffix) == ".vtt" || Lower(f.suffix) == ".srt" then
      OutputNamesAgree(f);
      Name(ExpectedOutputName(f)) in existing
    else
      Name(ExpectedOutputName(f)) in existing
  }

  /** The files the scan appends to `files_to_process`. */
  predicate Pending(f: FileName, existing: set<string>)
  {
    !IsArOutput(f) && !AlreadyTranslated(f, existing)
  }

  /**
   * The queue the scan builds, in the order the files were collected: no
   * longer than the list, and holding only collected files that are pending.
   */
  function Queued(files: seq<FileName>, existing: set<string>): (q: seq<FileName>)
    ensures |q| <= |files|
    ensures forall i :: 0 <= i < |q| ==> q[i] in files && Pending(q[i], existing)
  {
    if files == [] then []
    else
      var last := files[|files| - 1];
      Queued(files[..|files| - 1], existing) + (if Pending(last, existing) then [last] else [])
  }

  /**
   * The final value of `skipped_count`: at most the number of files, and zero
   * exactly when no collected file other than an `_ar` output has its sibling.
   */
  function SkippedCount(files: seq<FileName>, existing: set<string>): (n: nat)
    ensures n <= |files|
    ensures n == 0 <==> forall i :: 0 <= i < |files| ==> IsArOutput(files[i]) || !AlreadyTranslated(files[i], existing)
  {
    if files == [] then 0
    else
      var last := files[|files| - 1];
      SkippedCount(files[..|files| - 1], existing) +
        (if !IsArOutput(last) && AlreadyTranslated(last, existing) then 1 else 0)
  }

  /** How many collected files are `_ar` outputs themselves. */
  function ArCount(files: seq<FileName>): nat
  {
    if files == [] then 0
    else ArCount(files[..|files| - 1]) + (if IsArOutput(files[|files| - 1]) then 1 else 0)
  }

  /** The filtering loop over `all_source_files`. */
  method Scan(files: seq<FileName>, existing: set<string>) returns (toProcess: seq<FileName>, skipped: nat)
    ensures toProcess == Queued(files, existing)
    ensures skipped == SkippedCount(files, existing)
  {
    toProcess, skipped := [], 0;
    for i := 0 to |files|
      invariant toProcess == Queued(files[..i], existing)
      invariant skipped == SkippedCount(files[..i], existing)
    {
      assert files[..i + 1][..i] == files[..i];
      var file := files[i];
      if IsArOutput(file) {
        continue;
      }
      var expected := ExpectedOutputName(file);
      if Name(expected) in existing {
        skipped := skipped + 1;
      } else {
        toProcess := toProcess + [file];
      }
    }
    assert files[..|files|] == files;
  }

  /**
   * A file is queued exactly when it was collected, its stem does not end in
   * `_ar`, and its `_ar` sibling is absent.
   */
  lemma {:induction false} QueuedIff(files: seq<FileName>, existing: set<string>, f: FileName)
    ensures f in Queued(files, existing) <==> f in files && Pending(f, existing)
    decreases |files|
  {
    if files != [] {
      var init, last := files[..|files| - 1], files[|files| - 1];
      QueuedIff(init, existing, f);
      assert files == init + [last];
    }
  }

  /**
   * The scan partitions the collected files: each is an `_ar` output, counted
   * as skipped, or queued, and exactly one of the three.
   */
  lemma {:induction false} ScanPartition(files: seq<FileName>, existing: set<string>)
    ensures |Queued(files, existing)| + SkippedCount(files, existing) + ArCount(files) == |files|
    decreases |files|
  {
    if files != [] {
      ScanPartition(files[..|files| - 1], existing);
    }
  }

  /**
   * A rerun queues nothing: once every queued file has had its output written
   * (under the name `process_single_file` uses), scanning the folder again,
   * now holding those outputs too, finds no work.
   */
  lemma RerunQueuesNothing(files: seq<FileName>, existing: set<string>, rescanned: seq<FileName>)
    requires forall f :: f in files ==> Lower(f.suffix) == ".vtt" || Lower(f.suffix) == ".srt"
    requires forall g :: g in rescanned ==>
      g in files || exists f :: f in Queued(files, existing) && g == SavedOutputName(f, IsVtt(f))
    ensures Queued(rescanned, existing + set f | f in Queued(files, existing) :: Name(SavedOutputName(f, IsVtt(f)))) == []
  {
    var written := set f | f in Queued(files, existing) :: Name(SavedOutputName(f, IsVtt(f)));
    forall g | g in rescanned ensures !Pending(g, existing + written) {
      if g in files && !IsArOutput(g) && !AlreadyTranslated(g, existing) {
        QueuedIff(files, existing, g);
        OutputNamesAgree(g);
        assert Name(ExpectedOutputName(g)) in written;
      }
    }
    NothingPendingNothingQueued(rescanned, existing + written);
  }

  lemma {:induction false} NothingPendingNothingQueued(files: seq<FileName>, existing: set<string>)
    requires forall g :: g in files ==> !Pending(g, existing)
    ensures Queued(files, existing) == []
    decreases |files|
  {
    if files != [] {
      NothingPendingNothingQueued(files[..|files| - 1], existing);
    }
  }
}
