/**
 * The window model of the word finder: the status machine, the cached list
 * of scanned files, the result list and the progress fields, with the
 * operations the window's commands run.
 *
 * The asynchronous search is modelled as one sequential run. The directory
 * walk is given as the sequence of paths it would enumerate, the file system
 * as a map from path to text (a missing path is a failed read), and the one
 * moment at which the user presses Stop, if any, as a `Cancel` value; at that
 * moment the run itself calls ExitStop, as the window would.
 */
module WindowModel {
  import opened Wrappers
  import opened Tokenizer
  import opened PathNames
  import opened FileInfoModel
  import opened Search
  import opened Progress
  import opened WindowStatus

  /** When, if ever, the user presses Stop during a run. */
  datatype Cancel =
    | Never
      /** during the directory scan, once `scanned` paths have been taken */
    | DuringScan(scanned: nat)
      /** during the search, once `searched` files have been finished */
    | DuringSearch(searched: nat)

  /** The fields of the window model as one value. */
  datatype Snapshot = Snapshot(
    status: Status,
    directoryPath: string,
    word: string,
    files: seq<string>,
    fileInfos: seq<FileInfo>,
    progress: int,
    progressTick: real,
    progressValue: real,
    cancelRequested: bool,   // the current CancellationTokenSource was cancelled
    shutdownRequested: bool) // Application.Current.Shutdown() was called

  const Initial: Snapshot :=
    Snapshot(Idle, "", "", [], [], 0, 0.0, 0.0, false, false)

  /**
   * What holds of the fields between any two steps: every stored result has
   * a positive count, the progress is a percentage, and in Ready there is a
   * cached file list whose tick is 100 / its length.
   */
  ghost predicate Inv(s: Snapshot) {
    && (forall fi :: fi in s.fileInfos ==> fi.count >= 1)
    && 0 <= s.progress <= 100
    && (s.status == Ready ==> |s.files| > 0 && s.progressTick == 100.0 / |s.files| as real)
  }

  function Min(a: nat, b: nat): nat {
    if a <= b then a else b
  }

  // ---------------------------------------------------------------------
  // The operations on values

  function ClearInfoSpec(s: Snapshot): Snapshot {
    s.(fileInfos := [], progress := 0, progressValue := 0.0)
  }

  /** `selected` is the folder chosen in the dialog, None when it was dismissed. */
  function OpenDirectorySpec(s: Snapshot, selected: Option<string>): Snapshot {
    if selected.None? then s
    else ClearInfoSpec(s.(directoryPath := selected.value, status := Idle))
  }

  function ExitStopSpec(s: Snapshot): Snapshot {
    if s.status == Idle || s.status == Ready then s.(shutdownRequested := true)
    else s.(cancelRequested := true, status := Cancellation)
  }

  /** How many files of `total` the search finishes before it stops. */
  function SearchedCount(cancel: Cancel, total: nat): nat {
    if cancel.DuringSearch? then Min(cancel.searched, total) else total
  }

  /** The search phase over the cached list: results and progress of the finished files. */
  function SearchSpec(s: Snapshot, disk: map<string, string>, cancel: Cancel): Snapshot {
    var n := SearchedCount(cancel, |s.files|);
    var value := Accumulated(n, s.progressTick);
    s.(status := Ready,
       fileInfos := Results(disk, s.files[..n], s.word),
       progress := Percent(value),
       progressValue := value,
       cancelRequested := cancel.DuringSearch?)
  }

  /** A whole run of the search command. */
  function FindWordSpec(s: Snapshot, enumerated: seq<string>, disk: map<string, string>, cancel: Cancel): Snapshot {
    var s0 := s.(cancelRequested := false);
    if s.status == Idle then
      if cancel.DuringScan? then
        s0.(files := enumerated[..Min(cancel.scanned, |enumerated|)], cancelRequested := true)
      else if enumerated == [] then
        s0.(files := [])
      else
        SearchSpec(s0.(files := enumerated, progressTick := 100.0 / |enumerated| as real), disk, cancel)
    else
      SearchSpec(s0, disk, cancel)
  }

  /** The fields after `done` files of a search satisfy the invariant. */
  lemma SearchedStateInv(s: Snapshot, disk: map<string, string>, done: nat)
    requires 0 < |s.files| && done <= |s.files|
    requires s.progressTick == 100.0 / |s.files| as real
    requires s.fileInfos == Results(disk, s.files[..done], s.word)
    requires s.progress == Percent(Accumulated(done, s.progressTick))
    ensures Inv(s)
  {
    ResultsCountPositive(disk, s.files[..done], s.word);
    AccumulatedWithinWhole(done, |s.files|);
    PercentRange(Accumulated(done, s.progressTick));
  }

  // ---------------------------------------------------------------------
  // The window model as an object

  class Model {
    var status: Status
    var directoryPath: string
    var word: string
    var files: seq<string>
    var fileInfos: seq<FileInfo>
    var progress: int
    var progressTick: real
    var progressValue: real
    var cancelRequested: bool
    var shutdownRequested: bool

    function State(): Snapshot
      reads this
    {
      Snapshot(status, directoryPath, word, files, fileInfos, progress,
               progressTick, progressValue, cancelRequested, shutdownRequested)
    }

    ghost predicate Valid()
      reads this
    {
      Inv(State())
    }

    constructor ()
      ensures State() == Initial && Valid()
    {
      status, directoryPath, word := Idle, "", "";
      files, fileInfos := [], [];
      progress, progressTick, progressValue := 0, 0.0, 0.0;
      cancelRequested, shutdownRequested := false, false;
    }

    /** The Word property setter, used by the binding of the word box. */
    method SetWord(w: string)
      modifies this
      ensures State() == old(State()).(word := w)
    {
      word := w;
    }

    method ClearInfo()
      modifies this`fileInfos, this`progress, this`progressValue
      ensures State() == ClearInfoSpec(old(State()))
    {
      fileInfos := [];
      progress := 0;
      progressValue := 0.0;
    }

    method OpenDirectory(selected: Option<string>)
      requires Valid()
      modifies this
      ensures Valid()
      ensures State() == OpenDirectorySpec(old(State()), selected)
    {
      if selected.Some? {
        directoryPath := selected.value;
        status := Idle;
        ClearInfo();
      }
    }

    method ExitStop()
      modifies this`status, this`cancelRequested, this`shutdownRequested
      ensures old(Valid()) ==> Valid()
      ensures State() == ExitStopSpec(old(State()))
    {
      if status == Idle || status == Ready {
        shutdownRequested := true;
      } else {
        cancelRequested := true;
        status := Cancellation;
      }
    }

    /**
     * The search command. From Idle the directory is scanned first; a scan
     * that is stopped, or that finds no file, goes back to Idle. From Ready
     * the cached file list is searched again without a scan.
     */
    method FindWord(enumerated: seq<string>, disk: map<string, string>, cancel: Cancel)
      requires Valid() && IsQuiet(status)
      modifies this
      ensures Valid()
      ensures State() == FindWordSpec(old(State()), enumerated, disk, cancel)
    {
      cancelRequested := false;   // a fresh cancellation source for this run
      if status == Idle {
        status := Scaning;
        Scan(enumerated, cancel);
        if cancelRequested {
          status := Idle;
          return;
        } else if |files| > 0 {
          progressTick := 100.0 / |files| as real;
        } else {
          // "No files found in this directory"
          status := Idle;
          return;
        }
      }
      Search(disk, cancel);
    }

    /**
     * The directory walk: `files` is emptied and refilled with the
     * enumerated paths, and the walk stops when it sees cancellation.
     */
    method Scan(enumerated: seq<string>, cancel: Cancel)
      requires Valid() && status == Scaning && !cancelRequested
      modifies this
      ensures Valid()
      ensures cancel.DuringScan? ==>
        State() == old(State()).(files := enumerated[..Min(cancel.scanned, |enumerated|)],
                                 cancelRequested := true, status := Cancellation)
      ensures !cancel.DuringScan? ==> State() == old(State()).(files := enumerated)
    {
      files := [];
      var i := 0;
      while i < |enumerated|
        invariant 0 <= i <= |enumerated|
        invariant files == enumerated[..i]
        invariant cancel.DuringScan? ==> i <= cancel.scanned
        invariant Valid()
        invariant State() == old(State()).(files := files)
      {
        if cancel == DuringScan(i) {
          ExitStop();
        }
        if cancelRequested {
          return;
        }
        files := files + [enumerated[i]];
        i := i + 1;
      }
      if cancel.DuringScan? {
        // Stop pressed after the last path was taken, before the scan's result is examined
        ExitStop();
      }
    }

    /**
     * The work for one file: read it, count the word, and record it when
     * the count is positive. A failed read records nothing.
     */
    method CountFile(disk: map<string, string>, file: string)
      modifies this`fileInfos
      ensures fileInfos == old(fileInfos) + AsSeq(Record(disk, file, word))
    {
      if file in disk {
        var count := WordCount(disk[file], word);
        if count > 0 {
          fileInfos := fileInfos + [FileInfo(DirectoryName(file), FileName(file), count)];
        }
      }
    }

    /** One tick of progress after a file is finished; the shown value only rises. */
    method AdvanceProgress()
      requires progress == Percent(progressValue) && progressTick >= 0.0
      modifies this`progressValue, this`progress
      ensures progressValue == old(progressValue) + progressTick
      ensures progress == Percent(progressValue) >= old(progress)
    {
      progressValue := progressValue + progressTick;
      var shown := Percent(progressValue);
      PercentMonotone(old(progressValue), progressValue);
      if shown > progress {
        progress := shown;
      }
    }

    /**
     * The search phase: results and progress are cleared, every cached file
     * is read and counted until the user stops the run, and the status ends
     * in Ready whether or not the run was stopped.
     */
    method Search(disk: map<string, string>, cancel: Cancel)
      requires Valid() && !cancelRequested
      requires |files| > 0 && progressTick == 100.0 / |files| as real
      modifies this
      ensures Valid()
      ensures State() == SearchSpec(old(State()), disk, cancel)
    {
      ClearInfo();
      status := Searching;
      AccumulatedWithinWhole(1, |files|);
      PercentRange(0.0);
      var done := SearchFiles(disk, cancel);
      if cancel.DuringSearch? {
        // the user pressed Stop after `done` files were finished
        ExitStop();
      }
      SearchedStateInv(State(), disk, done);
      status := Ready;
    }

    /**
     * The loop over the cached files. It returns how many files were
     * finished; once Stop is pressed no further file is started.
     */
    method SearchFiles(disk: map<string, string>, cancel: Cancel) returns (done: nat)
      requires progressTick >= 0.0
      requires fileInfos == [] && progressValue == 0.0 && progress == 0
      modifies this`fileInfos, this`progress, this`progressValue
      ensures done == SearchedCount(cancel, |files|)
      ensures fileInfos == Results(disk, files[..done], word)
      ensures progressValue == Accumulated(done, progressTick)
      ensures progress == Percent(progressValue)
    {
      PercentRange(0.0);
      done := 0;
      // a file is started only while no cancellation has been requested
      while done < |files| && cancel != DuringSearch(done)
        invariant 0 <= done <= |files|
        invariant cancel.DuringSearch? ==> done <= cancel.searched
        invariant fileInfos == Results(disk, files[..done], word)
        invariant progressValue == Accumulated(done, progressTick)
        invariant progress == Percent(progressValue)
      {
        FinishFile(disk, done);
        done := done + 1;
      }
    }

    /** The i-th file is read and counted, then one progress tick is added. */
    method FinishFile(disk: map<string, string>, i: nat)
      requires i < |files| && progressTick >= 0.0
      requires fileInfos == Results(disk, files[..i], word)
      requires progressValue == Accumulated(i, progressTick)
      requires progress == Percent(progressValue)
      modifies this`fileInfos, this`progress, this`progressValue
      ensures fileInfos == Results(disk, files[..i + 1], word)
      ensures progressValue == Accumulated(i + 1, progressTick)
      ensures progress == Percent(progressValue)
    {
      CountFile(disk, files[i]);
      ResultsStep(disk, files, i, word);
      AdvanceProgress();
    }
  }
}
