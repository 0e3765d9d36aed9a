/**
 * Properties of the window model's operations, stated on the values the
 * methods of WindowModel.Model are proved to compute.
 */
module WindowProperties {
  import opened Wrappers
  import opened Tokenizer
  import opened PathNames
  import opened FileInfoModel
  import opened Search
  import opened Progress
  import opened WindowStatus
  import opened WindowModel

  /**
   * A search run ends in Idle exactly when it started in Idle and the scan
   * was stopped or found nothing; otherwise it ends in Ready. A run that
   * ends in Idle leaves results and progress alone and has cached a prefix
   * of the enumerated paths; a run from Ready keeps the cached list.
   */
  lemma FindWordOutcome(s: Snapshot, enumerated: seq<string>, disk: map<string, string>, cancel: Cancel)
    requires IsQuiet(s.status)
    ensures var r := FindWordSpec(s, enumerated, disk, cancel);
      && (r.status == Idle <==> s.status == Idle && (cancel.DuringScan? || enumerated == []))
      && (r.status == Ready <==> !(s.status == Idle && (cancel.DuringScan? || enumerated == [])))
      && (r.status == Idle ==>
            r.fileInfos == s.fileInfos && r.progress == s.progress && r.files <= enumerated
            && r.cancelRequested == cancel.DuringScan?)
      && (s.status == Ready ==> r.files == s.files && r.progressTick == s.progressTick)
      && (s.status == Idle && r.status == Ready ==>
            r.files == enumerated && r.progressTick == 100.0 / |enumerated| as real)
      && (r.status == Ready ==>
            r.fileInfos == Results(disk, r.files[..SearchedCount(cancel, |r.files|)], s.word)
            && r.cancelRequested == cancel.DuringSearch?)
      && r.word == s.word && r.directoryPath == s.directoryPath
      && r.shutdownRequested == s.shutdownRequested
  {
  }

  /** A run keeps the invariant and returns to one of the two quiet states. */
  lemma FindWordKeepsInv(s: Snapshot, enumerated: seq<string>, disk: map<string, string>, cancel: Cancel)
    requires Inv(s) && IsQuiet(s.status)
    ensures Inv(FindWordSpec(s, enumerated, disk, cancel))
    ensures IsQuiet(FindWordSpec(s, enumerated, disk, cancel).status)
  {
    var r := FindWordSpec(s, enumerated, disk, cancel);
    if r.status == Ready {
      var n := SearchedCount(cancel, |r.files|);
      ResultsCountPositive(disk, r.files[..n], s.word);
      AccumulatedWithinWhole(n, |r.files|);
      PercentRange(Accumulated(n, r.progressTick));
    }
  }

  /**
   * A run that nobody stops and that reaches the search phase records every
   * cached file's result and shows 100 percent at the end.
   */
  lemma UnstoppedRunCompletes(s: Snapshot, enumerated: seq<string>, disk: map<string, string>)
    requires Inv(s) && IsQuiet(s.status)
    requires s.status == Ready || enumerated != []
    ensures var r := FindWordSpec(s, enumerated, disk, Never);
      r.status == Ready && r.progress == 100 && !r.cancelRequested
      && r.fileInfos == Results(disk, r.files, s.word)
  {
    var r := FindWordSpec(s, enumerated, disk, Never);
    assert r.files[..|r.files|] == r.files;
    AccumulatedWithinWhole(|r.files|, |r.files|);
    PercentRange(100.0);
  }

  lemma {:induction false} AccumulatedMonotone(i: nat, j: nat, tick: real)
    requires i <= j && tick >= 0.0
    ensures Accumulated(i, tick) <= Accumulated(j, tick)
    decreases j
  {
    if i < j {
      AccumulatedMonotone(i, j - 1, tick);
    }
  }

  /**
   * Stopping a search early keeps a prefix of the results the unstopped run
   * would have recorded, and never shows more progress.
   */
  lemma StoppedSearchIsPrefix(s: Snapshot, enumerated: seq<string>, disk: map<string, string>, k: nat)
    requires Inv(s) && IsQuiet(s.status)
    ensures var stopped := FindWordSpec(s, enumerated, disk, DuringSearch(k));
      var full := FindWordSpec(s, enumerated, disk, Never);
      stopped.files == full.files
      && stopped.fileInfos <= full.fileInfos
      && stopped.progress <= full.progress
  {
    var stopped := FindWordSpec(s, enumerated, disk, DuringSearch(k));
    var full := FindWordSpec(s, enumerated, disk, Never);
    if full.status == Ready {
      var files := full.files;
      var n := Min(k, |files|);
      ResultsOfPrefix(disk, files, n, s.word);
      assert files[..|files|] == files;
      AccumulatedWithinWhole(1, |files|);
      AccumulatedMonotone(n, |files|, full.progressTick);
      PercentMonotone(Accumulated(n, full.progressTick), Accumulated(|files|, full.progressTick));
    }
  }

  /**
   * Files exist but none holds the word: the run still ends in Ready with
   * 100 percent, the result list is empty and Save is not offered.
   */
  lemma NoMatchesRun(s: Snapshot, enumerated: seq<string>, disk: map<string, string>)
    requires Inv(s) && s.status == Idle && enumerated != []
    requires NoMatches(disk, enumerated, s.word)
    ensures var r := FindWordSpec(s, enumerated, disk, Never);
      r.status == Ready && r.fileInfos == [] && r.progress == 100
      && !SaveResultEnabled(r.fileInfos)
  {
    UnstoppedRunCompletes(s, enumerated, disk);
    ResultsEmpty(disk, enumerated, s.word);
  }

  /** Opening a directory always lands in Idle with no results and no progress caption. */
  lemma OpenDirectoryResets(s: Snapshot, selected: Option<string>)
    requires Inv(s)
    ensures var r := OpenDirectorySpec(s, selected);
      Inv(r)
      && (selected.Some? ==>
            r.status == Idle && r.fileInfos == [] && r.progress == 0
            && r.directoryPath == selected.value && r.files == s.files
            && ProgressStr(r.progress) == None && !SaveResultEnabled(r.fileInfos))
      && (selected.None? ==> r == s)
  {
  }

  /**
   * Exit/Stop in a quiet state only asks the application to shut down;
   * while work runs it cancels and moves to Cancellation, where the button
   * is disabled.
   */
  lemma ExitStopBehaviour(s: Snapshot)
    ensures var r := ExitStopSpec(s);
      (IsQuiet(s.status) ==> r.status == s.status && r.shutdownRequested
                             && r.cancelRequested == s.cancelRequested)
      && (!IsQuiet(s.status) ==>
            r.status == Cancellation && r.cancelRequested && !ExitStopEnabled(r.status)
            && ExitStopButtonName(r.status) == "Cancellation ...")
      && r.fileInfos == s.fileInfos && r.files == s.files && r.progress == s.progress
  {
  }

  // ---------------------------------------------------------------------
  // Sessions: what the user can do, gated by the command guards

  datatype Action =
    | TypeWord(w: string)
      /** The folder dialog, with the folder chosen (None: dismissed). */
    | OpenFolder(selected: Option<string>)
      /** The search button; `pathExists` is Path.Exists(DirectoryPath). */
    | Find(pathExists: bool, enumerated: seq<string>, disk: map<string, string>, cancel: Cancel)
    | PressExitStop

  /** One user action; a command whose guard is off does nothing. */
  function Step(s: Snapshot, a: Action): Snapshot {
    match a
    case TypeWord(w) => s.(word := w)
    case OpenFolder(selected) =>
      if OpenDirectoryEnabled(s.status) then OpenDirectorySpec(s, selected) else s
    case Find(pathExists, enumerated, disk, cancel) =>
      if ScanFindEnabled(s.status, pathExists, s.word) then FindWordSpec(s, enumerated, disk, cancel) else s
    case PressExitStop =>
      if ExitStopEnabled(s.status) then ExitStopSpec(s) else s
  }

  function Run(s: Snapshot, actions: seq<Action>): Snapshot
    decreases |actions|
  {
    if actions == [] then s else Run(Step(s, actions[0]), actions[1..])
  }

  /**
   * From the initial state, every sequence of user actions keeps the
   * invariant and, between actions, the model is always Idle or Ready.
   */
  lemma {:induction false} RunKeepsInv(s: Snapshot, actions: seq<Action>)
    requires Inv(s) && IsQuiet(s.status)
    ensures Inv(Run(s, actions)) && IsQuiet(Run(s, actions).status)
    decreases |actions|
  {
    if actions != [] {
      var a := actions[0];
      if a.Find? && ScanFindEnabled(s.status, a.pathExists, s.word) {
        FindWordKeepsInv(s, a.enumerated, a.disk, a.cancel);
      }
      RunKeepsInv(Step(s, a), actions[1..]);
    }
  }

  lemma InitialSessionsStayQuiet(actions: seq<Action>)
    ensures Inv(Run(Initial, actions)) && IsQuiet(Run(Initial, actions).status)
  {
    RunKeepsInv(Initial, actions);
  }

  // ---------------------------------------------------------------------
  // A worked run

  lemma RecordOfRead(disk: map<string, string>, path: string, word: string, n: nat)
    requires path in disk && WordCount(disk[path], word) == n > 0
    ensures Record(disk, path, word) == Some(FileInfo(DirectoryName(path), FileName(path), n))
  {
  }

  lemma ScenarioWordsWellFormed()
    ensures forall t :: t in ["the", "cat", "sat", "dog"] ==> t != "" && DelimiterFree(t)
  {
  }

  lemma CatCountA()
    ensures WordCount("the cat sat", "cat") == 1
  {
    var tokens := ["the", "cat", "sat"];
    ScenarioWordsWellFormed();
    TokenizeJoinSpaced(tokens);
    assert JoinSpaced(tokens) == "the cat sat";
  }

  lemma CatCountB()
    ensures WordCount("cat cat dog", "cat") == 2
  {
    var tokens := ["cat", "cat", "dog"];
    ScenarioWordsWellFormed();
    TokenizeJoinSpaced(tokens);
    assert JoinSpaced(tokens) == "cat cat dog";
  }

  lemma CatPaths(a: string, b: string)
    requires a == "root\\A.txt" && b == "root\\B.txt"
    ensures DirectoryName(a) == "root" && FileName(a) == "A.txt"
    ensures DirectoryName(b) == "root" && FileName(b) == "B.txt"
  {
    assert IsSeparator(a[4]) && IsSeparator(b[4]);
  }

  lemma CatRecordA(a: string, disk: map<string, string>)
    requires a == "root\\A.txt" && a in disk && disk[a] == "the cat sat"
    ensures Record(disk, a, "cat") == Some(FileInfo("root", "A.txt", 1))
  {
    CatCountA();
    CatPaths(a, "root\\B.txt");
    RecordOfRead(disk, a, "cat", 1);
  }

  lemma CatRecordB(b: string, disk: map<string, string>)
    requires b == "root\\B.txt" && b in disk && disk[b] == "cat cat dog"
    ensures Record(disk, b, "cat") == Some(FileInfo("root", "B.txt", 2))
  {
    CatCountB();
    CatPaths("root\\A.txt", b);
    RecordOfRead(disk, b, "cat", 2);
  }

  lemma CatResults(a: string, b: string, disk: map<string, string>)
    requires a == "root\\A.txt" && b == "root\\B.txt"
    requires a in disk && disk[a] == "the cat sat"
    requires b in disk && disk[b] == "cat cat dog"
    ensures Results(disk, [a, b], "cat") == [FileInfo("root", "A.txt", 1), FileInfo("root", "B.txt", 2)]
  {
    CatRecordA(a, disk);
    CatRecordB(b, disk);
    var files := [a, b];
    ResultsStep(disk, files, 0, "cat");
    ResultsStep(disk, files, 1, "cat");
    assert files[..0] == [] && files[..2] == files;
  }

  /**
   * Two text files "the cat sat" and "cat cat dog" under `root`, searched
   * for "cat" (other files, such as a .log file, are not enumerated): both
   * are recorded, with counts 1 and 2, and progress ends at 100.
   */
  lemma CatScenario(s: Snapshot, a: string, b: string, disk: map<string, string>)
    requires Inv(s) && s.status == Idle && s.word == "cat"
    requires a == "root\\A.txt" && b == "root\\B.txt"
    requires a in disk && disk[a] == "the cat sat"
    requires b in disk && disk[b] == "cat cat dog"
    ensures var r := FindWordSpec(s, [a, b], disk, Never);
      r.status == Ready && r.progress == 100
      && r.fileInfos == [FileInfo("root", "A.txt", 1), FileInfo("root", "B.txt", 2)]
  {
    UnstoppedRunCompletes(s, [a, b], disk);
    FindWordOutcome(s, [a, b], disk, Never);
    CatResults(a, b, disk);
  }
}
