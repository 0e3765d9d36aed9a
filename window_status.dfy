/**
 * The status of the window model and everything the window derives from it
 * alone: the status line, the progress caption, the progress-bar mode, the
 * caption of the Exit/Stop button and the enable conditions of the commands.
 */
module WindowStatus {
  import opened Wrappers
  import opened Decimal
  import opened FileInfoModel

  datatype Status = Idle | Scaning | Ready | Searching | Cancellation

  /** Both states in which no scan or search is running. */
  predicate IsQuiet(s: Status) {
    s == Idle || s == Ready
  }

  const ReadyPrefix: string := "Ready to word searching ... "
  const ReadySuffix: string := " files were found in the directory to search"

  /** The status line; in Ready it reports how many files the scan found. */
  function DisplayStatus(s: Status, fileCount: nat): string {
    match s
    case Cancellation => "Cancellation process..."
    case Scaning => "Scaning directory..."
    case Searching => "Word searching..."
    case Ready => ReadyPrefix + NatString(fileCount) + ReadySuffix
    case Idle => "Ready to directory scaning..."
  }

  /** The caption next to the progress bar: none (null) while progress is 0. */
  function ProgressStr(progress: int): Option<string> {
    if progress == 0 then None else Some(IntString(progress) + " %")
  }

  /** The progress bar runs in indeterminate mode during the directory scan. */
  predicate ProgressBarIndeterminate(s: Status) {
    s == Scaning
  }

  function ExitStopButtonName(s: Status): string {
    if s == Idle || s == Ready then "Exit" else if s == Cancellation then "Cancellation ..." else "Stop"
  }

  // The enable conditions (CanExecute) of the window's commands.

  predicate OpenDirectoryEnabled(s: Status) {
    s == Ready || s == Idle
  }

  /** `pathExists` stands for Path.Exists(DirectoryPath). */
  predicate ScanFindEnabled(s: Status, pathExists: bool, word: string) {
    (s == Ready || s == Idle) && pathExists && word != ""
  }

  predicate ExitStopEnabled(s: Status) {
    s != Cancellation
  }

  predicate SaveResultEnabled(fileInfos: seq<FileInfo>) {
    |fileInfos| > 0
  }

  // ---------------------------------------------------------------------

  /** The button reads Exit exactly in the quiet states, Stop exactly while work runs. */
  lemma ExitStopButtonNameCases(s: Status)
    ensures ExitStopButtonName(s) == "Exit" <==> IsQuiet(s)
    ensures ExitStopButtonName(s) == "Cancellation ..." <==> s == Cancellation
    ensures ExitStopButtonName(s) == "Stop" <==> s == Scaning || s == Searching
  {
  }

  /** The caption is absent exactly at 0 and otherwise names the percentage it shows. */
  lemma ProgressStrCases(p: int, q: int)
    ensures ProgressStr(p) == None <==> p == 0
    ensures ProgressStr(p) == ProgressStr(q) ==> p == q
  {
    if ProgressStr(p) == ProgressStr(q) && p != 0 && q != 0 {
      var sp, sq := ProgressStr(p).value, ProgressStr(q).value;
      assert sp[..|sp| - 2] == IntString(p);
      assert sq[..|sq| - 2] == IntString(q);
      IntStringInjective(p, q);
    }
  }

  /** The line starts like the Ready line and is long enough to carry its suffix. */
  predicate LooksLikeReadyLine(line: string) {
    |line| >= |ReadyPrefix| + |ReadySuffix| && line[..|ReadyPrefix|] == ReadyPrefix
  }

  lemma ReadyLineShape(s: Status, m: nat)
    ensures LooksLikeReadyLine(DisplayStatus(s, m)) <==> s == Ready
  {
    if s == Ready {
      assert DisplayStatus(s, m)[..|ReadyPrefix|] == ReadyPrefix;
    }
  }

  /** Each status has its own status line, and the Ready line tells the file count. */
  lemma DisplayStatusInjective(s: Status, m: nat, t: Status, n: nat)
    requires DisplayStatus(s, m) == DisplayStatus(t, n)
    ensures s == t
    ensures s == Ready ==> m == n
  {
    var line := DisplayStatus(s, m);
    ReadyLineShape(s, m);
    ReadyLineShape(t, n);
    if s == Ready {
      assert NatString(m) == line[|ReadyPrefix|..|line| - |ReadySuffix|];
      assert NatString(n) == line[|ReadyPrefix|..|line| - |ReadySuffix|];
      NatStringInjective(m, n);
    }
  }

  /**
   * Opening a directory and starting a search are offered only when the
   * Exit/Stop button reads Exit; during the scan the bar is indeterminate
   * and only Stop is offered.
   */
  lemma GuardsAgreeWithCaptions(s: Status, pathExists: bool, word: string)
    ensures ScanFindEnabled(s, pathExists, word) ==> OpenDirectoryEnabled(s)
    ensures OpenDirectoryEnabled(s) <==> ExitStopButtonName(s) == "Exit"
    ensures ExitStopEnabled(s) <==> ExitStopButtonName(s) != "Cancellation ..."
    ensures ProgressBarIndeterminate(s) ==>
      !OpenDirectoryEnabled(s) && ExitStopEnabled(s) && ExitStopButtonName(s) == "Stop"
  {
  }
}
