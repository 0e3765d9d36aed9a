/**
 * What the search phase records: for every file that was read, a FileInfo
 * when the word occurs in it at least once, and nothing otherwise. The file
 * system is a map from path to text; a path without an entry is a file whose
 * read failed.
 */
module Search {
  import opened Wrappers
  import opened Tokenizer
  import opened PathNames
  import opened FileInfoModel

  /** The outcome of reading one file: its text, or None when the read throws. */
  function ReadFile(disk: map<string, string>, path: string): Option<string> {
    if path in disk then Some(disk[path]) else None
  }

  /** The record one file contributes, if any. */
  function Record(disk: map<string, string>, path: string, word: string): Option<FileInfo> {
    match ReadFile(disk, path)
    case None => None
    case Some(text) =>
      var n := WordCount(text, word);
      if n > 0 then Some(FileInfo(DirectoryName(path), FileName(path), n)) else None
  }

  function AsSeq(r: Option<FileInfo>): seq<FileInfo> {
    if r.Some? then [r.value] else []
  }

  /** The record of each file of `files`, in the same order. */
  function Outcomes(disk: map<string, string>, files: seq<string>, word: string): seq<Option<FileInfo>> {
    seq(|files|, k requires 0 <= k < |files| => Record(disk, files[k], word))
  }

  /** The present records of `rs`, in order. */
  function Present(rs: seq<Option<FileInfo>>): (r: seq<FileInfo>)
    ensures |r| <= |rs|
  {
    if rs == [] then [] else Present(rs[..|rs| - 1]) + AsSeq(rs[|rs| - 1])
  }

  /** The records of `files`, file by file: the list the search phase builds. */
  function Results(disk: map<string, string>, files: seq<string>, word: string): (r: seq<FileInfo>)
    ensures |r| <= |files|
  {
    Present(Outcomes(disk, files, word))
  }

  /**
   * A record exists for a file exactly when the file was read, and then it
   * names the file's directory and name and holds its word count, which is
   * at least 1.
   */
  lemma RecordCharacterized(disk: map<string, string>, path: string, word: string, fi: FileInfo)
    ensures Record(disk, path, word) == Some(fi) <==>
      path in disk && fi.count == WordCount(disk[path], word) && fi.count >= 1
      && fi.filePath == DirectoryName(path) && fi.fileName == FileName(path)
  {
  }

  /** A file whose read fails, or whose count is 0, contributes nothing. */
  lemma NoRecordForFailedRead(disk: map<string, string>, path: string, word: string)
    requires path !in disk || WordCount(disk[path], word) == 0
    ensures Record(disk, path, word) == None
  {
  }

  lemma {:induction false} PresentAppend(a: seq<Option<FileInfo>>, b: seq<Option<FileInfo>>)
    ensures Present(a + b) == Present(a) + Present(b)
    decreases |b|
  {
    if b == [] {
      assert a + b == a;
    } else {
      var b' := b[..|b| - 1];
      assert (a + b)[..|a + b| - 1] == a + b';
      assert (a + b)[|a + b| - 1] == b[|b| - 1];
      PresentAppend(a, b');
    }
  }

  lemma {:induction false} PresentMembership(rs: seq<Option<FileInfo>>, fi: FileInfo)
    ensures fi in Present(rs) <==> Some(fi) in rs
  {
    if rs != [] {
      var init := rs[..|rs| - 1];
      PresentMembership(init, fi);
      assert rs == init + [rs[|rs| - 1]];
    }
  }

  lemma {:induction false} PresentEmpty(rs: seq<Option<FileInfo>>)
    ensures Present(rs) == [] <==> forall k :: 0 <= k < |rs| ==> rs[k] == None
  {
    if rs != [] {
      var init := rs[..|rs| - 1];
      PresentEmpty(init);
      assert forall k :: 0 <= k < |init| ==> init[k] == rs[k];
    }
  }

  lemma OutcomesAppend(disk: map<string, string>, a: seq<string>, b: seq<string>, word: string)
    ensures Outcomes(disk, a + b, word) == Outcomes(disk, a, word) + Outcomes(disk, b, word)
  {
  }

  /** The records of a concatenation are the records of its parts, in order. */
  lemma ResultsAppend(disk: map<string, string>, a: seq<string>, b: seq<string>, word: string)
    ensures Results(disk, a + b, word) == Results(disk, a, word) + Results(disk, b, word)
  {
    OutcomesAppend(disk, a, b, word);
    PresentAppend(Outcomes(disk, a, word), Outcomes(disk, b, word));
  }

  /** Some file of `files` produces `fi`. */
  predicate Produced(disk: map<string, string>, files: seq<string>, word: string, fi: FileInfo) {
    exists k :: 0 <= k < |files| && Record(disk, files[k], word) == Some(fi)
  }

  /**
   * The records are exactly the records of the individual files: a FileInfo
   * is in the result list iff some file of the list produces it.
   */
  lemma ResultsMembership(disk: map<string, string>, files: seq<string>, word: string, fi: FileInfo)
    ensures fi in Results(disk, files, word) <==> Produced(disk, files, word, fi)
  {
    var rs := Outcomes(disk, files, word);
    PresentMembership(rs, fi);
    if Some(fi) in rs {
      var k :| 0 <= k < |rs| && rs[k] == Some(fi);
      assert Record(disk, files[k], word) == Some(fi);
    }
    if Produced(disk, files, word, fi) {
      var k :| 0 <= k < |files| && Record(disk, files[k], word) == Some(fi);
      assert rs[k] == Some(fi);
    }
  }

  /** Every stored FileInfo has a count of at least 1. */
  lemma ResultsCountPositive(disk: map<string, string>, files: seq<string>, word: string)
    ensures forall fi :: fi in Results(disk, files, word) ==> fi.count >= 1
  {
    forall fi | fi in Results(disk, files, word) ensures fi.count >= 1 {
      ResultsMembership(disk, files, word, fi);
      var k :| 0 <= k < |files| && Record(disk, files[k], word) == Some(fi);
      RecordCharacterized(disk, files[k], word, fi);
    }
  }

  /** No file of the list is read with a match. */
  predicate NoMatches(disk: map<string, string>, files: seq<string>, word: string) {
    forall k :: 0 <= k < |files| ==> Record(disk, files[k], word) == None
  }

  /** The result list is empty exactly when no file of the list is read with a match. */
  lemma ResultsEmpty(disk: map<string, string>, files: seq<string>, word: string)
    ensures Results(disk, files, word) == [] <==> NoMatches(disk, files, word)
  {
    var rs := Outcomes(disk, files, word);
    PresentEmpty(rs);
    assert forall k :: 0 <= k < |files| ==> rs[k] == Record(disk, files[k], word);
  }

  /** The records of the first i + 1 files extend those of the first i by the (i+1)-th file's record. */
  lemma ResultsStep(disk: map<string, string>, files: seq<string>, i: nat, word: string)
    requires i < |files|
    ensures Results(disk, files[..i + 1], word) == Results(disk, files[..i], word) + AsSeq(Record(disk, files[i], word))
  {
    assert files[..i + 1] == files[..i] + [files[i]];
    ResultsAppend(disk, files[..i], [files[i]], word);
    assert Outcomes(disk, [files[i]], word) == [Record(disk, files[i], word)];
    assert Present([Record(disk, files[i], word)]) == Present([]) + AsSeq(Record(disk, files[i], word));
  }

  /** Stopping after the first n files keeps a prefix of the full result list. */
  lemma ResultsOfPrefix(disk: map<string, string>, files: seq<string>, n: nat, word: string)
    requires n <= |files|
    ensures Results(disk, files[..n], word) <= Results(disk, files, word)
  {
    ResultsAppend(disk, files[..n], files[n..], word);
    assert files[..n] + files[n..] == files;
  }
}
