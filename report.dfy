/**
 * The text the Save command writes: a header naming the searched word, then
 * four lines per result (a rule of dashes, the file name, the directory and
 * the count). Only the lines are modelled; the dialog and the writer are not.
 */
module Report {
  import opened Decimal
  import opened FileInfoModel

  const NamePrefix: string := " File name  : "
  const PathPrefix: string := " File path  : "
  const CountPrefix: string := " Word count : "

  /** new string('-', n) */
  function Dashes(n: nat): (r: string)
    ensures |r| == n && forall k :: 0 <= k < n ==> r[k] == '-'
  {
    seq(n, _ => '-')
  }

  /** How many UTF-16 code units `c` takes: two above U+FFFF, one otherwise. */
  function CodeUnits(c: char): nat {
    if c as int > 0xFFFF then 2 else 1
  }

  /** The .NET `Length` of `s`, which counts UTF-16 code units. */
  function Utf16Length(s: string): (r: nat)
    ensures |s| <= r <= 2 * |s|
  {
    if s == [] then 0 else Utf16Length(s[..|s| - 1]) + CodeUnits(s[|s| - 1])
  }

  /** Within the Basic Multilingual Plane the .NET length is the character count. */
  lemma {:induction false} Utf16LengthOfBmp(s: string)
    requires forall k :: 0 <= k < |s| ==> s[k] as int <= 0xFFFF
    ensures Utf16Length(s) == |s|
  {
    if s != [] {
      Utf16LengthOfBmp(s[..|s| - 1]);
    }
  }

  /** A character outside the Basic Multilingual Plane counts twice. */
  lemma Utf16LengthOfAstralPath(p: string)
    requires p == "C:\\\U{20BB7}"
    ensures |p| == 4 && Utf16Length(p) == 5
  {
    assert p[3] as int == 0x20BB7;
    assert Utf16Length(p[..0]) == 0;
    assert p[..1][..0] == p[..0] && Utf16Length(p[..1]) == 1;
    assert p[..2][..1] == p[..1] && Utf16Length(p[..2]) == 2;
    assert p[..3][..2] == p[..2] && Utf16Length(p[..3]) == 3;
    assert p[..4][..3] == p[..3] && p[..4] == p;
  }

  function Header(word: string): string {
    " Searching word  -  \"" + word + "\""
  }

  /** The four lines written for one result. */
  function Entry(fi: FileInfo): seq<string> {
    [ Dashes(Utf16Length(fi.filePath) + 14),
      NamePrefix + fi.fileName,
      PathPrefix + fi.filePath,
      CountPrefix + IntString(fi.count) ]
  }

  /** The lines of each result, one block per result. */
  function Blocks(infos: seq<FileInfo>): seq<seq<string>> {
    seq(|infos|, k requires 0 <= k < |infos| => Entry(infos[k]))
  }

  function Flatten(blocks: seq<seq<string>>): seq<string> {
    if blocks == [] then [] else blocks[0] + Flatten(blocks[1..])
  }

  function Entries(infos: seq<FileInfo>): seq<string> {
    Flatten(Blocks(infos))
  }

  /** All lines of the report, in the order they are written. */
  function ReportLines(word: string, infos: seq<FileInfo>): seq<string> {
    [Header(word)] + Entries(infos)
  }

  /** Blocks of four lines each flatten to four lines per block, in order. */
  lemma {:induction false} FlattenAt(blocks: seq<seq<string>>, k: nat, j: nat)
    requires forall i :: 0 <= i < |blocks| ==> |blocks[i]| == 4
    requires k < |blocks| && j < 4
    ensures |Flatten(blocks)| == 4 * |blocks|
    ensures Flatten(blocks)[4 * k + j] == blocks[k][j]
  {
    FlattenLength(blocks);
    if k > 0 {
      FlattenAt(blocks[1..], k - 1, j);
    }
  }

  lemma {:induction false} FlattenLength(blocks: seq<seq<string>>)
    requires forall i :: 0 <= i < |blocks| ==> |blocks[i]| == 4
    ensures |Flatten(blocks)| == 4 * |blocks|
  {
    if blocks != [] {
      FlattenLength(blocks[1..]);
    }
  }

  /** Line j of the k-th result's block sits at 1 + 4k + j, after the header. */
  lemma LineAt(word: string, infos: seq<FileInfo>, k: nat, j: nat)
    requires k < |infos| && j < 4
    ensures |ReportLines(word, infos)| == 1 + 4 * |infos|
    ensures ReportLines(word, infos)[1 + 4 * k + j] == Entry(infos[k])[j]
  {
    FlattenAt(Blocks(infos), k, j);
  }

  /**
   * The report has one header line and exactly four lines per result; the
   * k-th result's rule is FilePath.Length + 14 dashes, and its other three lines
   * give back its name, its directory and its count.
   */
  lemma ReportLayout(word: string, infos: seq<FileInfo>, k: nat)
    requires k < |infos|
    ensures |ReportLines(word, infos)| == 1 + 4 * |infos|
    ensures ReportLines(word, infos)[0] == Header(word)
    ensures ReportLines(word, infos)[1 + 4 * k] == Dashes(Utf16Length(infos[k].filePath) + 14)
    ensures ReportLines(word, infos)[2 + 4 * k] == NamePrefix + infos[k].fileName
    ensures ReportLines(word, infos)[3 + 4 * k] == PathPrefix + infos[k].filePath
    ensures ReportLines(word, infos)[4 + 4 * k] == CountPrefix + IntString(infos[k].count)
  {
    var e := Entry(infos[k]);
    assert e[0] == Dashes(Utf16Length(infos[k].filePath) + 14);
    LineAt(word, infos, k, 0);
    LineAt(word, infos, k, 1);
    LineAt(word, infos, k, 2);
    LineAt(word, infos, k, 3);
  }

  /** The count line of a result reads back as that result's count. */
  lemma CountLineReadsBack(word: string, infos: seq<FileInfo>, k: nat)
    requires k < |infos| && infos[k].count >= 0
    ensures 4 + 4 * k < |ReportLines(word, infos)|
    ensures var line := ReportLines(word, infos)[4 + 4 * k];
      |line| >= |CountPrefix| && line[..|CountPrefix|] == CountPrefix
      && AllDigits(line[|CountPrefix|..])
      && NatValue(line[|CountPrefix|..]) == infos[k].count
  {
    ReportLayout(word, infos, k);
    var line := ReportLines(word, infos)[4 + 4 * k];
    assert line[|CountPrefix|..] == NatString(infos[k].count);
    NatValueOfNatString(infos[k].count);
  }
}
