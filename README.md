# WordFinder window model in Dafny

WordFinder is a desktop tool for finding a word in text files. The user
opens a folder, types a word and presses the search button. The window then:

- scans the folder recursively for `*.txt` files;
- reads each file;
- splits the file's text on twelve delimiter characters and counts the pieces
  that equal the word exactly;
- lists every file whose count is positive, together with its directory and
  the count;
- shows a progress percentage while it works.

A single Exit/Stop button either quits, when nothing is running, or cancels
the running scan or search. The result list can be saved as a small text
report.

This project models the window model behind that window: `WindowModel` and
its `FileInfo` rows.

- `Tokenizer`: the split on the delimiter set and the word count. Proved
  properties:
  - tokens are never empty;
  - tokens hold no delimiter;
  - the tokens glue back to the text with its delimiters stripped;
  - the count is the multiplicity of the word among the tokens;
  - a word that is empty or holds a delimiter never counts;
  - counting is additive across a delimiter;
  - a round trip through space-joined tokens gives the tokens back.
- `PathNames`: the file-name and directory parts of a matching file's path.
- `Decimal`: integers as string interpolation writes them, with their inverse.
- `Progress`: the shown percentage. It is `(int)Math.Round(value, 1)`, with the
  midpoint rounded to even, over an accumulator that gains `100 / n` per
  finished file.
- `Search`: the record each file contributes and the result list of a run.
- `WindowStatus`: the five statuses, and what the window derives from a status
  alone: the status line, the progress caption, the progress-bar mode, the
  Exit/Stop caption and the command guards.
- `Report`: the lines of the saved report. String lengths there count UTF-16
  code units, as .NET does; a path holding a lone surrogate cannot be
  represented in the model.
- `WindowModel`: the window model as a class, `WindowModel.Model`.
  - Its fields are those of the source, with two stand-ins:
    `cancelRequested` for the cancellation token source and
    `shutdownRequested` for the `Shutdown` call. The progress event, the
    token source and the token have no field.
  - Its methods (`OpenDirectory`, `ExitStop`, `FindWord` with its scan and
    search phases, `ClearInfo`, the `Word` setter) update them in place.
  - Each method is proved against a function on a `Snapshot` value of the
    fields.
  - Every command (the constructor, `OpenDirectory`, `ExitStop`,
    `FindWord`) keeps the invariant `Inv`:
    - every result has a count of at least 1;
    - the progress lies in 0..100;
    - in Ready the cached file list is non-empty and the tick is
      `100 / |files|`.
- `WindowProperties`: properties of whole runs, stated on those functions:
  - outcomes of a run from Idle and from Ready;
  - a stopped search keeps a prefix of the full result list;
  - a run that finds no matches still reaches 100 percent;
  - every guard-respecting sequence of user actions stays in Idle or Ready
    and keeps the invariant;
  - a worked example with two files.

The asynchronous search is one sequential run in the model:

- The directory walk is given as the sequence of paths it enumerates.
- The file system is a map from path to text. A path without an entry is a
  read that throws.
- The moment the user presses Stop, if at all, is a `Cancel` value. At that
  moment the run calls `ExitStop` itself, as the button would.

Three behaviours of the code that a reader may not expect:

- After a successful scan, the code goes straight into the search, without
  stopping in Ready. Ready is reached only after a search.
- The shown percentage is the accumulator rounded to one decimal and then
  truncated, not the completed fraction rounded to a whole percent.
- A stopped scan leaves the partial list in `files`, and the status returns to
  Idle. The list is never searched, because the next search from Idle scans
  again.

## Model

| member | source | states |
|---|---|---|
| Tokenizer.Pieces | WordFinder/Models/WindowModel.cs:143 | splitting yields exactly one more piece than the text has delimiter characters |
| Tokenizer.NonEmpty | WordFinder/Models/WindowModel.cs:143 | dropping empty entries keeps no empty piece and never adds one |
| Tokenizer.PiecesDelimiterFree | WordFinder/Models/WindowModel.cs:50 | no piece of the split holds any of the twelve delimiter characters |
| Tokenizer.ConcatPieces | WordFinder/Models/WindowModel.cs:143 | the pieces glued in order give the text with its delimiters removed |
| Tokenizer.ConcatNonEmpty | WordFinder/Models/WindowModel.cs:143 | removing empty entries loses no character |
| Tokenizer.TokensWellFormed | WordFinder/Models/WindowModel.cs:143 | every token is non-empty and delimiter-free, and the tokens glue back to the stripped text |
| Tokenizer.PiecesSplit | WordFinder/Models/WindowModel.cs:143 | the split of a text around one delimiter is the split of its left part followed by that of its right part |
| Tokenizer.TokenizeSplit | WordFinder/Models/WindowModel.cs:143 | the tokens of a text around one delimiter are the tokens of either side, in order |
| Tokenizer.TokenizeWord | WordFinder/Models/WindowModel.cs:143 | a non-empty text without delimiters is a single token |
| Tokenizer.TokenizeJoinSpaced | WordFinder/Models/WindowModel.cs:143 | well-formed tokens joined with spaces tokenize back to the same tokens |
| Tokenizer.RetokenizeIsIdentity | WordFinder/Models/WindowModel.cs:143 | the space-joined tokens of any text tokenize back to the same tokens |
| Tokenizer.Occurrences | WordFinder/Models/WindowModel.cs:144 | the number of tokens equal to the word is at most the token count, and 0 when the word is not among them |
| Tokenizer.OccurrencesIsMultiplicity | WordFinder/Models/WindowModel.cs:144 | counting the equal tokens gives the word's multiplicity in the token multiset |
| Tokenizer.OccurrencesAppend | WordFinder/Models/WindowModel.cs:144 | counting is additive over concatenated token lists |
| Tokenizer.WordCountIsMultiplicity | WordFinder/Models/WindowModel.cs:143-144 | a file's word count is the multiplicity of the word among its tokens and never exceeds the token count |
| Tokenizer.WordCountZeroForUnsplittableWord | WordFinder/Models/WindowModel.cs:143-144 | an empty word, or one holding a delimiter, counts 0 in every text |
| Tokenizer.WordCountSplit | WordFinder/Models/WindowModel.cs:143-144 | the count in a text around a delimiter is the sum of the counts on either side |
| PathNames.LastSeparator | WordFinder/Models/WindowModel.cs:152-153 | finds the last '\' or '/' of the path: none exactly when there is no separator, otherwise an index holding one with none after it |
| PathNames.SplitPath | WordFinder/Models/WindowModel.cs:152-153 | the file name holds no separator; directory, separator and file name put together give the path back; without a separator the directory is empty and the name is the path |
| Decimal.NatString | WordFinder/Models/WindowModel.cs:87 | a non-negative number is written as at least one decimal digit, with no leading zero unless it is 0 |
| Decimal.NatValueOfNatString | WordFinder/Models/WindowModel.cs:87 | reading the written digits back gives the number |
| Decimal.NatStringInjective | WordFinder/Models/WindowModel.cs:239 | different file counts are written differently |
| Decimal.IntStringSign | WordFinder/Models/WindowModel.cs:244 | the written integer is non-empty and starts with '-' exactly when it is negative |
| Decimal.IntStringInjective | WordFinder/Models/WindowModel.cs:244 | different integers are written differently |
| Progress.RoundHalfEven | WordFinder/Models/WindowModel.cs:163 | rounding lands within one half of the value, and an exact midpoint goes to the even neighbour |
| Progress.TruncateTenths | WordFinder/Models/WindowModel.cs:163 | the cast to int drops the fraction of a tenth-valued number toward zero |
| Progress.RoundHalfEvenMonotone | WordFinder/Models/WindowModel.cs:163 | rounding never reverses order |
| Progress.PercentMonotone | WordFinder/Models/WindowModel.cs:163-164 | a larger accumulator never shows a smaller percentage |
| Progress.PercentRange | WordFinder/Models/WindowModel.cs:161-165 | an accumulator of 0 shows 0, one of 100 shows 100, and any value between stays within 0..100 |
| Progress.PercentNearWhole | WordFinder/Models/WindowModel.cs:163 | every accumulator from 99.95 to 100 shows 100, while 99.94 shows 99 |
| Progress.AccumulatedIsProduct | WordFinder/Models/WindowModel.cs:161 | adding the tick k times gives k times the tick |
| Progress.AccumulatedWithinWhole | WordFinder/Models/WindowModel.cs:117 | with a tick of 100 / n, up to n additions stay within 0..100 and exactly n additions give 100 |
| Report.Utf16Length | WordFinder/Models/WindowModel.cs:84 | the .NET length of a path lies between its character count and twice that |
| Report.Utf16LengthOfBmp | WordFinder/Models/WindowModel.cs:84 | for a path without characters above U+FFFF the .NET length is the character count |
| Report.Utf16LengthOfAstralPath | WordFinder/Models/WindowModel.cs:84 | C:\ followed by U+20BB7 has 4 characters but a .NET length of 5 |
| Report.Dashes | WordFinder/Models/WindowModel.cs:84 | the rule has the requested length and holds only dashes |
| Report.LineAt | WordFinder/Models/WindowModel.cs:81-88 | the report has 1 + 4·(results) lines, and line j of the k-th result's block sits at 1 + 4k + j |
| Report.ReportLayout | WordFinder/Models/WindowModel.cs:81-88 | one header naming the word, then for each result in order: a rule of FilePath.Length + 14 dashes (the length counted in UTF-16 code units, as .NET counts it), its name line, its path line and its count line |
| Report.CountLineReadsBack | WordFinder/Models/WindowModel.cs:87 | the count line of each result starts with its label and the rest reads back as the count |
| Search.Results | WordFinder/Models/WindowModel.cs:136-156 | a run records at most one FileInfo per file |
| Search.RecordCharacterized | WordFinder/Models/WindowModel.cs:142-156 | a file yields a record iff it was read and its count is at least 1, and the record holds its directory, name and count |
| Search.NoRecordForFailedRead | WordFinder/Models/WindowModel.cs:142 | a failed read, or a count of 0, adds nothing |
| Search.ResultsAppend | WordFinder/Models/WindowModel.cs:136 | the results of two runs of files in a row are the results of each, in order |
| Search.ResultsMembership | WordFinder/Models/WindowModel.cs:146-156 | a FileInfo is in the result list iff some file of the list yields it |
| Search.ResultsCountPositive | WordFinder/Models/WindowModel.cs:146-155 | every stored FileInfo has a count of at least 1 |
| Search.ResultsEmpty | WordFinder/Models/WindowModel.cs:170 | the result list is empty iff no file of the list is read with a match |
| Search.ResultsStep | WordFinder/Models/WindowModel.cs:146-156 | finishing one more file appends that file's record, if any, and nothing else |
| Search.ResultsOfPrefix | WordFinder/Models/WindowModel.cs:136-138 | the results of the first n files are a prefix of the results of all files |
| WindowStatus.ExitStopButtonNameCases | WordFinder/Models/WindowModel.cs:248 | the caption is Exit exactly in Idle and Ready, "Cancellation ..." exactly in Cancellation, and Stop exactly in Scaning and Searching |
| WindowStatus.ProgressStrCases | WordFinder/Models/WindowModel.cs:244 | the caption is null exactly when progress is 0, and different progress values get different captions |
| WindowStatus.ReadyLineShape | WordFinder/Models/WindowModel.cs:234-242 | only the Ready status line has the Ready shape |
| WindowStatus.DisplayStatusInjective | WordFinder/Models/WindowModel.cs:234-242 | each of the five statuses has its own status line, and the Ready line tells the number of files found |
| WindowStatus.GuardsAgreeWithCaptions | WordFinder/Models/WindowModel.cs:246-256 | search and open are offered only when the button reads Exit; Exit/Stop is offered except in Cancellation; during the scan the bar is indeterminate and only Stop is offered |
| WindowModel.SearchedStateInv | WordFinder/Models/WindowModel.cs:126-169 | the fields after any number of finished files of a search satisfy the invariant |
| WindowModel.Model.constructor | WordFinder/Models/WindowModel.cs:30-48 | a new model is Idle with no path, word, files, results or progress, and keeps the invariant |
| WindowModel.Model.SetWord | WordFinder/Models/WindowModel.cs:199-207 | the Word setter changes the word and nothing else |
| WindowModel.Model.ClearInfo | WordFinder/Models/WindowModel.cs:63-68 | results emptied, progress and accumulator reset to 0, nothing else changed |
| WindowModel.Model.OpenDirectory | WordFinder/Models/WindowModel.cs:52-61 | a chosen folder becomes the path, the status becomes Idle and results and progress are cleared; a dismissed dialog changes nothing; the invariant is kept |
| WindowModel.Model.ExitStop | WordFinder/Models/WindowModel.cs:179-187 | in Idle or Ready only shutdown is requested; otherwise the run is cancelled and the status becomes Cancellation; the invariant is kept |
| WindowModel.Model.FindWord | WordFinder/Models/WindowModel.cs:92-171 | a whole search command from Idle or Ready ends in the state FindWordSpec describes and keeps the invariant |
| WindowModel.Model.Scan | WordFinder/Models/WindowModel.cs:100-109 | the file list is cleared and refilled with the enumerated paths in order; a stop after k paths leaves exactly the first k and the Cancellation status |
| WindowModel.Model.CountFile | WordFinder/Models/WindowModel.cs:139-158 | one file appends its record to the results when it is read with a positive count, and nothing otherwise |
| WindowModel.Model.AdvanceProgress | WordFinder/Models/WindowModel.cs:160-165 | the accumulator grows by one tick and the shown progress follows it without ever decreasing |
| WindowModel.Model.Search | WordFinder/Models/WindowModel.cs:126-169 | results and progress are cleared, the files finished before any stop are counted in order, and the status ends in Ready whether or not the run was stopped |
| WindowModel.Model.SearchFiles | WordFinder/Models/WindowModel.cs:136-166 | the loop finishes every file, or the first k when Stop comes after k files, recording their results and ticks |
| WindowModel.Model.FinishFile | WordFinder/Models/WindowModel.cs:136-166 | finishing file i extends the results by its record and the accumulator by one tick |
| WindowProperties.FindWordOutcome | WordFinder/Models/WindowModel.cs:92-171 | a run ends in Idle iff it began in Idle and the scan was stopped or found nothing, and otherwise in Ready; an Idle ending keeps results and progress; from Ready the cached list is reused; a Ready ending holds the results of the searched files; word, path and shutdown are untouched |
| WindowProperties.FindWordKeepsInv | WordFinder/Models/WindowModel.cs:92-171 | every run keeps the invariant and ends in Idle or Ready |
| WindowProperties.UnstoppedRunCompletes | WordFinder/Models/WindowModel.cs:126-169 | a run nobody stops that reaches the search records every cached file's result and shows 100 percent |
| WindowProperties.AccumulatedMonotone | WordFinder/Models/WindowModel.cs:161 | more finished files never give a smaller accumulator |
| WindowProperties.StoppedSearchIsPrefix | WordFinder/Models/WindowModel.cs:136-168 | a stopped search searches the same files, keeps a prefix of the unstopped results and shows no more progress |
| WindowProperties.NoMatchesRun | WordFinder/Models/WindowModel.cs:169-170 | files without the word still end in Ready at 100 percent, with no results and Save disabled |
| WindowProperties.OpenDirectoryResets | WordFinder/Models/WindowModel.cs:52-68 | opening a folder always lands in Idle with no results, progress 0, no progress caption and Save disabled, keeping the cached list and the invariant |
| WindowProperties.ExitStopBehaviour | WordFinder/Models/WindowModel.cs:179-187 | in Idle or Ready only shutdown is requested; otherwise the status becomes Cancellation, where the button is disabled and reads "Cancellation ..."; results, files and progress are untouched |
| WindowProperties.RunKeepsInv | WordFinder/Models/WindowModel.cs:252-258 | any sequence of guard-respecting user actions keeps the invariant and leaves the model Idle or Ready |
| WindowProperties.InitialSessionsStayQuiet | WordFinder/Models/WindowModel.cs:252-258 | from the initial state, every sequence of user actions keeps the invariant and leaves the model Idle or Ready |
| WindowProperties.RecordOfRead | WordFinder/Models/WindowModel.cs:146-156 | a read file with a positive count is recorded with its directory, name and count |
| WindowProperties.CatCountA | WordFinder/Models/WindowModel.cs:143-144 | "cat" occurs once in "the cat sat" |
| WindowProperties.CatCountB | WordFinder/Models/WindowModel.cs:143-144 | "cat" occurs twice in "cat cat dog" |
| WindowProperties.CatPaths | WordFinder/Models/WindowModel.cs:152-153 | root\A.txt splits into directory root and name A.txt, and likewise for B.txt |
| WindowProperties.CatRecordA | WordFinder/Models/WindowModel.cs:146-156 | the first example file is recorded with count 1 |
| WindowProperties.CatRecordB | WordFinder/Models/WindowModel.cs:146-156 | the second example file is recorded with count 2 |
| WindowProperties.CatResults | WordFinder/Models/WindowModel.cs:136-156 | both example files are recorded, in order |
| WindowProperties.CatScenario | WordFinder/Models/WindowModel.cs:92-171 | searching the two example files for "cat" from Idle ends in Ready at 100 percent with both records, counts 1 and 2 |

The `FileInfo` row (WordFinder/Models/FileInfo.cs:11-16) is the datatype
`FileInfoModel.FileInfo`, holding the path, the name and the count.

## Left out

- Directory enumeration, with its `*.txt` filter, recursion and skipping of inaccessible folders, is not modelled. The enumerated paths are an input to `FindWord`.
- File reading is a map from path to text. Which reads throw is decided by that map.
- Saving the report is modelled as its lines only. The save dialog and the stream writer are left out.
- The search is modelled as sequential:
  - The parallel loop over the files becomes a sequential loop in list order.
  - The real result order depends on scheduling, and only the set of records and each record's contents carry over.
  - The parallel count, the reset event and the dispatcher calls are left out.
- A stop is modelled only between two files, or between two enumerated paths. A file in flight when Stop is pressed is left out. In the source such a file may be dropped after counting while its progress tick still counts.
- WindowModel.Model.AdvanceProgress: models the accumulator on exact reals rather than doubles.
  - Rounding error in `progressTick` and in the sum of the ticks is not modelled. The rounding to one decimal absorbs that drift (`Progress.PercentNearWhole`), so only the race described next can leave the bar below 100.
  - The check-then-dispatch of the new percentage is not modelled. Concurrent workers can let a smaller value overwrite a larger one, so the never-decreasing property holds only for the sequential model.
- PathNames.LastSeparator: models Path.GetFileName and Path.GetDirectoryName by the last '\' or '/' only.
  - Drive roots, UNC prefixes, trailing separators and the null result for a root directory are not modelled.
  - The normalisation Path.GetDirectoryName applies on Windows is not modelled: '/' is not turned into '\' and doubled separators are not collapsed.
- `Word` is a string in the model. A null word counts like the empty word, because no token is empty.
- The word is fixed for the length of a run. The source reads `Word` for every token, so a word typed during a search affects the files still being counted.
- The dialogs, the message boxes ("No files found in this directory", "Word not found in these files"), property-change notifications and command-requery calls are not modelled.
- Shutdown is left out. `Application.Current.Shutdown` is recorded only as the flag `shutdownRequested`.
- Opening a matched file in notepad (`showFile`) is not part of this model. Neither is the command object that wraps each action, which lives outside the modelled files.
- A scan cancelled before its background task starts is not modelled. In the source, awaiting that task throws a cancellation exception that `findWordAsync` does not catch. The list is then not cleared, the status stays Cancellation, and the exception goes to the dispatcher.
- WindowStatus.DisplayStatus takes the number of found files as a parameter rather than reading `files`.
