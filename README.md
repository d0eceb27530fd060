# gitty commit-log reader, in Dafny

gitty is a desktop git client. Its Rust back end lists the history of a
repository by running `git log --pretty=format:%H%n%aN%n%at%n%s%n` and reading
the text git prints. The text is cut into one chunk per commit on blank lines
(`"\n\n"`), and each chunk is read line by line as hash, author name, author
timestamp (seconds since the epoch, a `u64`) and subject. This project models
that reader and proves what it does with well-formed and malformed text.

Files:

- `wrappers.dfy`: `Option` and `Result`.
- `text.dfy` (module `Text`): Rust's `str::split` with a string pattern. The
  search runs left to right and never overlaps matches. The model has its
  inverse `Join` and a count of occurrences.
- `decimal.dfy` (module `Decimal`): how `str::parse::<u64>` reads a numeral.
  An optional leading `+` is accepted. The errors are `Empty`, `InvalidDigit`
  and `PosOverflow`, in the order the standard library checks them. The module
  also has the decimal rendering git uses for `%at`.
- `commit.dfy`:
  - `GitCommit`: the `Commit` record, `parse_single_commit` and
    `parse_commits`, as specification functions and as imperative methods
    proved equal to them.
  - `GitCommitFacts`: which line gives which field, what extra lines do, and
    how empty input fails.
  - `LogFormat`: the text the log command prints for a history, and the round
    trip from that text back to the history.
- `fixtures.dfy` (module `Fixtures`): the two unit tests of the module,
  stated as lemmas.

Every `unwrap` in the source panics when its value is missing. The model
returns an `Err` instead: `CommitError` names the read that failed, and
`LogError` adds the index of the failing chunk. `Commit::new` only moves its
arguments into the struct, so it is the datatype constructor `Commit`.

Empty output is not an empty history: the split of `""` is one empty chunk,
and reading it panics at the author line (`GitCommitFacts.EmptyLog`).

## Model

| member | source | states |
|---|---|---|
| GitCommit.SingleCommit | src-tauri/src/git/commit/mod.rs:34-42 | a chunk reads as a commit exactly when it has at least four lines and the third is a `u64` numeral; the commit is lines 0, 1, 3 and the value of line 2, without a description; with one line the author is missing, with two the timestamp; a bad third line is a timestamp error, `Empty` exactly when the line is empty; three lines with a good timestamp miss the message |
| GitCommit.ParseSingleCommit | src-tauri/src/git/commit/mod.rs:34-42 | the cursor over the split lines, advanced once per field with each `next().unwrap()`, gives exactly `SingleCommit` of the chunk |
| GitCommit.ParseChunks | src-tauri/src/git/commit/mod.rs:44-52 | the chunks read as a list exactly when every chunk reads; the list has one commit per chunk, in chunk order; on failure, the reported index is the first chunk that fails, with that chunk's error; `ParseLog` applies it to the `"\n\n"` pieces of a whole output, and the method and round-trip lemmas are stated against that |
| GitCommit.ParseCommits | src-tauri/src/git/commit/mod.rs:44-52 | the loop that pushes one commit per `"\n\n"` chunk returns exactly `ParseLog` of the output, and stops at the first chunk that fails |
| GitCommitFacts.WellFormedChunk | src-tauri/src/git/commit/mod.rs:34-41 | four newline-free lines, the third a `u64` numeral, read back as hash, author, numeral value and message, in that order |
| GitCommitFacts.ExtraLinesIgnored | src-tauri/src/git/commit/mod.rs:35-39 | lines after the fourth do not change what a chunk reads as |
| GitCommitFacts.EmptyChunk | src-tauri/src/git/commit/mod.rs:35-37 | an empty chunk is one empty hash line, so the author read fails |
| GitCommitFacts.EmptyLog | src-tauri/src/git/commit/mod.rs:44-47 | empty output is one empty chunk, so the log fails at chunk 0 with a missing author and does not give an empty list |
| GitCommitFacts.LogLength | src-tauri/src/git/commit/mod.rs:46-51 | a log that reads has one commit more than blank-line separators in its text |
| Decimal.ParseU64 | src-tauri/src/git/commit/mod.rs:38 | `parse::<u64>` succeeds exactly on an optional `+` and one or more digits whose value is below 2^64, and gives that value; `Empty` exactly for the empty string; `PosOverflow` for a numeral of 2^64 or more |
| Decimal.AccumulateMeaning | src-tauri/src/git/commit/mod.rs:38 | the digit loop succeeds exactly when every character is a digit and the accumulated value stays below 2^64, and then gives that value |
| Decimal.RenderDigits | src-tauri/src/git/commit/mod.rs:56 | the decimal text of a number is non-empty, all digits, without a leading zero, and denotes the number |
| Decimal.ParseRender | src-tauri/src/git/commit/mod.rs:38 | reading the decimal text of any `u64` gives the same `u64` back |
| Text.Split | src-tauri/src/git/commit/mod.rs:35 | splitting gives at least one piece, and no piece contains the separator |
| Text.JoinSplit | src-tauri/src/git/commit/mod.rs:46 | joining the pieces of a split with the separator gives the original text |
| Text.SplitJoin | src-tauri/src/git/commit/mod.rs:46 | splitting a join gives the parts back, when no part contains the separator and none but the last could form one with the separator that follows it |
| Text.SplitCount | src-tauri/src/git/commit/mod.rs:46 | a split has one piece more than the separators counted left to right without overlap |
| Text.SplitAroundChar | src-tauri/src/git/commit/mod.rs:35 | splitting on a single character at one of its occurrences splits the two sides separately |
| LogFormat.RecordRoundTrip | src-tauri/src/git/commit/mod.rs:34-42 | a printable commit printed as four lines, with or without a final newline, reads back as the same commit |
| LogFormat.JoinedRoundTrip | src-tauri/src/git/commit/mod.rs:44-52 | printable commits printed as four-line records separated by blank lines read back as the same list |
| LogFormat.GitLogRoundTrip | src-tauri/src/git/commit/mod.rs:44-67 | what `git log` prints with this module's template for a non-empty history of printable commits reads back as that history |
| LogFormat.PrependRecord | src-tauri/src/git/commit/mod.rs:46-49 | a record and a blank line in front of a log that reads add that commit at the front of its list |
| LogFormat.SingleEntry | src-tauri/src/git/commit/mod.rs:46-49 | a single entry, with git's trailing newline, reads as a list of that one commit |
| LogFormat.NoCommits | src-tauri/src/git/commit/mod.rs:54-67 | an empty history prints nothing, and nothing does not read back as an empty history |
| Fixtures.SingleCommitFixture | src-tauri/src/git/commit/mod.rs:75-89 | the single-commit test: its four lines read as that hash, author, timestamp 1727789190 and message |
| Fixtures.CommitsFixture | src-tauri/src/git/commit/mod.rs:93-146 | the log test: the output reads as its seven commits in order; the first has timestamp 1727789190, the second has message "feat: get commits" |
| Fixtures.SeparatorsFixture | src-tauri/src/git/commit/mod.rs:93-132 | the log test's output has six blank-line separators for its seven commits |

## Left out

- `get_commits` (src-tauri/src/git/commit/mod.rs:54-68) is left out because it starts a git process and reads its standard output. Spawning, pipes, the `expect` on spawn and the empty list returned when reading fails are I/O. The text git prints is `LogFormat.GitLogOutput`, a parameter of the model.
- The model assumes git puts a newline between two entries of a `--pretty=format:` template and none after the last. This is git's separator behaviour, and the test output has the same shape. git itself is not part of this model.
- The `Serialize` derive on `Commit` belongs to the Tauri bridge and is not modelled. So are the Tauri command wrappers in src-tauri/src/lib.rs.
- `get_commit` and `CommitWithDiff`, which src-tauri/src/lib.rs calls, are not part of this model. Their source is not in the module shown.
- The front end (src/App.tsx, src/main.tsx) is display code and is left out.
- Panics are modelled as `Err` values. The model does not capture that a panic unwinds the Tauri command.
- `str::split` is lazy in Rust, so `parse_single_commit` never looks past the fourth line. The model splits the whole chunk first. The result is the same, and `GitCommitFacts.ExtraLinesIgnored` states it.
- Decimal.ParseU64: on input with both a bad character and an overflow, the error reported depends on which comes first. The model follows the standard library's left-to-right loop, but its contract names the error kind only for the empty string and for a clean overflow.
- LogFormat.GitLogRoundTrip: the round trip requires commits with non-empty authors and messages and no newlines in any field. Other commits do not survive the text format, so this is a limit of the format, not of the model.
