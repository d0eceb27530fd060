/**
 * The commit-log reader of `git::commit`: the text git prints for
 * `git log --pretty=format:%H%n%aN%n%at%n%s%n` is cut into one chunk per
 * commit on blank lines, and each chunk is read positionally, line by line,
 * as hash, author name, author timestamp and subject.
 *
 * Every `unwrap` in `parse_single_commit` panics when its value is missing;
 * here a panic is an `Err` that says which read failed.
 */
module GitCommit {
  import opened Wrappers
  import Text
  import opened Decimal

  /** One commit of the history; `description` is only filled by the detail view. */
  datatype Commit = Commit(
    hash: string,
    author: string,
    timestamp: u64,
    message: string,
    description: Option<string>)

  /** The `unwrap` that panics in `parse_single_commit`. */
  datatype CommitError =
    | MissingAuthor
    | MissingTimestamp
    | BadTimestamp(kind: IntErrorKind)
    | MissingMessage

  /** The panic of `parse_commits`: the index of the chunk and its failure. */
  datatype LogError = LogError(chunk: nat, error: CommitError)

  const LINE_SEP: string := "\n"
  const RECORD_SEP: string := "\n\n"

  function Lines(chunk: string): seq<string> {
    Text.Split(chunk, LINE_SEP)
  }

  /**
   * The commit a chunk describes: the first four of its lines, in order, with
   * the third read as a 64-bit timestamp. The reads happen in order, so a
   * chunk of three lines with a bad timestamp fails on the timestamp.
   */
  function SingleCommit(chunk: string): (r: Result<Commit, CommitError>)
    ensures r.Ok? <==>
      |Lines(chunk)| >= 4 && IsNumeral(Lines(chunk)[2]) && NumeralValue(Lines(chunk)[2]) < U64_LIMIT
    ensures r.Ok? ==>
      var lines := Lines(chunk);
      r.value.hash == lines[0] && r.value.author == lines[1] &&
      r.value.timestamp as int == NumeralValue(lines[2]) &&
      r.value.message == lines[3] && r.value.description == None
    ensures |Lines(chunk)| == 1 ==> r == Err(MissingAuthor)
    ensures |Lines(chunk)| == 2 ==> r == Err(MissingTimestamp)
    ensures |Lines(chunk)| >= 3 && !(IsNumeral(Lines(chunk)[2]) && NumeralValue(Lines(chunk)[2]) < U64_LIMIT) ==>
      r.Err? && r.error.BadTimestamp? && (r.error.kind == Empty <==> Lines(chunk)[2] == "")
    ensures |Lines(chunk)| == 3 && IsNumeral(Lines(chunk)[2]) && NumeralValue(Lines(chunk)[2]) < U64_LIMIT ==>
      r == Err(MissingMessage)
  {
    var lines := Lines(chunk);
    if |lines| < 2 then Err(MissingAuthor)
    else if |lines| < 3 then Err(MissingTimestamp)
    else
      match ParseU64(lines[2])
      case Err(kind) => Err(BadTimestamp(kind))
      case Ok(ts) =>
        if |lines| < 4 then Err(MissingMessage)
        else Ok(Commit(lines[0], lines[1], ts, lines[3], None))
  }

  /**
   * `parse_single_commit`: a cursor over the lines of the chunk is advanced
   * once per field, and each field is taken from the line under the cursor.
   */
  method ParseSingleCommit(output: string) returns (r: Result<Commit, CommitError>)
    ensures r == SingleCommit(output)
  {
    var lines := Text.Split(output, LINE_SEP);
    var pos := 0;
    var hash := lines[pos];
    pos := pos + 1;
    if pos >= |lines| {
      return Err(MissingAuthor);
    }
    var author := lines[pos];
    pos := pos + 1;
    if pos >= |lines| {
      return Err(MissingTimestamp);
    }
    var timestamp := ParseU64(lines[pos]);
    pos := pos + 1;
    if timestamp.Err? {
      return Err(BadTimestamp(timestamp.error));
    }
    if pos >= |lines| {
      return Err(MissingMessage);
    }
    var message := lines[pos];
    r := Ok(Commit(hash, author, timestamp.value, message, None));
  }

  /**
   * The commits of a sequence of chunks, one per chunk and in chunk order, or
   * the first chunk that fails with its failure.
   */
  function ParseChunks(chunks: seq<string>): (r: Result<seq<Commit>, LogError>)
    decreases |chunks|
    ensures r.Ok? <==> forall i :: 0 <= i < |chunks| ==> SingleCommit(chunks[i]).Ok?
    ensures r.Ok? ==>
      |r.value| == |chunks| &&
      forall i :: 0 <= i < |chunks| ==> SingleCommit(chunks[i]) == Ok(r.value[i])
    ensures r.Err? ==>
      r.error.chunk < |chunks| &&
      SingleCommit(chunks[r.error.chunk]) == Err(r.error.error) &&
      forall i :: 0 <= i < r.error.chunk ==> SingleCommit(chunks[i]).Ok?
  {
    if chunks == [] then Ok([])
    else
      match SingleCommit(chunks[0])
      case Err(e) => Err(LogError(0, e))
      case Ok(c) =>
        match ParseChunks(chunks[1..])
        case Err(failure) => Err(LogError(failure.chunk + 1, failure.error))
        case Ok(cs) => Ok([c] + cs)
  }

  /** The commits of a whole log: one per blank-line-separated chunk. */
  function ParseLog(output: string): Result<seq<Commit>, LogError> {
    ParseChunks(Text.Split(output, RECORD_SEP))
  }

  /**
   * `parse_commits`: the chunks are visited in order and each parsed commit
   * is pushed onto the result; the first chunk that fails ends the run.
   */
  method ParseCommits(output: string) returns (r: Result<seq<Commit>, LogError>)
    ensures r == ParseLog(output)
  {
    var chunks := Text.Split(output, RECORD_SEP);
    var commits: seq<Commit> := [];
    var i := 0;
    while i < |chunks|
      invariant 0 <= i <= |chunks|
      invariant |commits| == i
      invariant forall j :: 0 <= j < i ==> SingleCommit(chunks[j]) == Ok(commits[j])
    {
      var commit := ParseSingleCommit(chunks[i]);
      if commit.Err? {
        var expected := ParseChunks(chunks);
        assert expected.Err?;
        assert expected.error.chunk == i;
        return Err(LogError(i, commit.error));
      }
      commits := commits + [commit.value];
      i := i + 1;
    }
    assert ParseChunks(chunks).value == commits;
    r := Ok(commits);
  }
}

/**
 * What `parse_single_commit` and `parse_commits` promise about the text they
 * read: which line gives which field, what is ignored, and when reading fails.
 */
module GitCommitFacts {
  import opened Wrappers
  import Text
  import opened Decimal
  import opened GitCommit

  /** Four lines without newlines read back as the four fields, in order. */
  lemma WellFormedChunk(hash: string, author: string, timestamp: string, message: string)
    requires '\n' !in hash && '\n' !in author && '\n' !in message
    requires IsNumeral(timestamp) && NumeralValue(timestamp) < U64_LIMIT
    ensures SingleCommit(hash + "\n" + author + "\n" + timestamp + "\n" + message)
      == Ok(Commit(hash, author, NumeralValue(timestamp) as u64, message, None))
  {
    var parts := [hash, author, timestamp, message];
    assert '\n' !in timestamp by {
      forall i | 0 <= i < |timestamp| ensures timestamp[i] != '\n' {
        if timestamp[0] == '+' && i > 0 {
          assert IsDigit(timestamp[1..][i - 1]);
        }
      }
    }
    forall n | 0 <= n < |parts| ensures Text.EndsCleanly(parts[n], "\n") && !Text.Contains(parts[n], "\n") {
      Text.CharFree(parts[n], '\n');
    }
    assert Text.Join(parts, "\n") == hash + "\n" + author + "\n" + timestamp + "\n" + message by {
      assert parts[1..] == [author, timestamp, message];
      assert parts[1..][1..] == [timestamp, message];
      assert parts[1..][1..][1..] == [message];
      assert Text.Join([timestamp, message], "\n") == timestamp + "\n" + message;
      assert Text.Join([author, timestamp, message], "\n") == author + "\n" + (timestamp + "\n" + message);
    }
    Text.SplitJoin(parts, "\n");
  }

  /** Lines after the fourth do not change what a chunk reads as. */
  lemma ExtraLinesIgnored(chunk: string, rest: string)
    requires |Lines(chunk)| >= 4
    ensures SingleCommit(chunk + "\n" + rest) == SingleCommit(chunk)
  {
    Text.SplitAroundChar(chunk, '\n', rest);
    var more := Lines(chunk + "\n" + rest);
    assert more[..|Lines(chunk)|] == Lines(chunk);
  }

  /** An empty chunk has a hash line and nothing else, so the author is missing. */
  lemma EmptyChunk()
    ensures SingleCommit("") == Err(MissingAuthor)
  {
    assert Lines("") == [""];
  }

  /** Empty output is not an empty history: it is one empty chunk, which fails. */
  lemma EmptyLog()
    ensures ParseLog("") == Err(LogError(0, MissingAuthor))
  {
    assert Text.Split("", RECORD_SEP) == [""];
    EmptyChunk();
  }

  /** A log reads as one commit more than it has blank-line separators. */
  lemma LogLength(output: string)
    requires ParseLog(output).Ok?
    ensures |ParseLog(output).value| == Text.Count(output, RECORD_SEP) + 1
  {
    Text.SplitCount(output, RECORD_SEP);
  }
}

/**
 * The text `git log --pretty=format:%H%n%aN%n%at%n%s%n` prints, and the
 * round trip from commits through that text and back through `ParseLog`.
 *
 * Each commit is printed as its four fields, each followed by a newline
 * (`%n`); with a `format:` template git writes a newline between two
 * commits' entries and none after the last.
 */
module LogFormat {
  import opened Wrappers
  import Text
  import opened Decimal
  import opened GitCommit
  import opened GitCommitFacts

  /**
   * A commit the log text can carry: no field holds a newline, and neither
   * the author nor the subject is empty, which would leave a blank line
   * inside the record.
   */
  predicate Printable(c: Commit) {
    '\n' !in c.hash && '\n' !in c.author && '\n' !in c.message &&
    c.author != "" && c.message != "" && c.description == None
  }

  /** The four fields of a commit on four lines. */
  function Record(c: Commit): string {
    c.hash + "\n" + c.author + "\n" + Render(c.timestamp as nat) + "\n" + c.message
  }

  /** One expansion of the template `%H%n%aN%n%at%n%s%n`. */
  function Entry(c: Commit): string {
    Record(c) + "\n"
  }

  function Records(cs: seq<Commit>): seq<string> {
    seq(|cs|, i requires 0 <= i < |cs| => Record(cs[i]))
  }

  function Entries(cs: seq<Commit>): seq<string> {
    seq(|cs|, i requires 0 <= i < |cs| => Entry(cs[i]))
  }

  /** The output of the log command for a history, newest commit first. */
  function GitLogOutput(cs: seq<Commit>): string {
    Text.Join(Entries(cs), "\n")
  }

  /** The chunks that output consists of: the last keeps its final newline. */
  function LogChunks(cs: seq<Commit>): seq<string> {
    seq(|cs|, i requires 0 <= i < |cs| => if i < |cs| - 1 then Record(cs[i]) else Entry(cs[i]))
  }

  /** No two newlines in a row. */
  predicate NoBlankLine(s: string) {
    forall j :: 0 <= j < |s| - 1 ==> !(s[j] == '\n' && s[j + 1] == '\n')
  }

  lemma NoBlankLineFree(s: string)
    requires NoBlankLine(s)
    ensures !Text.Contains(s, RECORD_SEP)
  {
    forall j: nat | j <= |s| ensures !Text.OccursAt(s, RECORD_SEP, j) {
      if j + 2 <= |s| {
        assert s[j..j + 2] == [s[j], s[j + 1]];
      }
    }
  }

  lemma NoBlankLineClean(s: string)
    requires NoBlankLine(s) && (s == "" || s[|s| - 1] != '\n')
    ensures Text.EndsCleanly(s, RECORD_SEP)
  {
    var t := s + RECORD_SEP;
    forall j: nat | j < |s| ensures !Text.OccursAt(t, RECORD_SEP, j) {
      assert t[j..j + 2] == [t[j], t[j + 1]];
      if j + 1 < |s| {
        assert t[j] == s[j] && t[j + 1] == s[j + 1];
      } else {
        assert t[j] == s[|s| - 1];
      }
    }
  }

  /**
   * Lines without newlines, joined by single newlines, leave no blank line
   * as long as no line strictly inside is empty.
   */
  lemma {:induction false} JoinedLinesNoBlank(lines: seq<string>)
    requires forall n :: 0 <= n < |lines| ==> '\n' !in lines[n]
    requires forall n :: 0 < n < |lines| - 1 ==> lines[n] != ""
    ensures NoBlankLine(Text.Join(lines, "\n"))
    ensures |lines| >= 2 ==> Text.Join(lines, "\n")[|lines[0]|] == '\n'
    ensures |lines| >= 1 && lines[0] != "" ==> Text.Join(lines, "\n")[0] == lines[0][0]
    ensures |lines| == 1 ==> Text.Join(lines, "\n") == lines[0]
    decreases |lines|
  {
    if |lines| >= 2 {
      var p := lines[0];
      var rest := lines[1..];
      JoinedLinesNoBlank(rest);
      var tail := Text.Join(rest, "\n");
      var s := p + "\n" + tail;
      assert Text.Join(lines, "\n") == s;
      forall j | 0 <= j < |s| - 1 ensures !(s[j] == '\n' && s[j + 1] == '\n') {
        if j < |p| {
          assert s[j] == p[j];
        } else if j > |p| {
          assert s[j] == tail[j - |p| - 1] && s[j + 1] == tail[j - |p|];
        } else {
          assert s[j + 1] == tail[0];
          if |rest| >= 2 {
            assert rest[0] != "";
          }
          assert rest[0] != "" ==> tail[0] == rest[0][0];
          assert |rest| == 1 ==> tail == rest[0];
        }
      }
    }
  }

  /** A record and its final newline are five lines, the last one empty. */
  lemma EntryAsLines(hash: string, author: string, ts: string, message: string)
    ensures Text.Join([hash, author, ts, message, ""], "\n")
      == hash + "\n" + author + "\n" + ts + "\n" + message + "\n"
  {
    var lines := [hash, author, ts, message, ""];
    assert lines[1..] == [author, ts, message, ""];
    assert lines[1..][1..] == [ts, message, ""];
    assert lines[1..][1..][1..] == [message, ""];
    assert lines[1..][1..][1..][1..] == [""];
    assert Text.Join([message, ""], "\n") == message + "\n";
    assert Text.Join([ts, message, ""], "\n") == ts + "\n" + (message + "\n");
  }

  lemma NoBlankLinePrefix(s: string, k: nat)
    requires NoBlankLine(s) && k <= |s|
    ensures NoBlankLine(s[..k])
  {
    forall j | 0 <= j < k - 1 ensures !(s[..k][j] == '\n' && s[..k][j + 1] == '\n') {
      assert s[..k][j] == s[j] && s[..k][j + 1] == s[j + 1];
    }
  }

  lemma RecordLines(c: Commit)
    requires Printable(c)
    ensures NoBlankLine(Entry(c)) && NoBlankLine(Record(c))
    ensures Record(c)[|Record(c)| - 1] != '\n'
  {
    var ts := Render(c.timestamp as nat);
    RenderDigits(c.timestamp as nat);
    DigitsHaveNoNewline(ts);
    var lines := [c.hash, c.author, ts, c.message, ""];
    JoinedLinesNoBlank(lines);
    EntryAsLines(c.hash, c.author, ts, c.message);
    assert Entry(c) == Text.Join(lines, "\n");
    var r := Record(c);
    assert r[|r| - 1] == c.message[|c.message| - 1];
    assert r == Entry(c)[..|r|];
    NoBlankLinePrefix(Entry(c), |r|);
  }

  lemma DigitsHaveNoNewline(s: string)
    requires AllDigits(s)
    ensures '\n' !in s
  {
    forall i | 0 <= i < |s| ensures s[i] != '\n' {
      assert IsDigit(s[i]);
    }
  }

  /** A printed record reads back as the commit it was printed from. */
  lemma RecordRoundTrip(c: Commit)
    requires Printable(c)
    ensures SingleCommit(Record(c)) == Ok(c)
    ensures SingleCommit(Entry(c)) == Ok(c)
  {
    var ts := Render(c.timestamp as nat);
    RenderDigits(c.timestamp as nat);
    assert ts[0] != '+';
    WellFormedChunk(c.hash, c.author, ts, c.message);
    assert Record(c) == c.hash + "\n" + c.author + "\n" + ts + "\n" + c.message;
    ExtraLinesIgnored(Record(c), "");
    assert Entry(c) == Record(c) + "\n" + "";
  }

  /** Reading chunks that each print one commit gives those commits in order. */
  lemma ParsePrinted(chunks: seq<string>, cs: seq<Commit>)
    requires |chunks| == |cs|
    requires forall i :: 0 <= i < |cs| ==> SingleCommit(chunks[i]) == Ok(cs[i])
    ensures ParseChunks(chunks) == Ok(cs)
  {
    var r := ParseChunks(chunks);
    assert r.Ok?;
    assert r.value == cs;
  }

  /**
   * Printing commits on four lines each, with a blank line between records,
   * and reading the text back gives the same commits.
   */
  lemma JoinedRoundTrip(cs: seq<Commit>)
    requires |cs| >= 1
    requires forall i :: 0 <= i < |cs| ==> Printable(cs[i])
    ensures ParseLog(Text.Join(Records(cs), RECORD_SEP)) == Ok(cs)
  {
    var rs := Records(cs);
    forall n | 0 <= n < |rs| ensures Text.EndsCleanly(rs[n], RECORD_SEP) && !Text.Contains(rs[n], RECORD_SEP) {
      RecordLines(cs[n]);
      NoBlankLineClean(rs[n]);
      NoBlankLineFree(rs[n]);
    }
    Text.SplitJoin(rs, RECORD_SEP);
    forall i | 0 <= i < |cs| ensures SingleCommit(rs[i]) == Ok(cs[i]) {
      RecordRoundTrip(cs[i]);
    }
    ParsePrinted(rs, cs);
  }

  /** The log output is its chunks with a blank line between neighbours. */
  lemma {:induction false} GitLogChunks(cs: seq<Commit>)
    requires |cs| >= 1
    ensures GitLogOutput(cs) == Text.Join(LogChunks(cs), RECORD_SEP)
    decreases |cs|
  {
    if |cs| >= 2 {
      GitLogChunks(cs[1..]);
      assert Entries(cs)[1..] == Entries(cs[1..]);
      assert LogChunks(cs)[1..] == LogChunks(cs[1..]);
      assert GitLogOutput(cs) == Record(cs[0]) + "\n" + "\n" + GitLogOutput(cs[1..]);
    }
  }

  /**
   * The round trip of the log command: reading what git prints for a history
   * of printable commits gives back that history, each commit without a
   * description.
   */
  lemma GitLogRoundTrip(cs: seq<Commit>)
    requires |cs| >= 1
    requires forall i :: 0 <= i < |cs| ==> Printable(cs[i])
    ensures ParseLog(GitLogOutput(cs)) == Ok(cs)
  {
    var chunks := LogChunks(cs);
    forall n | 0 <= n < |chunks|
      ensures n < |chunks| - 1 ==> Text.EndsCleanly(chunks[n], RECORD_SEP)
      ensures !Text.Contains(chunks[n], RECORD_SEP)
      ensures SingleCommit(chunks[n]) == Ok(cs[n])
    {
      RecordLines(cs[n]);
      RecordRoundTrip(cs[n]);
      NoBlankLineClean(Record(cs[n]));
      NoBlankLineFree(chunks[n]);
    }
    GitLogChunks(cs);
    Text.SplitJoin(chunks, RECORD_SEP);
    ParsePrinted(chunks, cs);
  }

  /** Reading a record followed by a blank line and more text. */
  lemma PrependRecord(c: Commit, rest: string, cs: seq<Commit>)
    requires Printable(c) && ParseLog(rest) == Ok(cs)
    ensures ParseLog(Record(c) + RECORD_SEP + rest) == Ok([c] + cs)
  {
    RecordLines(c);
    NoBlankLineClean(Record(c));
    Text.FirstOccurrenceAfter(Record(c), RECORD_SEP, rest);
    var s := Record(c) + RECORD_SEP + rest;
    assert s[..|Record(c)|] == Record(c);
    assert s[|Record(c)| + |RECORD_SEP|..] == rest;
    RecordRoundTrip(c);
    var chunks := Text.Split(s, RECORD_SEP);
    assert chunks == [Record(c)] + Text.Split(rest, RECORD_SEP);
    assert chunks[1..] == Text.Split(rest, RECORD_SEP);
  }

  /** The last entry of the log, with its final newline, on its own. */
  lemma SingleEntry(c: Commit)
    requires Printable(c)
    ensures ParseLog(Entry(c)) == Ok([c])
  {
    RecordLines(c);
    NoBlankLineFree(Entry(c));
    assert Text.IndexOf(Entry(c), RECORD_SEP).None?;
    assert Text.Split(Entry(c), RECORD_SEP) == [Entry(c)];
    RecordRoundTrip(c);
    ParsePrinted([Entry(c)], [c]);
  }

  /** A history without commits prints nothing, which does not read back. */
  lemma NoCommits()
    ensures GitLogOutput([]) == ""
    ensures ParseLog(GitLogOutput([])).Err?
  {
    EmptyLog();
  }
}
