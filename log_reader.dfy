// `readAccessLogs` and `readErrorLogs`: a one-shot read of the last `limit`
// lines of a log file, parsed, most recent first, together with the number
// of non-empty lines in the whole file.
module LogReader {
  import opened Common
  import opened Text
  import opened AccessLog
  import opened ErrorLog

  /** The object both readers return: `{ logs, total }` plus `error` when the read failed. */
  datatype ReadResult<T> = ReadResult(logs: seq<T>, total: nat, error: Option<string>)

  /** `lines.map(parse)`. */
  function ParseAll<T>(lines: seq<string>, parse: string -> Option<T>): (r: seq<Option<T>>)
    ensures |r| == |lines|
    ensures forall i :: 0 <= i < |lines| ==> r[i] == parse(lines[i])
  {
    seq(|lines|, i requires 0 <= i < |lines| => parse(lines[i]))
  }

  /** `lines.slice(-limit).map(parse).filter(Boolean).reverse()`. */
  function Recent<T>(lines: seq<string>, limit: int, parse: string -> Option<T>): seq<T>
  {
    Reverse(Somes(ParseAll(SliceFrom(lines, -limit), parse)))
  }

  /**
   * The pipeline both readers share. A missing file is reported without
   * being read; a read that throws yields the exception's message.
   */
  function ReadLog<T>(file: FileState<string>, limit: int, parse: string -> Option<T>,
                      notFound: string): ReadResult<T>
  {
    match file
    case Missing => ReadResult([], 0, Some(notFound))
    case Unreadable(reason) => ReadResult([], 0, Some(reason))
    case Present(content) =>
      var lines := Lines(content);
      ReadResult(Recent(lines, limit, parse), |lines|, None)
  }

  /**
   * The errors, the total and the bound on the logs, for any parser: the
   * total counts every non-empty line whatever `limit` is and whether or not
   * the line parses, and at most min(limit, total) records come back.
   */
  lemma ReadLogShape<T>(file: FileState<string>, limit: int, parse: string -> Option<T>, notFound: string)
    ensures var r := ReadLog(file, limit, parse, notFound);
      && (file.Missing? ==> r == ReadResult([], 0, Some(notFound)))
      && (file.Unreadable? ==> r == ReadResult([], 0, Some(file.reason)))
      && (file.Present? ==> r.error.None? && r.total == |Lines(file.content)|)
      && (file.Present? && limit >= 1 ==> |r.logs| <= Min(limit, r.total))
  {
    if file.Present? && limit >= 1 {
      KeepLast(Lines(file.content), limit);
    }
  }

  /**
   * For any parser, a readable file yields the parsed last min(limit, total)
   * lines with the nulls dropped, newest first: when the last line parses,
   * its record comes first.
   */
  lemma ReadLogWindow<T>(file: FileState<string>, limit: int, parse: string -> Option<T>, notFound: string)
    requires file.Present? && limit >= 1
    ensures var r := ReadLog(file, limit, parse, notFound);
      var lines := Lines(file.content);
      && r.logs == Reverse(Somes(ParseAll(lines[|lines| - Min(limit, |lines|)..], parse)))
      && (lines != [] && parse(lines[|lines| - 1]).Some? ==>
            r.logs != [] && Some(r.logs[0]) == parse(lines[|lines| - 1]))
  {
    var lines := Lines(file.content);
    KeepLast(lines, limit);
    if lines != [] && parse(lines[|lines| - 1]).Some? {
      ReadLogNewestFirst(lines, limit, parse);
    }
  }

  /**
   * Most recent first: when every line in the window parses, the i-th
   * record is the parse of the i-th line counted back from the end of the file.
   */
  lemma ReadLogAllParse<T>(lines: seq<string>, limit: int, parse: string -> Option<T>)
    requires limit >= 1
    requires forall j :: |lines| - Min(limit, |lines|) <= j < |lines| ==> parse(lines[j]).Some?
    ensures |Recent(lines, limit, parse)| == Min(limit, |lines|)
    ensures forall i :: 0 <= i < Min(limit, |lines|) ==>
      Some(Recent(lines, limit, parse)[i]) == parse(lines[|lines| - 1 - i])
  {
    KeepLast(lines, limit);
    var k := Min(limit, |lines|);
    var w := SliceFrom(lines, -limit);
    assert w == lines[|lines| - k..];
    var ps := ParseAll(w, parse);
    forall j | 0 <= j < |ps| ensures ps[j].Some? {
      assert ps[j] == parse(lines[|lines| - k + j]);
    }
    ReverseSomesAllPresent(ps);
    forall i | 0 <= i < k ensures Some(Recent(lines, limit, parse)[i]) == parse(lines[|lines| - 1 - i]) {
      assert ps[k - 1 - i] == parse(lines[|lines| - 1 - i]);
    }
  }

  /** When line j parses to vals[j] for every j, the window is the last values, newest first. */
  lemma RecentOfParsed<T>(lines: seq<string>, limit: int, parse: string -> Option<T>, vals: seq<T>)
    requires limit >= 1 && |vals| == |lines|
    requires forall j :: 0 <= j < |lines| ==> parse(lines[j]) == Some(vals[j])
    ensures Recent(lines, limit, parse) == Reverse(vals[|vals| - Min(limit, |vals|)..])
  {
    ReadLogAllParse(lines, limit, parse);
    var k := Min(limit, |vals|);
    var r := Recent(lines, limit, parse);
    forall i | 0 <= i < k ensures r[i] == Reverse(vals[|vals| - k..])[i] {
      assert Some(r[i]) == parse(lines[|lines| - 1 - i]);
    }
  }

  /** When line j parses to vals[j] for every j, nothing is dropped and the values come in line order. */
  lemma SomesOfParsed<T>(lines: seq<string>, parse: string -> Option<T>, vals: seq<T>)
    requires |vals| == |lines|
    requires forall j :: 0 <= j < |lines| ==> parse(lines[j]) == Some(vals[j])
    ensures Somes(ParseAll(lines, parse)) == vals
  {
    SomesAllPresent(ParseAll(lines, parse));
  }

  /** The newest line, when it parses, is the first record returned. */
  lemma ReadLogNewestFirst<T>(lines: seq<string>, limit: int, parse: string -> Option<T>)
    requires limit >= 1 && lines != []
    requires parse(lines[|lines| - 1]).Some?
    ensures Recent(lines, limit, parse) != []
    ensures Some(Recent(lines, limit, parse)[0]) == parse(lines[|lines| - 1])
  {
    KeepLast(lines, limit);
    var w := SliceFrom(lines, -limit);
    assert w == w[..|w| - 1] + [lines[|lines| - 1]];
    var ps := ParseAll(w, parse);
    assert ps == ParseAll(w[..|w| - 1], parse) + [parse(lines[|lines| - 1])];
    SomesLast(ParseAll(w[..|w| - 1], parse), parse(lines[|lines| - 1]).value);
  }

  /** `readAccessLogs(limit)` over the access log's state. */
  function ReadAccessLogs(file: FileState<string>, limit: int): (r: ReadResult<AccessRecord>)
    ensures file.Missing? ==> r == ReadResult([], 0, Some("Log file not found"))
    ensures file.Unreadable? ==> r == ReadResult([], 0, Some(file.reason))
    ensures file.Present? ==> r.error.None? && r.total == |Lines(file.content)|
    ensures file.Present? && limit >= 1 ==> |r.logs| <= Min(limit, r.total)
  {
    ReadLogShape(file, limit, ParseAccessLog, "Log file not found");
    ReadLog(file, limit, ParseAccessLog, "Log file not found")
  }

  /**
   * The records `readAccessLogs` returns from a readable file: those of the
   * last min(limit, total) lines that parse, newest first, so the last
   * line's record, when it parses, comes first. The first part restates the
   * pipeline with its window made explicit; what it yields for a file
   * written from records is `AccessFileRead`.
   */
  lemma ReadAccessLogsWindow(content: string, limit: int)
    requires limit >= 1
    ensures var lines := Lines(content); var r := ReadAccessLogs(Present(content), limit);
      && r.logs == Reverse(Somes(ParseAll(lines[|lines| - Min(limit, |lines|)..], ParseAccessLog)))
      && (lines != [] && ParseAccessLog(lines[|lines| - 1]).Some? ==>
            r.logs != [] && Some(r.logs[0]) == ParseAccessLog(lines[|lines| - 1]))
  {
    ReadLogWindow(Present(content), limit, ParseAccessLog, "Log file not found");
  }

  /** `lines.map(line => parseErrorLog(line))`. */
  function ErrorRecords(lines: seq<string>, now: string): (r: seq<ErrorRecord>)
    ensures |r| == |lines|
    ensures forall i :: 0 <= i < |lines| ==> r[i] == ParseErrorLog(lines[i], now)
  {
    seq(|lines|, i requires 0 <= i < |lines| => ParseErrorLog(lines[i], now))
  }

  /**
   * `readErrorLogs(limit)` over the error log's state, at time `now`. Since
   * every line yields a record, the logs are exactly the last
   * min(limit, total) lines, parsed, newest first.
   */
  function ReadErrorLogs(file: FileState<string>, limit: int, now: string): (r: ReadResult<ErrorRecord>)
    ensures file.Missing? ==> r == ReadResult([], 0, Some("Error log file not found"))
    ensures file.Unreadable? ==> r == ReadResult([], 0, Some(file.reason))
    ensures file.Present? ==> r.error.None? && r.total == |Lines(file.content)|
    ensures file.Present? && limit >= 1 ==>
      r.logs == Reverse(ErrorRecords(Lines(file.content), now)[r.total - Min(limit, r.total)..])
  {
    var parse := (line: string) => Some(ParseErrorLog(line, now));
    ReadLogShape(file, limit, parse, "Error log file not found");
    if file.Present? && limit >= 1 then
      var lines := Lines(file.content);
      RecentOfParsed(lines, limit, parse, ErrorRecords(lines, now));
      ReadLog(file, limit, parse, "Error log file not found")
    else
      ReadLog(file, limit, parse, "Error log file not found")
  }

  /** The lines nginx writes for `recs`, one per request. */
  function AccessLines(recs: seq<AccessRecord>): (r: seq<string>)
    ensures |r| == |recs|
    ensures forall i :: 0 <= i < |recs| ==> r[i] == FormatAccessLine(recs[i])
  {
    seq(|recs|, i requires 0 <= i < |recs| => FormatAccessLine(recs[i]))
  }

  /** The access log file holding the lines of `recs`, each ended by a line feed. */
  function AccessFile(recs: seq<AccessRecord>): string
    requires recs != []
  {
    Join(AccessLines(recs)) + "\n"
  }

  lemma AccessFileLines(recs: seq<AccessRecord>)
    requires recs != []
    requires forall i :: 0 <= i < |recs| ==> Loggable(recs[i]) && '\n' !in FormatAccessLine(recs[i])
    ensures Lines(AccessFile(recs)) == AccessLines(recs)
  {
    var lines := AccessLines(recs);
    forall i | 0 <= i < |recs| ensures lines[i] != [] {
      FormattedEnds(recs[i]);
    }
    FormattedEnds(recs[0]);
    FormattedEnds(recs[|recs| - 1]);
    LinesOfFile(lines);
  }

  lemma AccessLinesParse(recs: seq<AccessRecord>)
    requires forall i :: 0 <= i < |recs| ==> Loggable(recs[i])
    ensures forall i :: 0 <= i < |recs| ==> ParseAccessLog(AccessLines(recs)[i]) == Some(recs[i])
  {
    forall i | 0 <= i < |recs| ensures ParseAccessLog(AccessLines(recs)[i]) == Some(recs[i]) {
      AccessLog.ParseFormatted(recs[i], "");
      assert FormatAccessLine(recs[i]) + "" == FormatAccessLine(recs[i]);
    }
  }

  /**
   * A file of access lines written for `recs`, one per line, read with
   * `limit`: total is the number of records and the logs are the last
   * min(limit, n) records, newest first.
   */
  lemma AccessFileRead(recs: seq<AccessRecord>, limit: int)
    requires limit >= 1 && recs != []
    requires forall i :: 0 <= i < |recs| ==> Loggable(recs[i]) && '\n' !in FormatAccessLine(recs[i])
    ensures var r := ReadAccessLogs(Present(AccessFile(recs)), limit);
      && r.total == |recs|
      && r.logs == Reverse(recs[|recs| - Min(limit, |recs|)..])
  {
    AccessFileLines(recs);
    AccessLinesParse(recs);
    RecentOfParsed(AccessLines(recs), limit, ParseAccessLog, recs);
  }

  /** The lines nginx writes for the error records `es`. */
  function ErrorLines(es: seq<ErrorRecord>): (r: seq<string>)
    ensures |r| == |es|
    ensures forall i :: 0 <= i < |es| ==> r[i] == FormatErrorLine(es[i])
  {
    seq(|es|, i requires 0 <= i < |es| => FormatErrorLine(es[i]))
  }

  /** A record whose line survives the reader's trim: its message does not end in whitespace. */
  predicate ErrorLoggable(e: ErrorRecord)
  {
    Admissible(e) && !IsWhitespace(e.message[|e.message| - 1])
  }

  lemma ErrorLineEnds(e: ErrorRecord)
    requires ErrorLoggable(e)
    ensures var line := FormatErrorLine(e);
      line != [] && '\n' !in line && !IsWhitespace(line[0]) && !IsWhitespace(line[|line| - 1])
  {
    var line := FormatErrorLine(e);
    assert line[0] == e.timestamp[0];
    assert line[|line| - 1] == e.message[|e.message| - 1];
    forall i | 0 <= i < |line| ensures line[i] != '\n' {
      if i >= |line| - |e.message| {
        assert line[i] == e.message[i - (|line| - |e.message|)];
      } else if i >= 21 && i < 21 + |e.level| {
        assert line[i] == e.level[i - 21];
      }
    }
  }

  /** The error log file holding the lines of `es`, each ended by a line feed. */
  function ErrorFile(es: seq<ErrorRecord>): string
    requires es != []
  {
    Join(ErrorLines(es)) + "\n"
  }

  lemma ErrorFileLines(es: seq<ErrorRecord>)
    requires es != []
    requires forall i :: 0 <= i < |es| ==> ErrorLoggable(es[i])
    ensures Lines(ErrorFile(es)) == ErrorLines(es)
  {
    var lines := ErrorLines(es);
    forall i | 0 <= i < |es| ensures lines[i] != [] && '\n' !in lines[i] {
      ErrorLineEnds(es[i]);
    }
    ErrorLineEnds(es[0]);
    ErrorLineEnds(es[|es| - 1]);
    LinesOfFile(lines);
  }

  lemma ErrorLinesParse(es: seq<ErrorRecord>, now: string)
    requires forall i :: 0 <= i < |es| ==> Admissible(es[i])
    ensures ErrorRecords(ErrorLines(es), now) == es
  {
    var lines := ErrorLines(es);
    forall i | 0 <= i < |es| ensures ErrorRecords(lines, now)[i] == es[i] {
      ErrorLog.ParseFormatted(es[i], now);
    }
  }

  /**
   * An error log file written for `es`, read with `limit`, at any time:
   * total is the number of records and the logs are the last min(limit, n)
   * records, newest first.
   */
  lemma ErrorFileRead(es: seq<ErrorRecord>, limit: int, now: string)
    requires limit >= 1 && es != []
    requires forall i :: 0 <= i < |es| ==> ErrorLoggable(es[i])
    ensures var r := ReadErrorLogs(Present(ErrorFile(es)), limit, now);
      && r.total == |es|
      && r.logs == Reverse(es[|es| - Min(limit, |es|)..])
  {
    ErrorFileLines(es);
    ErrorLinesParse(es, now);
  }
}
