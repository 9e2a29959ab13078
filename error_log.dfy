// `parseErrorLog`: one line of nginx's error log,
// `YYYY/MM/DD HH:MM:SS [level] message`, becomes a record. A line of any
// other shape is kept too, as a record of level "unknown" whose message is
// the whole line.
module ErrorLog {
  import opened Common
  import opened Text
  import opened Pattern

  datatype ErrorRecord = ErrorRecord(timestamp: string, level: string, message: string)

  /** `\d{4}\/\d{2}\/\d{2} \d{2}:\d{2}:\d{2}`: nineteen characters of date and time. */
  predicate IsDateTime(s: string)
  {
    |s| == 19
    && forall i :: 0 <= i < 19 ==>
      if i == 4 || i == 7 then s[i] == '/'
      else if i == 10 then s[i] == ' '
      else if i == 13 || i == 16 then s[i] == ':'
      else IsDigit(s[i])
  }

  /**
   * The expression `^(\d{4}\/\d{2}\/\d{2} \d{2}:\d{2}:\d{2}) \[(\w+)\] (.+)`:
   * the date and time, ` [`, a run of word characters, `] `, and then the
   * longest non-empty run of characters other than line terminators.
   */
  function MatchErrorLine(line: string): Option<ErrorRecord>
  {
    if |line| < 21 || !IsDateTime(line[..19]) || line[19..21] != " [" then None
    else
      var rest := line[21..];
      var n := Span(rest, Word);
      if n == 0 || !("] " <= rest[n..]) then None
      else
        var body := rest[n + 2..];
        var m := Span(body, NotLineTerminator);
        if m == 0 then None else Some(ErrorRecord(line[..19], rest[..n], body[..m]))
  }

  /** The line nginx writes for a record. */
  function FormatErrorLine(e: ErrorRecord): string
  {
    e.timestamp + " [" + e.level + "] " + e.message
  }

  /** A record the expression can capture. */
  predicate Admissible(e: ErrorRecord)
  {
    IsDateTime(e.timestamp)
    && e.level != [] && AllIn(Word, e.level)
    && e.message != [] && AllIn(NotLineTerminator, e.message)
  }

  /** The line has the error-log shape: it starts with the line of some admissible record. */
  ghost predicate ErrorShaped(line: string)
  {
    exists e :: Admissible(e) && FormatErrorLine(e) <= line
  }

  /**
   * The message a matching line yields: the rest of the line up to the
   * first line terminator. With no line terminator in the line, that is all
   * of the rest.
   */
  lemma {:induction false} MatchFormatted(e: ErrorRecord, tail: string)
    requires Admissible(e)
    requires tail == [] || IsLineTerminator(tail[0])
    ensures MatchErrorLine(FormatErrorLine(e) + tail) == Some(e)
  {
    var line := FormatErrorLine(e) + tail;
    var lvl := e.level;
    assert line == e.timestamp + (" [" + (lvl + ("] " + (e.message + tail))));
    assert line[..19] == e.timestamp;
    assert line[19..21] == " [";
    var rest := line[21..];
    assert rest == lvl + ("] " + (e.message + tail));
    SpanOfRun(lvl, "] " + (e.message + tail), Word);
    assert rest[..|lvl|] == lvl;
    assert rest[|lvl|..] == "] " + (e.message + tail);
    var body := rest[|lvl| + 2..];
    assert body == e.message + tail;
    SpanOfRun(e.message, tail, NotLineTerminator);
    assert body[..|e.message|] == e.message;
  }

  /** What a match yields is admissible and its line is where the matched line starts. */
  lemma MatchErrorSound(line: string)
    requires MatchErrorLine(line).Some?
    ensures var e := MatchErrorLine(line).value;
      Admissible(e) && FormatErrorLine(e) <= line && e.timestamp == line[..19]
  {
    var rest := line[21..];
    var n := Span(rest, Word);
    var body := rest[n + 2..];
    var m := Span(body, NotLineTerminator);
    var e := ErrorRecord(line[..19], rest[..n], body[..m]);
    assert MatchErrorLine(line) == Some(e);
    SplitsAsFormatted(line[..19], rest[..n], body[..m], rest, body, line);
  }

  lemma SplitsAsFormatted(ts: string, lvl: string, msg: string, rest: string, body: string, line: string)
    requires |line| >= 21 && ts == line[..19] && line[19..21] == " [" && rest == line[21..]
    requires lvl <= rest && "] " <= rest[|lvl|..] && body == rest[|lvl| + 2..]
    requires msg <= body
    ensures FormatErrorLine(ErrorRecord(ts, lvl, msg)) <= line
  {
    assert body == msg + body[|msg|..];
    assert rest == lvl + "] " + body;
    assert line == ts + " [" + rest;
    assert line == FormatErrorLine(ErrorRecord(ts, lvl, msg)) + body[|msg|..];
  }

  /** Any line that starts like an admissible record's line matches. */
  lemma MatchErrorComplete(e: ErrorRecord, line: string)
    requires Admissible(e) && FormatErrorLine(e) <= line
    ensures MatchErrorLine(line).Some?
  {
    var tail := line[|FormatErrorLine(e)|..];
    var lvl := e.level;
    assert line == e.timestamp + (" [" + (lvl + ("] " + (e.message + tail))));
    assert line[..19] == e.timestamp;
    assert line[19..21] == " [";
    var rest := line[21..];
    assert rest == lvl + ("] " + (e.message + tail));
    SpanOfRun(lvl, "] " + (e.message + tail), Word);
    assert rest[|lvl|..] == "] " + (e.message + tail);
    var body := rest[|lvl| + 2..];
    assert body == e.message + tail;
    assert body[0] == e.message[0];
  }

  /**
   * `parseErrorLog(line)`, given the time `now` at which it runs. It never
   * drops a line: a line of the error-log shape yields its date and time,
   * level and message, and any other line yields level "unknown" with the
   * whole line as message. No input makes it throw, so the `catch` branch of
   * the source (level "error") cannot be reached.
   */
  function ParseErrorLog(line: string, now: string): (r: ErrorRecord)
    ensures !ErrorShaped(line) ==> r == ErrorRecord(now, "unknown", line)
    ensures ErrorShaped(line) ==> Admissible(r) && FormatErrorLine(r) <= line && r.timestamp == line[..19]
  {
    match MatchErrorLine(line)
    case Some(e) =>
      MatchErrorSound(line);
      e
    case None =>
      assert !ErrorShaped(line) by {
        forall e | Admissible(e) && FormatErrorLine(e) <= line ensures false {
          MatchErrorComplete(e, line);
        }
      }
      ErrorRecord(now, "unknown", line)
  }

  /** Round trip: a written line parses back to its record, whatever the clock says. */
  lemma ParseFormatted(e: ErrorRecord, now: string)
    requires Admissible(e)
    ensures ParseErrorLog(FormatErrorLine(e), now) == e
  {
    MatchFormatted(e, "");
    assert FormatErrorLine(e) + "" == FormatErrorLine(e);
  }
}
