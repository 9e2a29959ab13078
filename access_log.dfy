// `parseAccessLog`: one line of nginx's "combined" access-log format
// (`$remote_addr - $remote_user [$time_local] "$request" $status
// $body_bytes_sent "$http_referer" "$http_user_agent"`) becomes a record,
// or null when the line does not have that shape.
module AccessLog {
  import opened Common
  import opened Text
  import opened Pattern

  datatype AccessRecord = AccessRecord(
    ip: string,
    user: Option<string>,
    timestamp: string,
    httpMethod: string,
    path: string,
    protocol: string,
    status: nat,
    size: nat,
    referer: Option<string>,
    userAgent: string)

  /**
   * The parser's expression
   * `^(\S+) - (\S+) \[([^\]]+)\] "(\S+) ([^\s]+) ([^"]+)" (\d+) (\d+) "([^"]*)" "([^"]*)"`,
   * group by group, each with the literal that follows it.
   */
  const Combined: seq<Group> := [
    Group(NonWhitespace, true, " - "),
    Group(NonWhitespace, true, " ["),
    Group(Except(']'), true, "] \""),
    Group(NonWhitespace, true, " "),
    Group(NonWhitespace, true, " "),
    Group(Except('"'), true, "\" "),
    Group(Digit, true, " "),
    Group(Digit, true, " \""),
    Group(Except('"'), false, "\" \""),
    Group(Except('"'), false, "\"")
  ]

  lemma CombinedUnambiguous()
    ensures Unambiguous(Combined)
  {
  }

  /** A captured `-` stands for an absent user or referer. */
  function DashAsNull(g: string): (r: Option<string>)
    ensures r.None? <==> g == "-"
  {
    if g == "-" then None else Some(g)
  }

  /** The record built from the ten captures; status and size are read as decimal numbers. */
  function ToRecord(gs: seq<string>): AccessRecord
    requires Fits(Combined, gs)
  {
    assert AllIn(Digit, gs[6]) && AllIn(Digit, gs[7]);
    AccessRecord(gs[0], DashAsNull(gs[1]), gs[2], gs[3], gs[4], gs[5],
                 DecimalValue(gs[6]), DecimalValue(gs[7]), DashAsNull(gs[8]), gs[9])
  }

  /**
   * `parseAccessLog(line)`: a record exactly when the line matches the
   * combined expression, null otherwise. It never throws, so the source's
   * `catch` branch cannot be reached.
   */
  function ParseAccessLog(line: string): (r: Option<AccessRecord>)
    ensures r.Some? <==> Matches(Combined, line)
    ensures r.Some? ==> exists gs :: Fits(Combined, gs) && Render(Combined, gs) <= line && r.value == ToRecord(gs)
  {
    CombinedUnambiguous();
    MatchExact(Combined, line);
    match Match(Combined, line)
    case None => None
    case Some(gs) =>
      MatchSound(Combined, line);
      Some(ToRecord(gs))
  }

  /** How nginx writes an absent user or referer. */
  function NullAsDash(v: Option<string>): string
  {
    match v
    case None => "-"
    case Some(x) => x
  }

  /** The fields of a record as nginx writes them into the line. */
  function Fields(r: AccessRecord): seq<string>
  {
    [r.ip, NullAsDash(r.user), r.timestamp, r.httpMethod, r.path, r.protocol,
     NatToString(r.status), NatToString(r.size), NullAsDash(r.referer), r.userAgent]
  }

  /** The combined-format line nginx writes for a request. */
  function FormatAccessLine(r: AccessRecord): string
  {
    Render(Combined, Fields(r))
  }

  predicate NoWhitespace(s: string) { forall i :: 0 <= i < |s| ==> !IsWhitespace(s[i]) }

  predicate Lacks(s: string, c: char) { c !in s }

  /**
   * The character constraints under which a record survives being written
   * and parsed: every group's run is admissible and a present user or
   * referer is not the dash that means "absent".
   */
  predicate Loggable(r: AccessRecord)
  {
    && r.ip != "" && NoWhitespace(r.ip)
    && (r.user.Some? ==> r.user.value != "" && r.user.value != "-" && NoWhitespace(r.user.value))
    && r.timestamp != "" && Lacks(r.timestamp, ']')
    && r.httpMethod != "" && NoWhitespace(r.httpMethod)
    && r.path != "" && NoWhitespace(r.path)
    && r.protocol != "" && Lacks(r.protocol, '"')
    && (r.referer.Some? ==> r.referer.value != "-" && Lacks(r.referer.value, '"'))
    && Lacks(r.userAgent, '"')
  }

  lemma LacksAllIn(s: string, c: char)
    requires Lacks(s, c)
    ensures AllIn(Except(c), s)
  {
    forall i | 0 <= i < |s| ensures InClass(Except(c), s[i]) {
      assert s[i] in s;
    }
  }

  lemma FieldsFit(r: AccessRecord)
    requires Loggable(r)
    ensures Fits(Combined, Fields(r))
  {
    var gs := Fields(r);
    LacksAllIn(r.timestamp, ']');
    LacksAllIn(r.protocol, '"');
    LacksAllIn(r.userAgent, '"');
    if r.referer.Some? {
      LacksAllIn(r.referer.value, '"');
    }
    forall i | 0 <= i < |Combined|
      ensures AllIn(Combined[i].cls, gs[i]) && (Combined[i].nonEmpty ==> gs[i] != "")
    {
      if i == 6 || i == 7 {
        assert AllDigits(gs[i]);
      }
    }
  }

  lemma FieldsRecord(r: AccessRecord)
    requires Loggable(r)
    ensures Fits(Combined, Fields(r)) && ToRecord(Fields(r)) == r
  {
    FieldsFit(r);
  }

  /**
   * Round trip: parsing the line written for a loggable record, followed by
   * anything, recovers every field of the record.
   */
  lemma ParseFormatted(r: AccessRecord, tail: string)
    requires Loggable(r)
    ensures ParseAccessLog(FormatAccessLine(r) + tail) == Some(r)
  {
    var gs := Fields(r);
    FieldsRecord(r);
    CombinedUnambiguous();
    MatchRender(Combined, gs, tail);
  }

  /** Parsing the same line twice gives the same answer, and a match is never split two ways. */
  lemma CapturesUnique(line: string, gs1: seq<string>, gs2: seq<string>)
    requires Fits(Combined, gs1) && Render(Combined, gs1) <= line
    requires Fits(Combined, gs2) && Render(Combined, gs2) <= line
    ensures gs1 == gs2
  {
    CombinedUnambiguous();
    MatchExact(Combined, line);
  }

  /** A written access line starts with the address and ends with the closing quote. */
  lemma FormattedEnds(r: AccessRecord)
    requires Loggable(r)
    ensures var line := FormatAccessLine(r);
      line != [] && line[0] == r.ip[0] && line[|line| - 1] == '"'
      && !IsWhitespace(line[0]) && !IsWhitespace(line[|line| - 1])
  {
    var gs := Fields(r);
    assert FormatAccessLine(r) == gs[0] + Combined[0].follow + Render(Combined[1..], gs[1..]);
    RenderEndsWithLastLiteral(Combined, gs);
  }
}
