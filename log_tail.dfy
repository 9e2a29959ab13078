// `watchLogFile`: follows the access log. A closure variable `lastSize`
// remembers how far the file has been read; on each `change` event whose
// reported size is larger, the bytes from `lastSize` to that size are
// streamed in, split into lines, and every line that parses as an access
// record is handed to the callback, in file order.
module LogTail {
  import opened Common
  import opened Text
  import opened AccessLog
  import opened LogReader

  /** The event types `fs.watch` reports. */
  datatype WatchEvent = Change | Rename

  /**
   * What one watcher callback observes: the event type, the size `statSync`
   * reports, and the file's content when the read stream reads it (the
   * file may have grown in between).
   */
  datatype Observation = Observation(event: WatchEvent, currentSize: nat, content: string)

  /**
   * `createReadStream(path, { start, end })`: the bytes from `start` to
   * `end`, both included, as far as the file reaches.
   */
  function ReadRange(content: string, start: nat, end: nat): (r: string)
    ensures |r| <= end + 1 - start || start > end
    ensures start <= |content| ==> r <= content[start..]
  {
    var lo := Min(start, |content|);
    var hi := Min(end + 1, |content|);
    if lo <= hi then content[lo..hi] else ""
  }

  /**
   * The `end` handler: `newData.trim().split('\n').filter(line => line)`,
   * then the callback for every line `parseAccessLog` accepts.
   */
  function ChunkRecords(chunk: string): (r: seq<AccessRecord>)
    ensures |r| <= |Lines(chunk)|
  {
    Somes(ParseAll(Lines(chunk), ParseAccessLog))
  }

  /** The cursor after an event and the records handed to the callback. */
  datatype Step = Step(cursor: nat, emitted: seq<AccessRecord>)

  /**
   * One watcher callback, starting from cursor `cursor`. Only a `change`
   * event with a size beyond the cursor reads anything; the cursor then
   * becomes that size. A smaller size (a truncated or rotated file) leaves
   * the cursor where it was.
   */
  function TailStep(cursor: nat, obs: Observation): (r: Step)
    ensures r.cursor >= cursor
    ensures r.cursor != cursor <==> obs.event == Change && obs.currentSize > cursor
    ensures r.cursor != cursor ==> r.cursor == obs.currentSize
    ensures r.cursor == cursor ==> r.emitted == []
  {
    if obs.event == Change && obs.currentSize > cursor then
      Step(obs.currentSize, ChunkRecords(ReadRange(obs.content, cursor, obs.currentSize)))
    else
      Step(cursor, [])
  }

  /** A run of callbacks: the final cursor and everything handed over, in order. */
  function Run(cursor: nat, obs: seq<Observation>): Step
    decreases |obs|
  {
    if obs == [] then Step(cursor, [])
    else
      var first := TailStep(cursor, obs[0]);
      var rest := Run(first.cursor, obs[1..]);
      Step(rest.cursor, first.emitted + rest.emitted)
  }

  /**
   * The cursor is a high-water mark: after any run it is at least where it
   * started and at least every size a `change` event reported, and it is
   * either where it started or one of those sizes.
   */
  lemma {:induction false} RunCursor(cursor: nat, obs: seq<Observation>)
    decreases |obs|
    ensures Run(cursor, obs).cursor >= cursor
    ensures forall i :: 0 <= i < |obs| && obs[i].event == Change ==> Run(cursor, obs).cursor >= obs[i].currentSize
    ensures Run(cursor, obs).cursor == cursor
      || exists i :: 0 <= i < |obs| && obs[i].event == Change && Run(cursor, obs).cursor == obs[i].currentSize
  {
    if obs != [] {
      var first := TailStep(cursor, obs[0]);
      RunCursor(first.cursor, obs[1..]);
      var r := Run(cursor, obs);
      assert r.cursor == Run(first.cursor, obs[1..]).cursor;
      forall i | 0 <= i < |obs| && obs[i].event == Change ensures r.cursor >= obs[i].currentSize {
        if i > 0 {
          assert obs[i] == obs[1..][i - 1];
        }
      }
      if r.cursor != cursor {
        if r.cursor == first.cursor {
          assert obs[0].event == Change && r.cursor == obs[0].currentSize;
        } else {
          var j :| 0 <= j < |obs[1..]| && obs[1..][j].event == Change && r.cursor == obs[1..][j].currentSize;
          assert obs[j + 1] == obs[1..][j];
        }
      }
    }
  }

  /**
   * A run in which no `change` event reports a size beyond the cursor hands
   * nothing over and leaves the cursor where it was.
   */
  lemma {:induction false} RunQuiet(cursor: nat, obs: seq<Observation>)
    decreases |obs|
    requires forall i :: 0 <= i < |obs| && obs[i].event == Change ==> obs[i].currentSize <= cursor
    ensures Run(cursor, obs) == Step(cursor, [])
  {
    if obs != [] {
      assert forall i :: 0 <= i < |obs[1..]| ==> obs[1..][i] == obs[i + 1];
      RunQuiet(cursor, obs[1..]);
    }
  }

  /** The records of a chunk made of whole access lines are exactly the records written. */
  lemma ChunkOfWholeLines(recs: seq<AccessRecord>)
    requires recs != []
    requires forall i :: 0 <= i < |recs| ==> Loggable(recs[i]) && '\n' !in FormatAccessLine(recs[i])
    ensures ChunkRecords(AccessFile(recs)) == recs
  {
    AccessFileLines(recs);
    AccessLinesParse(recs);
    SomesOfParsed(AccessLines(recs), ParseAccessLog, recs);
  }

  /**
   * Complete lines appended to the file are handed over exactly: when the
   * lines written for `recs` are appended behind the cursor and the event
   * reports the new size, the callback receives `recs`, in file order, and
   * the cursor moves to the end of the file.
   */
  lemma AppendedLinesEmitted(before: string, recs: seq<AccessRecord>)
    requires recs != []
    requires forall i :: 0 <= i < |recs| ==> Loggable(recs[i]) && '\n' !in FormatAccessLine(recs[i])
    ensures var content := before + AccessFile(recs);
      TailStep(|before|, Observation(Change, |content|, content)) == Step(|content|, recs)
  {
    var content := before + AccessFile(recs);
    assert ReadRange(content, |before|, |content|) == AccessFile(recs);
    ChunkOfWholeLines(recs);
  }

  /**
   * The file as written: each growth event reads from the cursor to the
   * end of the file, finished line or not. A line whose first part is
   * written before one event and whose rest is written before the next
   * reaches the parser as two separate fragments.
   */
  lemma SplitLineDelivery(cursor: nat, first: string, second: string)
    requires cursor < |first| < |second| && first <= second
    ensures Run(cursor, [Observation(Change, |first|, first), Observation(Change, |second|, second)])
      == Step(|second|, ChunkRecords(first[cursor..]) + ChunkRecords(second[|first|..]))
  {
    var obs := [Observation(Change, |first|, first), Observation(Change, |second|, second)];
    assert ReadRange(first, cursor, |first|) == first[cursor..];
    assert ReadRange(second, |first|, |second|) == second[|first|..];
    assert obs[1..] == [obs[1]];
    assert obs[1..][1..] == [];
    assert Run(|second|, []) == Step(|second|, []);
    assert ChunkRecords(second[|first|..]) + [] == ChunkRecords(second[|first|..]);
  }

  /**
   * The file as written: after the file shrinks below the cursor, events
   * read nothing until the file grows beyond the old cursor again.
   */
  lemma TruncationIgnored(cursor: nat, obs: seq<Observation>)
    requires forall i :: 0 <= i < |obs| ==> |obs[i].content| <= cursor && obs[i].currentSize == |obs[i].content|
    ensures Run(cursor, obs) == Step(cursor, [])
  {
    RunQuiet(cursor, obs);
  }

  /** Node's default `highWaterMark` for file streams: the largest chunk a `data` event carries. */
  const ChunkSize := 65536

  /** The read stream: `newData += chunk.toString()` for every chunk of the range. */
  method ReadStream(content: string, start: nat, end: nat) returns (newData: string)
    ensures newData == ReadRange(content, start, end)
  {
    var lo := Min(start, |content|);
    var hi := Min(end + 1, |content|);
    newData := "";
    if lo > hi {
      return;
    }
    var pos := lo;
    while pos < hi
      invariant lo <= pos <= hi
      invariant newData == content[lo..pos]
    {
      var next := Min(pos + ChunkSize, hi);
      var chunk := content[pos..next];
      assert content[lo..next] == content[lo..pos] + chunk;
      newData := newData + chunk;
      pos := next;
    }
  }

  /** The `end` handler's `forEach`: the callback receives each accepted record, in line order. */
  method EmitParsed(newData: string) returns (emitted: seq<AccessRecord>)
    ensures emitted == ChunkRecords(newData)
  {
    var newLines := Lines(newData);
    emitted := KeepParsed(newLines, ParseAccessLog);
  }

  /** `lines.forEach(line => { const v = parse(line); if (v) callback(v); })`. */
  method KeepParsed<T>(lines: seq<string>, parse: string -> Option<T>) returns (kept: seq<T>)
    ensures kept == Somes(ParseAll(lines, parse))
  {
    kept := [];
    var j := 0;
    while j < |lines|
      invariant 0 <= j <= |lines|
      invariant kept == Somes(ParseAll(lines[..j], parse))
    {
      var parsed := parse(lines[j]);
      ParseAllSnoc(lines[..j], lines[j], parse);
      assert lines[..j + 1] == lines[..j] + [lines[j]];
      SomesAppend(ParseAll(lines[..j], parse), [parsed]);
      if parsed.Some? {
        kept := kept + [parsed.value];
      }
      j := j + 1;
    }
    assert lines[..j] == lines;
  }

  lemma ParseAllSnoc<T>(lines: seq<string>, line: string, parse: string -> Option<T>)
    ensures ParseAll(lines + [line], parse) == ParseAll(lines, parse) + [parse(line)]
  {
  }

  /** The closure state of one `watchLogFile` call: its cursor `lastSize`. */
  class LogTail {
    var lastSize: nat

    /** `lastSize` starts at the file's size, or 0 when the file does not exist. */
    constructor (fileExists: bool, size: nat)
      ensures lastSize == if fileExists then size else 0
    {
      lastSize := if fileExists then size else 0;
    }

    /** The watcher callback for one event; returns what it hands to the callback. */
    method OnChange(obs: Observation) returns (emitted: seq<AccessRecord>)
      modifies this
      ensures Step(lastSize, emitted) == TailStep(old(lastSize), obs)
    {
      emitted := [];
      if obs.event == Change {
        var currentSize := obs.currentSize;
        if currentSize > lastSize {
          var newData := ReadStream(obs.content, lastSize, currentSize);
          emitted := EmitParsed(newData);
          lastSize := currentSize;
        }
      }
    }
  }

  /**
   * `watchLogFile(path, callback)`: a watcher whose cursor starts at the
   * file's size, or null when `fs.watch` throws (as it does for a path
   * that does not exist).
   */
  method WatchLogFile(fileExists: bool, size: nat, watchOk: bool) returns (w: LogTail?)
    ensures w != null <==> watchOk
    ensures w != null ==> fresh(w) && w.lastSize == if fileExists then size else 0
  {
    if !watchOk {
      return null;
    }
    w := new LogTail(fileExists, size);
  }
}
