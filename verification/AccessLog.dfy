/**
 * The Gateway access log as the account observer reads it: appended bytes only,
 * lines of bounded length, and an hour of rows kept in memory.
 */
module AccessLog {
  import opened Wrappers

  type Byte = bv8
  type Line = seq<Byte>

  /** Times are nanoseconds; ZERO_TIME is the time no clock reading precedes. */
  datatype Row = Row(timestamp: int, user: string, account: string, status: int)

  datatype Activity = Activity(
    requests: nat,
    errors: nat,
    rate429: nat,
    serverErrors: nat,
    affectedUsers: set<string>,
    lastErrorAt: int,
    lastErrorStatus: int)

  /** What a regular file at the path is: which one, and its bytes. */
  datatype File = File(identity: nat, content: seq<Byte>)

  const NEWLINE: Byte := 10
  const MAX_LINE := 64 * 1024
  const PREFIX := 256
  const SECOND := 1_000_000_000
  const WINDOW := 3600 * SECOND
  const ZERO_TIME := -62_135_596_800 * SECOND

  // ------------------------------------------------------------------- lines

  /** The lines that are complete, without their newlines. */
  function Lines(bytes: seq<Byte>): seq<Line> {
    Split(bytes).0
  }

  /** Complete lines and the unfinished rest. */
  function Split(bytes: seq<Byte>): (seq<Line>, Line) {
    if bytes == [] then ([], [])
    else
      var (lines, rest) := Split(bytes[..|bytes| - 1]);
      var last := bytes[|bytes| - 1];
      if last == NEWLINE then (lines + [rest], []) else (lines, rest + [last])
  }

  /** The rows of the lines that are short enough and parse. */
  function RowsOf(parse: Line -> Option<Row>, lines: seq<Line>): seq<Row> {
    if lines == [] then []
    else RowsOf(parse, lines[..|lines| - 1]) + RowOf(parse, lines[|lines| - 1])
  }

  function RowOf(parse: Line -> Option<Row>, line: Line): seq<Row> {
    if |line| <= MAX_LINE && parse(line).Some? then [parse(line).value] else []
  }

  // ----------------------------------------------------------------- scanning

  /** The reader's state between bytes. */
  datatype Scan = Scan(pending: Line, dropping: bool, rows: seq<Row>)

  const START := Scan([], false, [])

  function Feed(parse: Line -> Option<Row>, s: Scan, b: Byte): Scan {
    if b == NEWLINE then
      Scan([], false, if s.dropping then s.rows else s.rows + RowOf(parse, s.pending))
    else if s.dropping then s.(pending := [])
    else if |s.pending| + 1 > MAX_LINE then Scan([], true, s.rows)
    else s.(pending := s.pending + [b])
  }

  function FeedAll(parse: Line -> Option<Row>, s: Scan, bytes: seq<Byte>): Scan {
    if bytes == [] then s else Feed(parse, FeedAll(parse, s, bytes[..|bytes| - 1]), bytes[|bytes| - 1])
  }

  lemma FeedLast(parse: Line -> Option<Row>, s: Scan, bytes: seq<Byte>, b: Byte)
    ensures FeedAll(parse, s, bytes + [b]) == Feed(parse, FeedAll(parse, s, bytes), b)
  {
    assert (bytes + [b])[..|bytes|] == bytes;
  }

  /** Between calls: nothing is pending while dropping, and never more than a line. */
  predicate Bounded(s: Scan) {
    |s.pending| <= MAX_LINE && (s.dropping ==> s.pending == [])
  }

  /** Feeding in two chunks is feeding their concatenation. */
  lemma {:induction false} ChunksDoNotMatter(parse: Line -> Option<Row>, s: Scan, first: seq<Byte>, second: seq<Byte>)
    ensures FeedAll(parse, s, first + second) == FeedAll(parse, FeedAll(parse, s, first), second)
  {
    if second == [] {
      assert first + second == first;
    } else {
      var init := second[..|second| - 1];
      assert (first + second)[..|first + second| - 1] == first + init;
      ChunksDoNotMatter(parse, s, first, init);
    }
  }

  lemma {:induction false} FeedIsBounded(parse: Line -> Option<Row>, s: Scan, bytes: seq<Byte>)
    requires Bounded(s)
    ensures Bounded(FeedAll(parse, s, bytes))
  {
    if bytes != [] {
      FeedIsBounded(parse, s, bytes[..|bytes| - 1]);
    }
  }

  /** Rows are exactly the parsed complete lines of bounded length; an overlong rest is being dropped. */
  lemma {:induction false} ScanIsLines(parse: Line -> Option<Row>, bytes: seq<Byte>)
    ensures
      var (lines, rest) := Split(bytes);
      FeedAll(parse, START, bytes) ==
        Scan(if |rest| <= MAX_LINE then rest else [], |rest| > MAX_LINE, RowsOf(parse, lines))
  {
    if bytes != [] {
      var init := bytes[..|bytes| - 1];
      ScanIsLines(parse, init);
      var (lines, rest) := Split(init);
      assert (lines + [rest])[..|lines|] == lines;
      assert RowsOf(parse, lines + [rest]) == RowsOf(parse, lines) + RowOf(parse, rest);
    }
  }

  /** A run without a newline only lengthens the pending line. */
  lemma {:induction false} FeedPlain(parse: Line -> Option<Row>, s: Scan, part: seq<Byte>)
    requires Bounded(s) && NEWLINE !in part
    ensures FeedAll(parse, s, part) ==
      if s.dropping then s
      else if |s.pending| + |part| > MAX_LINE then Scan([], true, s.rows)
      else s.(pending := s.pending + part)
  {
    if part != [] {
      var init := part[..|part| - 1];
      assert part == init + [part[|part| - 1]];
      assert part[|part| - 1] in part && NEWLINE !in init;
      FeedPlain(parse, s, init);
    }
  }

  /** Rows are only appended, whatever was there before. */
  lemma {:induction false} RowsAppend(parse: Line -> Option<Row>, s: Scan, rows: seq<Row>, bytes: seq<Byte>)
    ensures
      var a, b := FeedAll(parse, s, bytes), FeedAll(parse, s.(rows := rows), bytes);
      && a.pending == b.pending && a.dropping == b.dropping
      && |s.rows| <= |a.rows| && a.rows[..|s.rows|] == s.rows
      && b.rows == rows + a.rows[|s.rows|..]
  {
    if bytes == [] {
      assert s.rows[|s.rows|..] == [];
    } else {
      var init := bytes[..|bytes| - 1];
      RowsAppend(parse, s, rows, init);
      var a := FeedAll(parse, s, init);
      var line := RowOf(parse, a.pending);
      assert (a.rows + line)[|s.rows|..] == a.rows[|s.rows|..] + line;
      assert (a.rows + line)[..|s.rows|] == s.rows;
      hide RowOf;
    }
  }

  // -------------------------------------------------------------- aggregation

  predicate Operational(status: int) {
    status == 401 || status == 403 || status == 429 || status >= 500
  }

  const NO_ACTIVITY := Activity(0, 0, 0, 0, {}, ZERO_TIME, 0)

  function Counted(a: Activity, row: Row): Activity {
    var seen := a.(requests := a.requests + 1);
    if !Operational(row.status) then seen
    else
      var later := row.timestamp > a.lastErrorAt;
      seen.(errors := a.errors + 1,
            rate429 := if row.status == 429 then a.rate429 + 1 else a.rate429,
            serverErrors := if row.status >= 500 then a.serverErrors + 1 else a.serverErrors,
            affectedUsers := if row.user != "" then a.affectedUsers + {row.user} else a.affectedUsers,
            lastErrorAt := if later then row.timestamp else a.lastErrorAt,
            lastErrorStatus := if later then row.status else a.lastErrorStatus)
  }

  predicate Recent(row: Row, now: int) {
    row.timestamp >= now - WINDOW
  }

  /** Rows of the window, but none from more than a second ahead. */
  function Tally(activities: map<string, Activity>, row: Row, now: int): map<string, Activity> {
    if !Recent(row, now) || row.timestamp > now + SECOND then activities
    else
      activities[row.account := Counted(if row.account in activities then activities[row.account] else NO_ACTIVITY, row)]
  }

  function Aggregate(rows: seq<Row>, now: int): map<string, Activity> {
    if rows == [] then map[] else Tally(Aggregate(rows[..|rows| - 1], now), rows[|rows| - 1], now)
  }

  /** Everything computed anew over the whole file. */
  function FromScratch(parse: Line -> Option<Row>, content: seq<Byte>, now: int): map<string, Activity> {
    Aggregate(RowsOf(parse, Lines(content)), now)
  }

  function Retained(rows: seq<Row>, now: int): seq<Row> {
    if rows == [] then []
    else
      var last := rows[|rows| - 1];
      Retained(rows[..|rows| - 1], now) + if Recent(last, now) then [last] else []
  }

  /** Forgetting what an earlier or equal time had already passed changes nothing. */
  lemma {:induction false} PruningIsInvisible(rows: seq<Row>, more: seq<Row>, before: int, now: int)
    requires before <= now
    ensures Aggregate(Retained(rows, before) + more, now) == Aggregate(rows + more, now)
    ensures Retained(Retained(rows, before) + more, now) == Retained(rows + more, now)
    decreases |rows| + |more|
  {
    if more != [] {
      var init, kept := more[..|more| - 1], Retained(rows, before);
      PruningIsInvisible(rows, init, before, now);
      assert (rows + more)[..|rows + more| - 1] == rows + init && (kept + more)[..|kept + more| - 1] == kept + init;
    } else if rows != [] {
      var init, last := rows[..|rows| - 1], rows[|rows| - 1];
      PruningIsInvisible(init, [], before, now);
      var kept := Retained(init, before);
      assert init + [] == init && kept + [] == kept && rows + [] == rows && Retained(rows, before) + [] == Retained(rows, before);
      assert (kept + [last])[..|kept|] == kept;
    }
  }
}
