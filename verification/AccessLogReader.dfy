/** The reader itself: one file handle's worth of state, updated in place. */
module AccessLogReader {
  import opened Wrappers
  import opened AccessLog
  import opened AccessLogLaws

  /** The bytes that the reader has not noticed being rewritten. */
  ghost predicate Unnoticed(identity: Option<nat>, offset: nat, prefix: seq<Byte>, seen: seq<Byte>, file: File) {
    && identity == Some(file.identity) && offset <= |file.content|
    && |prefix| <= |file.content| && file.content[..|prefix|] == prefix
    && file.content[..offset] != seen
  }

  /** The result of a scan of the bytes: it reports every account's numbers in the window. */
  ghost predicate Observed(parse: Line -> Option<Row>, seen: seq<Byte>, now: int, result: map<string, Activity>) {
    result == FromScratch(parse, seen, now) && Reported(result, RowsOf(parse, Lines(seen)), now)
  }

  class Reader {
    const parse: Line -> Option<Row>
    var identity: Option<nat>
    var offset: nat
    var prefix: seq<Byte>
    var pending: Line
    var dropping: bool
    var rows: seq<Row>
    var lastNow: int
    ghost var seen: seq<Byte>

    constructor (parse: Line -> Option<Row>)
      ensures Valid() && lastNow == ZERO_TIME && seen == [] && this.parse == parse
    {
      this.parse := parse;
      identity, offset, prefix, pending, dropping, rows, lastNow, seen := None, 0, [], [], false, [], ZERO_TIME, [];
    }

    /** The reader stands after `seen`, and has pruned no row that the last reading could still need. */
    ghost predicate Valid()
      reads this
    {
      && offset == |seen|
      && prefix == seen[..if offset < PREFIX then offset else PREFIX]
      && lastNow >= ZERO_TIME
      && ScannedTo(lastNow)
    }

    ghost predicate ScannedTo(time: int)
      reads this
    {
      var scan := FeedAll(parse, START, seen);
      pending == scan.pending && dropping == scan.dropping && rows == Retained(scan.rows, time)
    }

    method Reset()
      modifies this
      ensures Valid() && seen == [] && rows == [] && identity == None && lastNow == old(lastNow)
      requires lastNow >= ZERO_TIME
    {
      identity, offset, prefix, pending, dropping, rows, seen := None, 0, [], [], false, [], [];
    }

    /** One chunk, in any split of the file. */
    method Consume(chunk: seq<Byte>)
      requires Bounded(Scan(pending, dropping, rows))
      modifies this`pending, this`dropping, this`rows
      ensures Scan(pending, dropping, rows) == FeedAll(parse, old(Scan(pending, dropping, rows)), chunk)
      ensures Bounded(Scan(pending, dropping, rows))
    {
      hide Bounded, Feed, FeedAll;
      ghost var start := Scan(pending, dropping, rows);
      assert FeedAll(parse, start, chunk[..0]) == start by { FeedNothing(parse, start, chunk[..0]); }
      var i := 0;
      while i < |chunk|
        invariant 0 <= i <= |chunk|
        invariant Bounded(Scan(pending, dropping, rows))
        invariant Scan(pending, dropping, rows) == FeedAll(parse, start, chunk[..i])
      {
        var newline := IndexOfNewline(chunk, i);
        ConsumeStep(parse, start, chunk, i, newline);
        if newline == |chunk| {
          Keep(chunk[i..newline]);
          i := newline;
        } else {
          EndLine(chunk[i..newline]);
          i := newline + 1;
        }
      }
      assert chunk[..i] == chunk;
    }

    /** The rest of a chunk without a newline; an overlong line starts being dropped. */
    method Keep(part: seq<Byte>)
      requires Bounded(Scan(pending, dropping, rows)) && NEWLINE !in part
      modifies this`pending, this`dropping
      ensures Scan(pending, dropping, rows) == FeedAll(parse, old(Scan(pending, dropping, rows)), part)
      ensures Bounded(Scan(pending, dropping, rows))
    {
      FeedPlain(parse, Scan(pending, dropping, rows), part);
      if !dropping {
        pending := pending + part;
        if |pending| > MAX_LINE {
          pending, dropping := [], true;
        }
      }
    }

    /** A part up to a newline: the line is parsed unless it was too long. */
    method EndLine(part: seq<Byte>)
      requires Bounded(Scan(pending, dropping, rows)) && NEWLINE !in part
      modifies this`pending, this`dropping, this`rows
      ensures Scan(pending, dropping, rows) == Feed(parse, FeedAll(parse, old(Scan(pending, dropping, rows)), part), NEWLINE)
      ensures Bounded(Scan(pending, dropping, rows))
    {
      FeedPlain(parse, Scan(pending, dropping, rows), part);
      if dropping {
        dropping, pending := false, [];
      } else {
        pending := pending + part;
        if |pending| <= MAX_LINE {
          var row := parse(pending);
          if row.Some? {
            rows := rows + [row.value];
          }
        }
        pending := [];
      }
    }

    /** Rows kept so far: what was left of `base`, and everything scanned since. */
    ghost predicate ScannedSince(base: seq<Row>, time: int)
      reads this
    {
      var scan := FeedAll(parse, START, seen);
      && pending == scan.pending && dropping == scan.dropping
      && |base| <= |scan.rows| && scan.rows[..|base|] == base
      && rows == Retained(base, time) + scan.rows[|base|..]
    }

    /** Reads from the offset to the end, in chunks of whatever size the system returns. */
    method ReadToEnd(content: seq<Byte>, ghost base: seq<Row>, ghost time: int)
      requires offset <= |content| && ScannedSince(base, time)
      modifies this`offset, this`pending, this`dropping, this`rows, this`seen
      ensures offset == |content| && seen == old(seen) + content[old(offset)..] && ScannedSince(base, time)
    {
      while offset < |content|
        invariant old(offset) <= offset <= |content|
        invariant seen == old(seen) + content[old(offset)..offset] && ScannedSince(base, time)
      {
        var count: nat :| 0 < count <= |content| - offset;
        ReadChunk(content[offset..offset + count], base, time);
        offset := offset + count;
        assert content[old(offset)..offset] == content[old(offset)..offset - count] + content[offset - count..offset];
      }
    }

    method ReadChunk(chunk: seq<Byte>, ghost base: seq<Row>, ghost time: int)
      requires ScannedSince(base, time)
      modifies this`pending, this`dropping, this`rows, this`seen
      ensures seen == old(seen) + chunk && ScannedSince(base, time)
    {
      ghost var scan := FeedAll(parse, START, seen);
      FeedIsBounded(parse, START, seen);
      RowsAppend(parse, scan, rows, chunk);
      ChunksDoNotMatter(parse, START, seen, chunk);
      Consume(chunk);
      ghost var next := FeedAll(parse, scan, chunk);
      assert scan.rows[|base|..] + next.rows[|scan.rows|..] == next.rows[|base|..];
      assert next.rows[..|base|] == next.rows[..|scan.rows|][..|base|];
      seen := seen + chunk;
    }

    /** Notices another file, a shorter one, or another beginning; then reads what was appended. */
    method ReadAppends(file: Option<File>) returns (ghost base: seq<Row>)
      requires Valid()
      modifies this
      ensures lastNow == old(lastNow) && offset == |seen| && ScannedSince(base, lastNow)
      ensures prefix == seen[..if offset < PREFIX then offset else PREFIX]
      ensures file.None? ==> seen == []
      ensures old(seen) == [] ==> base == []
      ensures file.Some? && !Unnoticed(old(identity), old(offset), old(prefix), old(seen), file.value) ==> seen == file.value.content
    {
      if file.None? {
        Reset();
        base := [];
      } else {
        var content := file.value.content;
        var changed := identity != Some(file.value.identity) || |content| < offset;
        if !changed && offset > 0 && |prefix| > 0 {
          changed := content[..|prefix|] != prefix;
        }
        if changed {
          Reset();
          identity := Some(file.value.identity);
        }
        base := FeedAll(parse, START, seen).rows;
        Append(content, base);
      }
    }

    method Append(content: seq<Byte>, ghost base: seq<Row>)
      requires offset <= |content| && offset == |seen| && ScannedSince(base, lastNow)
      requires prefix == seen[..if offset < PREFIX then offset else PREFIX] && |prefix| <= |content| && content[..|prefix|] == prefix
      modifies this
      ensures lastNow == old(lastNow) && offset == |seen| && ScannedSince(base, lastNow)
      ensures prefix == seen[..if offset < PREFIX then offset else PREFIX]
      ensures content[..old(offset)] == old(seen) ==> seen == content
    {
      ReadToEnd(content, base, lastNow);
      prefix := content[..if offset < PREFIX then offset else PREFIX];
      assert content[..old(offset)] + content[old(offset)..] == content;
      assert prefix == seen[..|prefix|];
    }

    /**
     * The activity of the last hour.  Incremental and pruned, it equals what a
     * scan of the whole file would give, for every sequence of readings, also
     * when the clock steps back or the file is replaced, as long as no rewrite
     * goes unnoticed.
     */
    method RecentActivity(file: Option<File>, now: int) returns (result: map<string, Activity>)
      requires Valid() && now >= ZERO_TIME
      modifies this
      ensures Valid() && lastNow == now
      ensures file.None? ==> result == map[] && seen == []
      ensures file.Some? && !Unnoticed(old(identity), old(offset), old(prefix), old(seen), file.value) ==> seen == file.value.content
      ensures file.Some? && now < old(lastNow) ==> seen == file.value.content
      ensures Observed(parse, seen, now, result)
    {
      hide Reported, Feed, Split, Tally;
      if lastNow != ZERO_TIME && now < lastNow {
        Reset();
      }
      ghost var before := if now < lastNow then now else lastNow;
      ghost var base := ReadAppends(file);
      ghost var all := FeedAll(parse, START, seen).rows;
      assert rows == Retained(base, before) + all[|base|..];
      CaughtUp(parse, seen, base, before, now);
      hide Aggregate, FromScratch, Retained, FeedAll;
      result := Summarize(now);
      lastNow := now;
      ScratchIsReported(parse, seen, now);
    }

    /** Counts the rows of the window and keeps only those that are not past it. */
    method Summarize(now: int) returns (result: map<string, Activity>)
      modifies this`rows
      ensures rows == Retained(old(rows), now)
      ensures result == Aggregate(old(rows), now) && Reported(result, old(rows), now)
    {
      hide Reported;
      var retained: seq<Row> := [];
      result := map[];
      for i := 0 to |rows|
        invariant rows == old(rows)
        invariant retained == Retained(rows[..i], now)
        invariant result == Aggregate(rows[..i], now)
      {
        var row := rows[i];
        assert rows[..i + 1][..i] == rows[..i];
        if row.timestamp >= now - WINDOW {
          retained := retained + [row];
          if row.timestamp <= now + SECOND {
            var activity := if row.account in result then result[row.account] else NO_ACTIVITY;
            activity := activity.(requests := activity.requests + 1);
            if Operational(row.status) {
              activity := CountError(activity, row);
            }
            result := result[row.account := activity];
          }
        }
      }
      assert rows[..|rows|] == rows;
      AggregateIsReported(rows, now);
      rows := retained;
    }
  }

  method CountError(seen: Activity, row: Row) returns (a: Activity)
    requires seen.requests > 0 && Operational(row.status)
    ensures a == Counted(seen.(requests := seen.requests - 1), row)
  {
    a := seen.(errors := seen.errors + 1);
    if row.status == 429 {
      a := a.(rate429 := a.rate429 + 1);
    }
    if row.status >= 500 {
      a := a.(serverErrors := a.serverErrors + 1);
    }
    if row.user != "" {
      a := a.(affectedUsers := a.affectedUsers + {row.user});
    }
    if row.timestamp > a.lastErrorAt {
      a := a.(lastErrorAt := row.timestamp, lastErrorStatus := row.status);
    }
  }

  /** What was kept and what was read since give the same results as the whole log. */
  lemma CaughtUp(parse: Line -> Option<Row>, seen: seq<Byte>, base: seq<Row>, before: int, now: int)
    requires before <= now
    requires
      var all := FeedAll(parse, START, seen).rows;
      |base| <= |all| && all[..|base|] == base
    ensures
      var all := FeedAll(parse, START, seen).rows;
      var rows := Retained(base, before) + all[|base|..];
      Aggregate(rows, now) == FromScratch(parse, seen, now) && Retained(rows, now) == Retained(all, now)
  {
    hide FeedAll, Split, Aggregate, Retained;
    var all := FeedAll(parse, START, seen).rows;
    PruningIsInvisible(base, all[|base|..], before, now);
    assert base + all[|base|..] == all;
    ScanIsLines(parse, seen);
  }

  lemma FeedNothing(parse: Line -> Option<Row>, s: Scan, bytes: seq<Byte>)
    requires bytes == []
    ensures FeedAll(parse, s, bytes) == s
  {
  }

  lemma ConsumeStep(parse: Line -> Option<Row>, s: Scan, chunk: seq<Byte>, i: nat, newline: nat)
    requires i <= newline <= |chunk|
    ensures FeedAll(parse, s, chunk[..newline]) == FeedAll(parse, FeedAll(parse, s, chunk[..i]), chunk[i..newline])
    ensures newline < |chunk| ==> FeedAll(parse, s, chunk[..newline + 1]) == Feed(parse, FeedAll(parse, s, chunk[..newline]), chunk[newline])
  {
    assert chunk[..newline] == chunk[..i] + chunk[i..newline];
    ChunksDoNotMatter(parse, s, chunk[..i], chunk[i..newline]);
    if newline < |chunk| {
      assert chunk[..newline + 1] == chunk[..newline] + [chunk[newline]];
      FeedLast(parse, s, chunk[..newline], chunk[newline]);
    }
  }

  /** The first newline at or after `from`, or the end. */
  method IndexOfNewline(chunk: seq<Byte>, from: nat) returns (i: nat)
    requires from <= |chunk|
    ensures from <= i <= |chunk| && NEWLINE !in chunk[from..i]
    ensures i < |chunk| ==> chunk[i] == NEWLINE
  {
    i := from;
    while i < |chunk| && chunk[i] != NEWLINE
      invariant from <= i <= |chunk| && NEWLINE !in chunk[from..i]
    {
      assert chunk[from..i + 1] == chunk[from..i] + [chunk[i]];
      i := i + 1;
    }
  }

  function Concat(pieces: seq<seq<Byte>>): seq<Byte> {
    if pieces == [] then [] else Concat(pieces[..|pieces| - 1]) + pieces[|pieces| - 1]
  }

  /** An append-only log under any readings of the clock, forward or backward. */
  method Observations(parse: Line -> Option<Row>, identity: nat, pieces: seq<seq<Byte>>, readings: seq<int>)
    returns (results: seq<map<string, Activity>>)
    requires |readings| == |pieces| && forall now :: now in readings ==> now >= ZERO_TIME
    ensures |results| == |readings|
    ensures forall i :: 0 <= i < |results| ==> Observed(parse, Concat(pieces[..i + 1]), readings[i], results[i])
  {
    hide Observed, FromScratch, FeedAll, Retained;
    var reader := new Reader(parse);
    var content: seq<Byte> := [];
    results := [];
    for i := 0 to |pieces|
      invariant fresh(reader) && reader.parse == parse && reader.Valid()
      invariant content == Concat(pieces[..i]) && reader.seen == content
      invariant |results| == i
      invariant forall j :: 0 <= j < i ==> Observed(parse, Concat(pieces[..j + 1]), readings[j], results[j])
    {
      assert pieces[..i + 1][..i] == pieces[..i];
      var next := content + pieces[i];
      assert next[..|content|] == content;
      assert readings[i] in readings;
      var result := reader.RecentActivity(Some(File(identity, next)), readings[i]);
      content := next;
      results := results + [result];
    }
  }
}
