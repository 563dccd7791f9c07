/** What the reported activity says of the bytes of the log, account by account. */
module AccessLogLaws {
  import opened Wrappers
  import opened AccessLog

  // ------------------------------------------------------------------- lines

  function Joined(lines: seq<Line>): seq<Byte> {
    if lines == [] then [] else Joined(lines[..|lines| - 1]) + lines[|lines| - 1] + [10]
  }

  /** The lines with their newlines and the rest are the content, and no newline is left inside. */
  lemma {:induction false} LinesAreContent(bytes: seq<Byte>)
    ensures
      var (lines, rest) := Split(bytes);
      && lines == Lines(bytes) && Joined(lines) + rest == bytes
      && 10 as Byte !in rest && forall line :: line in lines ==> 10 as Byte !in line
  {
    if bytes != [] {
      var init, last := bytes[..|bytes| - 1], bytes[|bytes| - 1];
      LinesAreContent(init);
      var (lines, rest) := Split(init);
      assert bytes == init + [last];
      assert (lines + [rest])[..|lines|] == lines;
      if last != 10 {
        assert Joined(lines) + (rest + [last]) == Joined(lines) + rest + [last];
      }
    }
  }

  /** The rows are those of the lines of at most 64 KiB that parse. */
  lemma {:induction false} RowsAreLines(parse: Line -> Option<Row>, lines: seq<Line>, row: Row)
    ensures row in RowsOf(parse, lines) <==> exists line :: line in lines && |line| <= 65536 && parse(line) == Some(row)
  {
    if lines != [] {
      var init, last := lines[..|lines| - 1], lines[|lines| - 1];
      assert lines == init + [last];
      RowsAreLines(parse, init, row);
    }
  }

  // ---------------------------------------------------------------- counting

  datatype Kind = Request | Failure | TooMany | ServerFailure

  /** The row counts for the account: of the last hour, and not more than a second ahead. */
  predicate Counts(row: Row, account: string, now: int, kind: Kind) {
    && row.account == account && now - 3600 * SECOND <= row.timestamp <= now + SECOND
    && match kind
       case Request => true
       case Failure => row.status == 401 || row.status == 403 || row.status == 429 || row.status >= 500
       case TooMany => row.status == 429
       case ServerFailure => row.status >= 500
  }

  function Places(rows: seq<Row>, account: string, now: int, kind: Kind): set<nat> {
    set i: nat | 0 <= i < |rows| && Counts(rows[i], account, now, kind)
  }

  function Number(rows: seq<Row>, account: string, now: int, kind: Kind): nat {
    |Places(rows, account, now, kind)|
  }

  /** The users of the account's failed requests. */
  function Affected(rows: seq<Row>, account: string, now: int): set<string> {
    set i: nat | 0 <= i < |rows| && Counts(rows[i], account, now, Failure) && rows[i].user != "" :: rows[i].user
  }

  /** The failed request `i` is the latest, and of those the first. */
  predicate IsLatest(rows: seq<Row>, account: string, now: int, i: nat) {
    && i < |rows| && Counts(rows[i], account, now, Failure)
    && forall j :: 0 <= j < |rows| && Counts(rows[j], account, now, Failure) ==>
         rows[j].timestamp <= rows[i].timestamp && (j < i ==> rows[j].timestamp < rows[i].timestamp)
  }

  /** Time and status of the latest failed request, unless none is after the zero time. */
  ghost predicate LastErrorIs(a: Activity, rows: seq<Row>, account: string, now: int) {
    if exists i :: 0 <= i < |rows| && Counts(rows[i], account, now, Failure) && rows[i].timestamp > ZERO_TIME then
      exists i: nat :: IsLatest(rows, account, now, i) && a.lastErrorAt == rows[i].timestamp && a.lastErrorStatus == rows[i].status
    else a.lastErrorAt == ZERO_TIME && a.lastErrorStatus == 0
  }

  ghost predicate ActivityIs(a: Activity, rows: seq<Row>, account: string, now: int) {
    && a.requests == Number(rows, account, now, Request)
    && a.errors == Number(rows, account, now, Failure)
    && a.rate429 == Number(rows, account, now, TooMany)
    && a.serverErrors == Number(rows, account, now, ServerFailure)
    && a.affectedUsers == Affected(rows, account, now)
    && LastErrorIs(a, rows, account, now)
  }

  /** The accounts with a request in the window, each with its numbers. */
  ghost predicate Reported(result: map<string, Activity>, rows: seq<Row>, now: int) {
    && (forall account :: account in result <==> Number(rows, account, now, Request) > 0)
    && (forall account :: account in result ==> ActivityIs(result[account], rows, account, now))
  }

  lemma NumberNext(rows: seq<Row>, account: string, now: int, kind: Kind)
    requires rows != []
    ensures
      var init, last := rows[..|rows| - 1], rows[|rows| - 1];
      Number(rows, account, now, kind) == Number(init, account, now, kind) + if Counts(last, account, now, kind) then 1 else 0
  {
    var n := |rows| - 1;
    var before := Places(rows[..n], account, now, kind);
    assert n !in before;
    assert Places(rows, account, now, kind) == if Counts(rows[n], account, now, kind) then before + {n} else before;
  }

  lemma AffectedNext(rows: seq<Row>, account: string, now: int)
    requires rows != []
    ensures
      var init, last := rows[..|rows| - 1], rows[|rows| - 1];
      Affected(rows, account, now) ==
        Affected(init, account, now) + if Counts(last, account, now, Failure) && last.user != "" then {last.user} else {}
  {
    var n := |rows| - 1;
    forall u | u in Affected(rows[..n], account, now)
      ensures u in Affected(rows, account, now)
    {
      var i: nat :| i < n && Counts(rows[..n][i], account, now, Failure) && rows[..n][i].user != "" && rows[..n][i].user == u;
      assert rows[i] == rows[..n][i];
    }
    if Counts(rows[n], account, now, Failure) && rows[n].user != "" {
      assert rows[n].user in Affected(rows, account, now);
    }
    forall u | u in Affected(rows, account, now) && !(Counts(rows[n], account, now, Failure) && rows[n].user == u)
      ensures u in Affected(rows[..n], account, now)
    {
      var i: nat :| i < |rows| && Counts(rows[i], account, now, Failure) && rows[i].user != "" && rows[i].user == u;
      assert rows[i] == rows[..n][i];
    }
  }

  lemma LastErrorNext(a: Activity, next: Activity, rows: seq<Row>, account: string, now: int)
    requires rows != [] && LastErrorIs(a, rows[..|rows| - 1], account, now)
    requires
      var last := rows[|rows| - 1];
      var later := Counts(last, account, now, Failure) && last.timestamp > a.lastErrorAt;
      && next.lastErrorAt == (if later then last.timestamp else a.lastErrorAt)
      && next.lastErrorStatus == (if later then last.status else a.lastErrorStatus)
    ensures LastErrorIs(next, rows, account, now)
  {
    var n := |rows| - 1;
    var init, last := rows[..n], rows[n];
    assert forall i :: 0 <= i < n ==> init[i] == rows[i];
    if i :| 0 <= i < n && Counts(init[i], account, now, Failure) && init[i].timestamp > ZERO_TIME {
      assert Counts(rows[i], account, now, Failure);
      var k: nat :| IsLatest(init, account, now, k) && a.lastErrorAt == init[k].timestamp && a.lastErrorStatus == init[k].status;
      if Counts(last, account, now, Failure) && last.timestamp > a.lastErrorAt {
        assert IsLatest(rows, account, now, n);
      } else {
        assert IsLatest(rows, account, now, k);
      }
    } else if Counts(last, account, now, Failure) && last.timestamp > ZERO_TIME {
      forall j | 0 <= j < n && Counts(rows[j], account, now, Failure)
        ensures rows[j].timestamp <= ZERO_TIME
      {
        assert init[j] == rows[j];
      }
      assert IsLatest(rows, account, now, n);
    } else {
      forall j | 0 <= j < |rows| && Counts(rows[j], account, now, Failure)
        ensures rows[j].timestamp <= ZERO_TIME
      {
        assert j < n ==> init[j] == rows[j];
      }
    }
  }

  lemma NothingCounted(account: string, now: int)
    ensures forall kind :: Number([], account, now, kind) == 0
    ensures ActivityIs(NO_ACTIVITY, [], account, now)
  {
    forall kind
      ensures Number([], account, now, kind) == 0
    {
      assert Places([], account, now, kind) == {};
    }
    assert Affected([], account, now) == {};
  }

  /** One more row counts for its account alone, and as what it is. */
  lemma CountedNext(a: Activity, rows: seq<Row>, account: string, now: int)
    requires rows != [] && ActivityIs(a, rows[..|rows| - 1], account, now)
    ensures
      var last := rows[|rows| - 1];
      ActivityIs(if Counts(last, account, now, Request) then Counted(a, last) else a, rows, account, now)
  {
    NumberNext(rows, account, now, Request);
    NumberNext(rows, account, now, Failure);
    NumberNext(rows, account, now, TooMany);
    NumberNext(rows, account, now, ServerFailure);
    AffectedNext(rows, account, now);
    hide Number, Affected, LastErrorIs;
    var last := rows[|rows| - 1];
    LastErrorNext(a, if Counts(last, account, now, Request) then Counted(a, last) else a, rows, account, now);
  }

  /** An account that is not reported yet has had no request. */
  ghost predicate ActivityFor(activities: map<string, Activity>, rows: seq<Row>, account: string, now: int) {
    && (account in activities <==> Number(rows, account, now, Request) > 0)
    && ActivityIs(if account in activities then activities[account] else NO_ACTIVITY, rows, account, now)
  }

  lemma {:induction false} AggregateIs(rows: seq<Row>, now: int, account: string)
    ensures ActivityFor(Aggregate(rows, now), rows, account, now)
  {
    if rows == [] {
      NothingCounted(account, now);
    } else {
      var init, last := rows[..|rows| - 1], rows[|rows| - 1];
      AggregateIs(init, now, account);
      var before := Aggregate(init, now);
      CountedNext(if account in before then before[account] else NO_ACTIVITY, rows, account, now);
      NumberNext(rows, account, now, Request);
      hide ActivityIs, Number, Counted;
    }
  }

  /** A scan of the whole log reports every account's requests, failures and latest failure in the window. */
  lemma ScratchIsReported(parse: Line -> Option<Row>, content: seq<Byte>, now: int)
    ensures Reported(FromScratch(parse, content, now), RowsOf(parse, Lines(content)), now)
  {
    AggregateIsReported(RowsOf(parse, Lines(content)), now);
    hide Reported;
  }

  lemma AggregateIsReported(rows: seq<Row>, now: int)
    ensures Reported(Aggregate(rows, now), rows, now)
  {
    hide ActivityIs, Number, Aggregate;
    var result := Aggregate(rows, now);
    forall account
      ensures account in result <==> Number(rows, account, now, Request) > 0
      ensures account in result ==> ActivityIs(result[account], rows, account, now)
    {
      AggregateIs(rows, now, account);
    }
  }

  /** Pruning keeps exactly the rows of the last hour or later, in their order. */
  lemma {:induction false} RetainedIs(rows: seq<Row>, now: int)
    ensures forall row :: row in Retained(rows, now) <==> row in rows && row.timestamp >= now - 3600 * SECOND
    ensures (forall row :: row in rows ==> row.timestamp >= now - 3600 * SECOND) ==> Retained(rows, now) == rows
  {
    if rows != [] {
      var init, last := rows[..|rows| - 1], rows[|rows| - 1];
      assert rows == init + [last];
      RetainedIs(init, now);
    }
  }
}
