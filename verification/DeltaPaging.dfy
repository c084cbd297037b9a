/** Incremental paging over rows with growing ids: job logs and conversation messages
    (crates/bridge/src/jobs.rs, crates/bridge/src/routes.rs, crates/core/src/store/jobs.rs). */
module DeltaPaging {
  import opened Common

  datatype Row = Row(id: int, text: string)
  datatype Page = Page(rows: seq<Row>, next: int, more: bool)

  const MAX_LOG_ROWS := 500

  /** Ids grow with every insert, so a table in id order is strictly increasing. */
  ghost predicate Table(rows: seq<Row>) {
    forall i, j :: 0 <= i < j < |rows| ==> rows[i].id < rows[j].id
  }

  /** `id > after ORDER BY id` */
  function After(rows: seq<Row>, after: int): seq<Row> {
    if rows == [] then []
    else if rows[0].id > after then [rows[0]] + After(rows[1..], after)
    else After(rows[1..], after)
  }

  function Clamp(n: nat, lo: nat, hi: nat): nat {
    if n < lo then lo else if n > hi then hi else n
  }

  /** `get_job_logs_after`: never more than 500 rows, whatever was asked for. */
  function LogsAfter(rows: seq<Row>, after: int, limit: nat): seq<Row> {
    var rest := After(rows, after);
    rest[..Min(|rest|, Min(limit, MAX_LOG_ROWS))]
  }

  /** `get_conversation_messages_after_seq` */
  function MessagesAfter(rows: seq<Row>, after: int, limit: nat): seq<Row> {
    var rest := After(rows, after);
    rest[..Min(|rest|, limit)]
  }

  /** One page out of what was fetched with one row more than the limit. */
  function MakePage(fetched: seq<Row>, after: int, limit: nat): Page {
    var more := |fetched| > limit;
    var page := if more then fetched[..limit] else fetched;
    Page(page, if page == [] then after else page[|page| - 1].id, more)
  }

  /** `handle_post_job_logs_delta` */
  function JobLogsDelta(rows: seq<Row>, after: int, asked: Option<nat>): Page {
    var limit := Clamp(asked.GetOr(100), 1, 500);
    MakePage(LogsAfter(rows, after, limit + 1), after, limit)
  }

  /** `handle_get_conversation_messages_delta`, with cached messages */
  function MessagesDelta(rows: seq<Row>, after: int, asked: Option<nat>): Page {
    var limit := Min(asked.GetOr(100), 500);
    MakePage(MessagesAfter(rows, after, limit + 1), after, limit)
  }

  // ---- What is after what ----

  lemma {:induction false} AfterIsSuffix(rows: seq<Row>, after: int) returns (k: nat)
    requires Table(rows)
    ensures k <= |rows| && After(rows, after) == rows[k..]
    ensures forall i :: 0 <= i < k ==> rows[i].id <= after
    ensures forall i :: k <= i < |rows| ==> rows[i].id > after
  {
    if rows == [] {
      k := 0;
    } else if rows[0].id > after {
      k := 0;
      AfterUnique(rows, after, 0);
    } else {
      var k' := AfterIsSuffix(rows[1..], after);
      k := k' + 1;
      assert rows[1..][k'..] == rows[k..];
      forall i | k <= i < |rows| ensures rows[i].id > after {
        assert rows[i] == rows[1..][i - 1];
      }
      forall i | 0 <= i < k ensures rows[i].id <= after {
        assert i > 0 ==> rows[i] == rows[1..][i - 1];
      }
    }
  }

  lemma {:induction false} AfterUnique(rows: seq<Row>, after: int, k: nat)
    requires k <= |rows|
    requires forall i :: 0 <= i < k ==> rows[i].id <= after
    requires forall i :: k <= i < |rows| ==> rows[i].id > after
    ensures After(rows, after) == rows[k..]
  {
    if rows != [] {
      var rest := rows[1..];
      assert forall i :: 0 <= i < |rest| ==> rest[i] == rows[i + 1];
      if k == 0 {
        AfterUnique(rest, after, 0);
      } else {
        AfterUnique(rest, after, k - 1);
      }
    }
  }

  /** Moving the cursor to the n-th remaining row leaves exactly the others. */
  lemma AfterAdvance(rows: seq<Row>, after: int, n: nat)
    requires Table(rows) && 0 < n <= |After(rows, after)|
    ensures After(rows, After(rows, after)[n - 1].id) == After(rows, after)[n..]
  {
    var k := AfterIsSuffix(rows, after);
    var id := rows[k + n - 1].id;
    assert After(rows, after)[n - 1] == rows[k + n - 1];
    AfterUnique(rows, id, k + n);
    assert rows[k..][n..] == rows[k + n..];
  }

  lemma {:induction false} AfterAppend(rows: seq<Row>, extra: seq<Row>, after: int)
    ensures After(rows + extra, after) == After(rows, after) + After(extra, after)
  {
    if rows == [] {
      assert rows + extra == extra;
    } else {
      assert (rows + extra)[1..] == rows[1..] + extra;
      AfterAppend(rows[1..], extra, after);
    }
  }

  // ---- One page ----

  /** A page is the first rows after the cursor, and the rest is what the returned cursor leaves. */
  ghost predicate ExactPage(rows: seq<Row>, after: int, p: Page) {
    After(rows, after) == p.rows + After(rows, p.next)
  }

  lemma PageOfPrefix(rows: seq<Row>, after: int, fetch: nat, limit: nat)
    requires Table(rows)
    ensures var rest := After(rows, after);
            var p := MakePage(rest[..Min(|rest|, fetch)], after, limit);
            && ExactPage(rows, after, p)
            && |p.rows| == Min(|rest|, Min(fetch, limit))
            && (p.more <==> |rest| > limit && fetch > limit)
  {
    var rest := After(rows, after);
    var n := Min(|rest|, Min(fetch, limit));
    PageShape(rest, after, fetch, limit);
    hide MakePage;
    if n > 0 {
      AfterAdvance(rows, after, n);
    }
    SplitAt(rest, n);
  }

  lemma PageShape(rest: seq<Row>, after: int, fetch: nat, limit: nat)
    ensures var n := Min(|rest|, Min(fetch, limit));
            MakePage(rest[..Min(|rest|, fetch)], after, limit)
            == Page(rest[..n], if n == 0 then after else rest[n - 1].id, |rest| > limit && fetch > limit)
  {
    var n := Min(|rest|, Min(fetch, limit));
    var fetched := rest[..Min(|rest|, fetch)];
    var p := MakePage(fetched, after, limit);
    assert p.rows == rest[..n];
  }

  lemma SplitAt(rest: seq<Row>, n: nat)
    requires n <= |rest|
    ensures rest == rest[..n] + rest[n..]
  {
  }

  lemma {:induction false} AfterMember(rows: seq<Row>, after: int, r: Row)
    requires r in After(rows, after)
    ensures r in rows && r.id > after
  {
    if rows[0].id > after && r == rows[0] {
    } else {
      AfterMember(rows[1..], after, r);
    }
  }

  /** No page skips or repeats a row. The job log says that there is more exactly when there is,
      unless a limit of 500 was asked for: then it never says so. */
  lemma JobLogPage(rows: seq<Row>, after: int, asked: Option<nat>)
    requires Table(rows)
    ensures var p := JobLogsDelta(rows, after, asked);
            && ExactPage(rows, after, p)
            && (p.more <==> After(rows, p.next) != [] && asked.GetOr(100) < 500)
            && (p.more ==> |p.rows| >= 1)
            && |p.rows| == Min(|After(rows, after)|, match asked
                                                      case None => 100
                                                      case Some(n) => if n < 1 then 1 else if n > 500 then 500 else n)
  {
    var limit := Clamp(asked.GetOr(100), 1, 500);
    PageOfPrefix(rows, after, Min(limit + 1, MAX_LOG_ROWS), limit);
    var rest := After(rows, after);
    assert Min(|rest|, Min(limit + 1, MAX_LOG_ROWS)) <= |rest|;
  }

  lemma MessagePage(rows: seq<Row>, after: int, asked: Option<nat>)
    requires Table(rows)
    ensures var p := MessagesDelta(rows, after, asked);
            && ExactPage(rows, after, p)
            && (p.more <==> After(rows, p.next) != [])
            && |p.rows| == Min(|After(rows, after)|, match asked
                                                      case None => 100
                                                      case Some(n) => if n > 500 then 500 else n)
  {
    PageOfPrefix(rows, after, Min(asked.GetOr(100), 500) + 1, Min(asked.GetOr(100), 500));
  }

  /** A message page of limit 0 never advances: with rows left it asks to be called again for ever. */
  lemma ZeroLimitNeverAdvances(rows: seq<Row>, after: int)
    requires Table(rows)
    ensures MessagesDelta(rows, after, Some(0)) == Page([], after, After(rows, after) != [])
  {
    PageOfPrefix(rows, after, 1, 0);
  }

  // ---- Following a log to its end ----

  /** All pages until one says that there is no more. */
  function FollowLog(rows: seq<Row>, after: int, asked: Option<nat>): seq<Row>
    requires Table(rows)
    decreases |After(rows, after)|
  {
    JobLogPage(rows, after, asked);
    var p := JobLogsDelta(rows, after, asked);
    if p.more then p.rows + FollowLog(rows, p.next, asked) else p.rows
  }

  function FollowMessages(rows: seq<Row>, after: int, asked: Option<nat>): seq<Row>
    requires Table(rows) && asked != Some(0)
    decreases |After(rows, after)|
  {
    MessagePage(rows, after, asked);
    var p := MessagesDelta(rows, after, asked);
    if p.more then p.rows + FollowMessages(rows, p.next, asked) else p.rows
  }

  /** Following the job log yields every remaining row once, in order, exactly when the limit is below 500
      or at most 500 rows remain. */
  lemma {:induction false} FollowLogComplete(rows: seq<Row>, after: int, asked: Option<nat>)
    requires Table(rows)
    ensures FollowLog(rows, after, asked) == After(rows, after)
            <==> asked.GetOr(100) < 500 || |After(rows, after)| <= 500
    decreases |After(rows, after)|
  {
    JobLogPage(rows, after, asked);
    var p := JobLogsDelta(rows, after, asked);
    if p.more {
      FollowLogComplete(rows, p.next, asked);
    }
  }

  lemma {:induction false} FollowMessagesComplete(rows: seq<Row>, after: int, asked: Option<nat>)
    requires Table(rows) && asked != Some(0)
    ensures FollowMessages(rows, after, asked) == After(rows, after)
    decreases |After(rows, after)|
  {
    MessagePage(rows, after, asked);
    var p := MessagesDelta(rows, after, asked);
    if p.more {
      FollowMessagesComplete(rows, p.next, asked);
    }
  }

  // ---- A client that calls while rows are appended ----

  /** One call: rows inserted since the last call, and the limit asked for. */
  datatype Call = Call(inserted: seq<Row>, asked: Option<nat>)

  function TableAfter(rows: seq<Row>, calls: seq<Call>): seq<Row> {
    if calls == [] then rows else TableAfter(rows, calls[..|calls| - 1]) + calls[|calls| - 1].inserted
  }

  datatype Client = Client(got: seq<Row>, cursor: int)

  /** What a client that passes the returned cursor on has received. */
  function Session(rows: seq<Row>, after: int, calls: seq<Call>): Client {
    if calls == [] then Client([], after)
    else
      var before := Session(rows, after, calls[..|calls| - 1]);
      var p := JobLogsDelta(TableAfter(rows, calls), before.cursor, calls[|calls| - 1].asked);
      Client(before.got + p.rows, p.next)
  }

  /** The cursor is still the first one, or the id of a row. */
  ghost predicate CursorIn(rows: seq<Row>, after: int, cursor: int) {
    cursor == after || (cursor > after && exists r :: r in rows && r.id == cursor)
  }

  /** Whatever is inserted between the calls and whatever limits are asked for, the rows received so far and
      the rows after the cursor are together all rows after the first cursor: none skipped, none repeated. */
  lemma {:induction false} SessionExact(rows: seq<Row>, after: int, calls: seq<Call>)
    requires Table(TableAfter(rows, calls))
    ensures var c := Session(rows, after, calls);
            && After(TableAfter(rows, calls), after) == c.got + After(TableAfter(rows, calls), c.cursor)
            && CursorIn(TableAfter(rows, calls), after, c.cursor)
  {
    if calls == [] {
      assert [] + After(rows, after) == After(rows, after);
    } else {
      var earlier, call := calls[..|calls| - 1], calls[|calls| - 1];
      TablePrefix(TableAfter(rows, earlier), call.inserted);
      SessionExact(rows, after, earlier);
      OneCall(TableAfter(rows, earlier), call, after, Session(rows, after, earlier));
    }
  }

  lemma TablePrefix(before: seq<Row>, inserted: seq<Row>)
    requires Table(before + inserted)
    ensures Table(before)
  {
    assert forall i :: 0 <= i < |before| ==> before[i] == (before + inserted)[i];
  }

  lemma OneCall(before: seq<Row>, call: Call, after: int, c: Client)
    requires Table(before + call.inserted)
    requires After(before, after) == c.got + After(before, c.cursor) && CursorIn(before, after, c.cursor)
    ensures var now := before + call.inserted;
            var p := JobLogsDelta(now, c.cursor, call.asked);
            After(now, after) == (c.got + p.rows) + After(now, p.next) && CursorIn(now, after, p.next)
  {
    var now := before + call.inserted;
    AfterAppend(before, call.inserted, after);
    AfterAppend(before, call.inserted, c.cursor);
    InsertedAfterCursor(before, call.inserted, after, c.cursor);
    CursorStays(before, call.inserted, after, c.cursor);
    assert After(now, after) == c.got + After(now, c.cursor);
    hide JobLogsDelta, After, CursorIn, Table;
    JobLogPage(now, c.cursor, call.asked);
    NextCursorIn(now, after, c.cursor, call.asked);
    var p := JobLogsDelta(now, c.cursor, call.asked);
    Regroup(After(now, after), c.got, After(now, c.cursor), p.rows, After(now, p.next));
  }

  lemma Regroup(all: seq<Row>, got: seq<Row>, left: seq<Row>, page: seq<Row>, rest: seq<Row>)
    requires all == got + left && left == page + rest
    ensures all == (got + page) + rest
  {
  }

  lemma CursorStays(before: seq<Row>, inserted: seq<Row>, after: int, cursor: int)
    requires CursorIn(before, after, cursor)
    ensures CursorIn(before + inserted, after, cursor)
  {
  }

  lemma InsertedAfterCursor(before: seq<Row>, inserted: seq<Row>, after: int, cursor: int)
    requires Table(before + inserted) && CursorIn(before, after, cursor)
    ensures After(inserted, after) == After(inserted, cursor)
  {
    if cursor != after {
      var r :| r in before && r.id == cursor;
      var i :| 0 <= i < |before| && before[i] == r;
      forall j | 0 <= j < |inserted| ensures inserted[j].id > cursor {
        assert inserted[j] == (before + inserted)[|before| + j] && (before + inserted)[i] == r;
      }
      AfterUnique(inserted, after, 0);
      AfterUnique(inserted, cursor, 0);
    }
  }

  lemma NextCursorIn(now: seq<Row>, after: int, cursor: int, asked: Option<nat>)
    requires Table(now) && CursorIn(now, after, cursor)
    ensures CursorIn(now, after, JobLogsDelta(now, cursor, asked).next)
  {
    var limit := Clamp(asked.GetOr(100), 1, 500);
    var rest := After(now, cursor);
    var fetch := Min(limit + 1, MAX_LOG_ROWS);
    PageShape(rest, cursor, fetch, limit);
    var n := Min(|rest|, Min(fetch, limit));
    if n > 0 {
      AfterMember(now, cursor, rest[n - 1]);
    }
  }
}
