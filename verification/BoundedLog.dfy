/** The byte-bounded job log that the two output readers and the worker share (crates/bridge/src/jobs.rs). */
module BoundedLog {
  import opened ContextText

  datatype Stream = Stdout | Stderr | System

  /** One call of the writer: what it is asked to store, when, and whether the database takes the row. */
  datatype Offer = Offer(stream: Stream, chunk: string, at: int, stored: bool)

  datatype Row = Row(stream: Stream, chunk: string, seqNo: int)

  const TRUNCATION_MARKER := "[output truncated — size limit reached]"

  function Total(os: seq<Offer>): nat {
    if os == [] then 0 else Total(os[..|os| - 1]) + Utf8Len(os[|os| - 1].chunk)
  }

  /** How many of the offered lines come before the first one that would exceed the limit. */
  function Accepted(os: seq<Offer>, max: nat): (k: nat)
    ensures k <= |os|
  {
    if os == [] then 0
    else
      var k := Accepted(os[..|os| - 1], max);
      if k == |os| - 1 && Total(os) <= max then |os| else k
  }

  function RowsOf(os: seq<Offer>): seq<Row> {
    if os == [] then []
    else
      var o := os[|os| - 1];
      RowsOf(os[..|os| - 1]) + (if o.stored then [Row(o.stream, o.chunk, |os|)] else [])
  }

  /** The stored log: the accepted lines, then one marker if a line was refused. */
  function Log(os: seq<Offer>, max: nat): seq<Row> {
    var k := Accepted(os, max);
    RowsOf(os[..k]) + (if k < |os| && os[k].stored then [Row(System, TRUNCATION_MARKER, k + 1)] else [])
  }

  function Refused(os: seq<Offer>, max: nat): bool {
    Accepted(os, max) < |os|
  }

  /** When the watchdog was last renewed: by the last reader line up to the first refused line. */
  function LastActivity(start: int, os: seq<Offer>, max: nat): int {
    if os == [] then start
    else
      var before := os[..|os| - 1];
      var o := os[|os| - 1];
      if o.stream == System || Refused(before, max) then LastActivity(start, before, max) else o.at
  }

  class LogWriter {
    var seqNo: int
    var totalBytes: nat
    const maxBytes: nat
    var truncated: bool
    var lastActivity: int
    var rows: seq<Row>
    const start: int
    ghost var offers: seq<Offer>

    ghost predicate Valid() reads this {
      && truncated == Refused(offers, maxBytes)
      && totalBytes == Total(offers[..Accepted(offers, maxBytes)])
      && (!truncated ==> seqNo == |offers| + 1)
      && lastActivity == LastActivity(start, offers, maxBytes)
      && rows == Log(offers, maxBytes)
    }

    constructor (maxBytes: nat, start: int)
      ensures Valid() && offers == [] && this.maxBytes == maxBytes && this.start == start
    {
      seqNo, totalBytes, truncated, lastActivity, rows, offers := 1, 0, false, start, [], [];
      this.maxBytes, this.start := maxBytes, start;
    }

    /** The part of both writers after the watchdog is renewed. */
    method Store(stream: Stream, chunk: string, at: int, stored: bool)
      requires truncated == Refused(offers, maxBytes) && !truncated
      requires totalBytes == Total(offers) && seqNo == |offers| + 1 && rows == Log(offers, maxBytes)
      requires lastActivity == LastActivity(start, offers + [Offer(stream, chunk, at, stored)], maxBytes)
      modifies this
      ensures Valid() && offers == old(offers) + [Offer(stream, chunk, at, stored)]
    {
      ghost var o := Offer(stream, chunk, at, stored);
      var lineBytes := Utf8Len(chunk);
      OneMore(offers, o, maxBytes);
      offers := offers + [o];
      if totalBytes + lineBytes > maxBytes {
        if stored {
          rows := rows + [Row(System, TRUNCATION_MARKER, seqNo)];
          seqNo := seqNo + 1;
        }
        truncated := true;
        return;
      }
      totalBytes := totalBytes + lineBytes;
      if stored {
        rows := rows + [Row(stream, chunk, seqNo)];
      }
      seqNo := seqNo + 1;
    }

    /** `write`, called by the readers under the writer's lock */
    method Write(stream: Stream, chunk: string, at: int, stored: bool)
      requires Valid() && stream != System
      modifies this
      ensures Valid() && offers == old(offers) + [Offer(stream, chunk, at, stored)]
    {
      ghost var o := Offer(stream, chunk, at, stored);
      if truncated {
        RefusedStays(offers, o, maxBytes, start);
        offers := offers + [o];
        return;
      }
      assert offers[..|offers|] == offers;
      assert (offers + [o])[..|offers|] == offers;
      lastActivity := at;
      Store(stream, chunk, at, stored);
    }

    /** `write_system_no_activity` */
    method WriteSystemNoActivity(chunk: string, at: int, stored: bool)
      requires Valid()
      modifies this
      ensures Valid() && offers == old(offers) + [Offer(System, chunk, at, stored)]
    {
      ghost var o := Offer(System, chunk, at, stored);
      if truncated {
        RefusedStays(offers, o, maxBytes, start);
        offers := offers + [o];
        return;
      }
      assert offers[..|offers|] == offers;
      assert (offers + [o])[..|offers|] == offers;
      Store(System, chunk, at, stored);
    }
  }

  lemma OneMore(os: seq<Offer>, o: Offer, max: nat)
    requires !Refused(os, max)
    ensures var os' := os + [o];
            && Total(os') == Total(os) + Utf8Len(o.chunk)
            && Accepted(os', max) == (if Total(os') <= max then |os'| else |os|)
            && os[..Accepted(os, max)] == os && os'[..|os|] == os && os'[..|os'|] == os'
            && RowsOf(os') == RowsOf(os) + (if o.stored then [Row(o.stream, o.chunk, |os'|)] else [])
            && Log(os, max) == RowsOf(os)
  {
    assert (os + [o])[..|os|] == os;
  }

  lemma RefusedStays(os: seq<Offer>, o: Offer, max: nat, start: int)
    requires Refused(os, max)
    ensures var os' := os + [o];
            && Accepted(os', max) == Accepted(os, max)
            && os'[..Accepted(os', max)] == os[..Accepted(os, max)]
            && Log(os', max) == Log(os, max)
            && LastActivity(start, os', max) == LastActivity(start, os, max)
  {
    assert (os + [o])[..|os|] == os;
  }

  // ---- What the log holds ----

  lemma {:induction false} TotalGrows(os: seq<Offer>, i: nat, j: nat)
    requires i <= j <= |os|
    ensures Total(os[..i]) <= Total(os[..j])
  {
    if i < j {
      TotalGrows(os, i, j - 1);
      assert os[..j][..j - 1] == os[..j - 1];
    }
  }

  /** The accepted lines are the longest prefix that fits. */
  lemma {:induction false} AcceptedIsLongest(os: seq<Offer>, max: nat)
    ensures Total(os[..Accepted(os, max)]) <= max
    ensures forall j :: Accepted(os, max) < j <= |os| ==> Total(os[..j]) > max
  {
    if os != [] {
      var front := os[..|os| - 1];
      var k := Accepted(front, max);
      AcceptedIsLongest(front, max);
      assert os[..|os|] == os;
      forall j | Accepted(os, max) < j <= |os| ensures Total(os[..j]) > max {
        if j < |os| {
          assert front[..j] == os[..j];
        } else {
          if k < |os| - 1 {
            assert Total(front[..k + 1]) > max;
            assert front[..k + 1] == os[..k + 1];
            TotalGrows(os, k + 1, j);
          }
        }
      }
      assert k <= |front| && front[..k] == os[..k];
    }
  }

  ghost predicate AllStored(os: seq<Offer>) {
    forall i :: 0 <= i < |os| ==> os[i].stored
  }

  lemma {:induction false} RowsAt(os: seq<Offer>)
    requires AllStored(os)
    ensures |RowsOf(os)| == |os|
    ensures forall i :: 0 <= i < |os| ==> RowsOf(os)[i] == Row(os[i].stream, os[i].chunk, i + 1)
  {
    if os != [] {
      RowsAt(os[..|os| - 1]);
    }
  }

  lemma {:induction false} SeqBounds(os: seq<Offer>)
    ensures forall i :: 0 <= i < |RowsOf(os)| ==> 1 <= RowsOf(os)[i].seqNo <= |os|
    ensures forall i, j :: 0 <= i < j < |RowsOf(os)| ==> RowsOf(os)[i].seqNo < RowsOf(os)[j].seqNo
  {
    if os != [] {
      SeqBounds(os[..|os| - 1]);
    }
  }

  /** Sequence numbers strictly increase, whatever rows the database refuses. */
  lemma SeqIncreases(os: seq<Offer>, max: nat)
    ensures forall i, j :: 0 <= i < j < |Log(os, max)| ==> Log(os, max)[i].seqNo < Log(os, max)[j].seqNo
  {
    SeqBounds(os[..Accepted(os, max)]);
  }

  /** While the database takes every row, row number i holds the i-th offered line for the longest fitting
      prefix, and one marker follows exactly when a line was refused. */
  lemma LogIsLongestPrefix(os: seq<Offer>, max: nat)
    requires AllStored(os)
    ensures var k := Accepted(os, max);
            && |Log(os, max)| == k + (if k < |os| then 1 else 0)
            && (forall i :: 0 <= i < k ==> Log(os, max)[i] == Row(os[i].stream, os[i].chunk, i + 1))
            && (k < |os| ==> Log(os, max)[k] == Row(System, TRUNCATION_MARKER, k + 1))
            && (k < |os| <==> Total(os) > max)
  {
    AcceptedIsLongest(os, max);
    RowsAt(os[..Accepted(os, max)]);
    assert os[..|os|] == os;
  }

  /** The stored rows, whatever the database refuses: line number i of the longest fitting prefix is row number i if the
      database took it, the marker follows if a line was refused and the database took the marker, and there is no
      other row. */
  lemma RowsExactly(os: seq<Offer>, max: nat)
    ensures var k := Accepted(os, max);
            forall r :: r in Log(os, max) <==>
              || (exists i :: 0 <= i < k && os[i].stored && r == Row(os[i].stream, os[i].chunk, i + 1))
              || (k < |os| && os[k].stored && r == Row(System, TRUNCATION_MARKER, k + 1))
  {
    StoredRows(os[..Accepted(os, max)]);
  }

  lemma {:induction false} StoredRows(os: seq<Offer>)
    ensures forall r :: r in RowsOf(os) <==>
              exists i :: 0 <= i < |os| && os[i].stored && r == Row(os[i].stream, os[i].chunk, i + 1)
  {
    if os != [] {
      var front := os[..|os| - 1];
      StoredRows(front);
      forall r ensures r in RowsOf(os) <==>
                       exists i :: 0 <= i < |os| && os[i].stored && r == Row(os[i].stream, os[i].chunk, i + 1)
      {
        if i :| 0 <= i < |os| && os[i].stored && r == Row(os[i].stream, os[i].chunk, i + 1) {
          assert i < |front| ==> front[i] == os[i];
        }
        if r in RowsOf(front) {
          var i :| 0 <= i < |front| && front[i].stored && r == Row(front[i].stream, front[i].chunk, i + 1);
          assert front[i] == os[i];
        }
      }
    }
  }

  // ---- Each stream on its own ----

  function Chunks(os: seq<Offer>, s: Stream): seq<string> {
    if os == [] then []
    else Chunks(os[..|os| - 1], s) + (if os[|os| - 1].stream == s then [os[|os| - 1].chunk] else [])
  }

  function RowChunks(rows: seq<Row>, s: Stream): seq<string> {
    if rows == [] then []
    else RowChunks(rows[..|rows| - 1], s) + (if rows[|rows| - 1].stream == s then [rows[|rows| - 1].chunk] else [])
  }

  lemma RowChunksSnoc(rows: seq<Row>, r: Row, s: Stream)
    ensures RowChunks(rows + [r], s) == RowChunks(rows, s) + (if r.stream == s then [r.chunk] else [])
  {
    assert (rows + [r])[..|rows|] == rows;
  }

  lemma {:induction false} RowsKeepStreams(os: seq<Offer>, s: Stream)
    requires AllStored(os)
    ensures RowChunks(RowsOf(os), s) == Chunks(os, s)
  {
    if os != [] {
      var o := os[|os| - 1];
      RowsKeepStreams(os[..|os| - 1], s);
      RowChunksSnoc(RowsOf(os[..|os| - 1]), Row(o.stream, o.chunk, |os|), s);
    }
  }

  lemma {:induction false} ChunksOfPrefix(os: seq<Offer>, k: nat, s: Stream)
    requires k <= |os|
    ensures Chunks(os[..k], s) <= Chunks(os, s)
  {
    if k < |os| {
      ChunksOfPrefix(os[..|os| - 1], k, s);
      assert os[..|os| - 1][..k] == os[..k];
    } else {
      assert os[..k] == os;
    }
  }

  /** However the calls of the readers and the worker interleave: if what reached the writer from a stream are
      the first lines of that stream, then so are the stored rows of that stream. */
  lemma EachStreamStoresAPrefix(os: seq<Offer>, max: nat, s: Stream, lines: seq<string>)
    requires AllStored(os) && s != System && Chunks(os, s) <= lines
    ensures RowChunks(Log(os, max), s) <= lines
    ensures !Refused(os, max) ==> RowChunks(Log(os, max), s) == Chunks(os, s)
  {
    var k := Accepted(os, max);
    var kept := RowsOf(os[..k]);
    var log := Log(os, max);
    RowsKeepStreams(os[..k], s);
    ChunksOfPrefix(os, k, s);
    RowChunksSnoc(kept, Row(System, TRUNCATION_MARKER, k + 1), s);
    assert k == |os| ==> os[..k] == os && log == kept;
    hide RowsOf, RowChunks, Chunks, Log, Accepted;
    assert RowChunks(log, s) == Chunks(os[..k], s);
  }

  /** Who gets the writer next: a reader, which first looks at the cancel flag, the worker with a
      system line, or the worker raising the flag. */
  datatype Turn = ReaderTurn(stream: Stream, at: int) | SystemTurn(chunk: string, at: int) | RaiseCancel

  lemma ChunksSnoc(os: seq<Offer>, o: Offer, s: Stream)
    ensures Chunks(os + [o], s) == Chunks(os, s) + (if o.stream == s then [o.chunk] else [])
  {
    assert (os + [o])[..|os|] == os;
  }

  lemma SnocPrefix(lines: seq<string>, n: nat)
    requires n < |lines|
    ensures lines[..n + 1] == lines[..n] + [lines[n]]
  {
  }

  /** Two `read_stream` threads and the worker share one writer; `turns` is any schedule. */
  method RunReaders(w: LogWriter, outLines: seq<string>, errLines: seq<string>, turns: seq<Turn>)
    requires w.Valid() && w.offers == []
    requires forall t :: t in turns && t.ReaderTurn? ==> t.stream != System
    modifies w
    ensures w.rows == Log(w.offers, w.maxBytes) && AllStored(w.offers)
    ensures Chunks(w.offers, Stdout) <= outLines && Chunks(w.offers, Stderr) <= errLines
    ensures RowChunks(w.rows, Stdout) <= outLines && RowChunks(w.rows, Stderr) <= errLines
  {
    hide Log, RowsOf, RowChunks, Accepted, Total, LastActivity, Refused, Utf8Len;
    var cancelFlag := false;
    var nOut, nErr := 0, 0;
    var i := 0;
    while i < |turns|
      invariant 0 <= i <= |turns| && nOut <= |outLines| && nErr <= |errLines|
      invariant w.Valid() && AllStored(w.offers)
      invariant Chunks(w.offers, Stdout) == outLines[..nOut] && Chunks(w.offers, Stderr) == errLines[..nErr]
    {
      ghost var before := w.offers;
      match turns[i] {
        case ReaderTurn(stream, at) =>
          if !cancelFlag {
            if stream == Stdout && nOut < |outLines| {
              SnocPrefix(outLines, nOut);
              w.Write(Stdout, outLines[nOut], at, true);
              nOut := nOut + 1;
            } else if stream == Stderr && nErr < |errLines| {
              SnocPrefix(errLines, nErr);
              w.Write(Stderr, errLines[nErr], at, true);
              nErr := nErr + 1;
            }
          }
        case SystemTurn(chunk, at) =>
          w.WriteSystemNoActivity(chunk, at, true);
        case RaiseCancel =>
          cancelFlag := true;
      }
      if w.offers != before {
        ChunksSnoc(before, w.offers[|before|], Stdout);
        ChunksSnoc(before, w.offers[|before|], Stderr);
      }
      i := i + 1;
    }
    EachStreamStoresAPrefix(w.offers, w.maxBytes, Stdout, outLines);
    EachStreamStoresAPrefix(w.offers, w.maxBytes, Stderr, errLines);
  }

  // ---- The watchdog ----

  /** After the first refused line nothing the job prints renews the watchdog, however much it prints. */
  lemma {:induction false} TruncatedJobLooksIdle(os: seq<Offer>, more: seq<Offer>, max: nat, start: int)
    requires Refused(os, max)
    ensures LastActivity(start, os + more, max) == LastActivity(start, os, max)
    ensures Log(os + more, max) == Log(os, max) && Refused(os + more, max)
  {
    if more == [] {
      assert os + more == os;
    } else {
      var front, o := more[..|more| - 1], more[|more| - 1];
      TruncatedJobLooksIdle(os, front, max, start);
      RefusedStays(os + front, o, max, start);
      assert os + more == os + front + [o];
    }
  }

  /** Until then every reader line renews it. */
  lemma LineRenewsWatchdog(os: seq<Offer>, o: Offer, max: nat, start: int)
    ensures LastActivity(start, os + [o], max) ==
            if o.stream == System || Refused(os, max) then LastActivity(start, os, max) else o.at
  {
    assert (os + [o])[..|os|] == os;
  }
}
