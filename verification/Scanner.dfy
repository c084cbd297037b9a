/** The transcript scanner: an incremental line count, and the closing of orphaned jobs
    (crates/bridge/src/scanner.rs). A character stands for one byte of the transcript. */
module Scanner {
  import opened Common
  import opened Text

  const READ_CHUNK_LIMIT := 1_048_576
  const STALE_HEARTBEAT_MIN_SECS := 30

  // ---- Counting lines ----

  function NonEmpty(ls: seq<string>): nat {
    if ls == [] then 0 else (if ls[0] == "" then 0 else 1) + NonEmpty(ls[1..])
  }

  /** The number of non-empty lines, counted from scratch. */
  function Count(s: string): nat {
    NonEmpty(Lines(s))
  }

  /** What comes after the last newline. */
  function Unfinished(s: string): string
    decreases |s|
  {
    var n := FindChar(s, '\n');
    if n == |s| then s else Unfinished(s[n + 1..])
  }

  /** Text goes on in the middle of a line: counting the two parts counts that line twice. */
  predicate CutsLine(a: string, b: string) {
    var p := Unfinished(a);
    && p != "" && b != ""
    && !(b[0] == '\n' && p != "\r")
    && !("\r\n" <= b)
  }

  lemma CountLine(first: string, rest: string)
    requires '\n' !in first
    ensures Count(first + "\n" + rest) == (if StripCr(first) == "" then 0 else 1) + Count(rest)
  {
    var s := first + "\n" + rest;
    assert s[..|first|] == first && s[|first|] == '\n' && s[|first| + 1..] == rest;
    FindCharUnique(s, '\n', |first|);
    assert Lines(s) == [StripCr(first)] + Lines(rest);
    assert ([StripCr(first)] + Lines(rest))[1..] == Lines(rest);
  }

  lemma CountUnfinished(p: string)
    requires '\n' !in p
    ensures Count(p) == (if p == "" then 0 else 1)
  {
    LinesOfOne(p);
    if p != "" {
      assert Lines(p) == [p] && [p][1..] == [];
      assert NonEmpty([p]) == 1 + NonEmpty([]);
    }
  }

  lemma CutsAlike(a: string, rest: string, b: string)
    requires Unfinished(a) == Unfinished(rest)
    ensures CutsLine(a, b) <==> CutsLine(rest, b)
  {
  }

  lemma CountFirstLine(a: string, n: nat, b: string)
    requires n < |a| && a[n] == '\n' && '\n' !in a[..n]
    ensures Count(a) - Count(a[n + 1..]) == Count(a + b) - Count(a[n + 1..] + b)
  {
    hide *;
    var all := a + b;
    assert all[..n] == a[..n] && all[n + 1..] == a[n + 1..] + b;
    CountFrom(a, n);
    CountFrom(all, n);
  }

  lemma CountFrom(s: string, n: nat)
    requires n < |s| && s[n] == '\n' && '\n' !in s[..n]
    ensures Count(s) == (if StripCr(s[..n]) == "" then 0 else 1) + Count(s[n + 1..])
  {
    assert s == s[..n] + "\n" + s[n + 1..];
    CountLine(s[..n], s[n + 1..]);
  }

  /** Counting in two parts is exact unless a line is cut; then it is too high by one. */
  lemma {:induction false} CountInParts(a: string, b: string)
    ensures Count(a) + Count(b) == Count(a + b) + (if CutsLine(a, b) then 1 else 0)
    decreases |a|
  {
    var n := FindChar(a, '\n');
    if n < |a| {
      var rest := a[n + 1..];
      CountInParts(rest, b);
      assert Unfinished(a) == Unfinished(rest);
      CutsAlike(a, rest, b);
      hide *;
      CountFirstLine(a, n, b);
    } else {
      assert a[..n] == a;
      CountFromPartial(a, b);
    }
  }

  lemma CountFromPartial(p: string, b: string)
    requires '\n' !in p
    ensures Count(p) + Count(b) == Count(p + b) + (if CutsLine(p, b) then 1 else 0)
  {
    FindCharUnique(p, '\n', |p|);
    CountUnfinished(p);
    var m := FindChar(b, '\n');
    if p == "" {
      assert p + b == b;
    } else if m == |b| {
      assert b[..m] == b && '\n' !in b;
      assert |b| >= 2 ==> b[1] in b;
      assert b != "" ==> b[0] in b;
      assert b == "" ==> p + b == p;
      CountUnfinished(b);
      CountUnfinished(p + b);
    } else {
      assert b == b[..m] + "\n" + b[m + 1..];
      PartialThenLine(p, b[..m], b[m + 1..]);
    }
  }

  lemma PartialThenLine(p: string, f: string, rest: string)
    requires p != "" && '\n' !in p && '\n' !in f
    ensures Count(p) + Count(f + "\n" + rest)
            == Count(p + (f + "\n" + rest)) + (if CutsLine(p, f + "\n" + rest) then 1 else 0)
  {
    var b := f + "\n" + rest;
    assert p + b == (p + f) + "\n" + rest;
    CountUnfinished(p);
    CountLine(f, rest);
    CountLine(p + f, rest);
    PartialStrip(p, f);
    CutAtLine(p, f, rest);
    hide Count, CutsLine, StripCr;
  }

  lemma CutAtLine(p: string, f: string, rest: string)
    requires p != "" && '\n' !in p && '\n' !in f
    ensures CutsLine(p, f + "\n" + rest) <==> !(f == "" && p != "\r") && f != "\r"
  {
    var b := f + "\n" + rest;
    FindCharUnique(p, '\n', |p|);
    assert f == "" <==> b[0] == '\n' by {
      assert f != "" ==> b[0] == f[0] && f[0] in f;
    }
    assert |f| >= 2 ==> b[1] == f[1] && f[1] in f;
    assert |f| == 1 ==> b[0] == f[0] && b[1] == '\n' && f == [f[0]];
    assert f == "\r" ==> b[..2] == "\r\n";
  }

  lemma PartialStrip(p: string, f: string)
    requires p != ""
    ensures StripCr(f) == "" <==> f == "" || f == "\r"
    ensures StripCr(p + f) == "" <==> f == "" && p == "\r"
  {
  }

  // ---- One scan ----

  datatype Cursor = Cursor(offset: nat, lineNo: nat)

  datatype ScanResult = NoTranscriptPath | NoDelta | Truncated | Delta(cursor: Cursor)

  /** `scan_transcript`: `file` is what the path holds, if it can be read. */
  function ScanTranscript(hasPath: bool, file: Option<string>, c: Cursor): ScanResult {
    if !hasPath then NoTranscriptPath
    else if file.None? then NoDelta
    else
      var size := |file.value|;
      if size < c.offset then Truncated
      else if size == c.offset then NoDelta
      else
        var chunk := file.value[c.offset..c.offset + Min(size - c.offset, READ_CHUNK_LIMIT)];
        Delta(Cursor(size, c.lineNo + Count(chunk)))
  }

  function Moved(r: ScanResult, c: Cursor): Cursor {
    match r
    case Truncated => Cursor(0, 0)
    case Delta(c') => c'
    case _ => c
  }

  /** The cursor after looking at one version of the file after the other. */
  function Follow(files: seq<string>): Cursor {
    if files == [] then Cursor(0, 0)
    else
      var c := Follow(files[..|files| - 1]);
      Moved(ScanTranscript(true, Some(files[|files| - 1]), c), c)
  }

  /** What the scanner has read of the latest version. */
  function Consumed(files: seq<string>): string {
    if files == [] then ""
    else
      var f, c := files[|files| - 1], Follow(files);
      f[..Min(c.offset, |f|)]
  }

  /** Each version extends what was read before by at most one chunk, or is shorter than it. */
  ghost predicate Grows(files: seq<string>) {
    files != [] ==>
      var front, f := files[..|files| - 1], files[|files| - 1];
      && Grows(front)
      && (|f| < Follow(front).offset || (Consumed(front) <= f && |f| - Follow(front).offset <= READ_CHUNK_LIMIT))
  }

  /** How many lines were cut since the last truncation. */
  function Cuts(files: seq<string>): nat {
    if files == [] then 0
    else
      var front, f := files[..|files| - 1], files[|files| - 1];
      var read := Consumed(front);
      if |f| < |read| then 0
      else Cuts(front) + (if CutsLine(read, f[|read|..]) then 1 else 0)
  }

  /** While the file only grows by whole chunks or is seen to shrink, the stored line number is the number of
      non-empty lines read, plus one for every time the file had been left in the middle of a line. */
  lemma {:induction false} LineNumberLaw(files: seq<string>)
    requires Grows(files)
    ensures |Consumed(files)| == Follow(files).offset
    ensures Follow(files).lineNo == Count(Consumed(files)) + Cuts(files)
  {
    if files != [] {
      var front, f := files[..|files| - 1], files[|files| - 1];
      LineNumberLaw(front);
      LookLaw(Consumed(front), Follow(front), Cuts(front), f);
      hide ScanTranscript, Count, CutsLine;
    }
  }

  /** One look at the file. */
  lemma LookLaw(read: string, c: Cursor, cuts: nat, f: string)
    requires |read| == c.offset && c.lineNo == Count(read) + cuts
    requires |f| < c.offset || (read <= f && |f| - c.offset <= READ_CHUNK_LIMIT)
    ensures var c' := Moved(ScanTranscript(true, Some(f), c), c);
            && c'.offset <= |f|
            && c'.lineNo == Count(f[..c'.offset])
                            + (if |f| < |read| then 0 else cuts + (if CutsLine(read, f[|read|..]) then 1 else 0))
  {
    hide CutsLine, Count;
    if |f| < c.offset {
      CountNothing();
      assert f[..0] == "";
    } else {
      var rest := f[|read|..];
      ReadOn(read, rest, f);
      CutsNothing(read);
      assert f[c.offset..c.offset + Min(|f| - c.offset, READ_CHUNK_LIMIT)] == rest;
    }
  }

  lemma ReadOn(read: string, rest: string, f: string)
    requires read <= f && rest == f[|read|..]
    ensures f[..|f|] == f && (rest == "" ==> read == f && f[..|read|] == read)
    ensures Count(read) + Count(rest) == Count(f) + (if CutsLine(read, rest) then 1 else 0)
  {
    CountInParts(read, rest);
    assert f == read + rest;
  }

  lemma CutsNothing(read: string)
    ensures !CutsLine(read, "") && Count("") == 0
  {
  }

  lemma CountNothing()
    ensures Count("") == 0
  {
  }

  /** The line number agrees with a full count exactly when no line was cut since the last truncation. */
  lemma IncrementalEqualsFullCount(files: seq<string>)
    requires Grows(files)
    ensures Follow(files).lineNo == Count(Consumed(files)) <==> Cuts(files) == 0
    ensures Follow(files).lineNo >= Count(Consumed(files))
  {
    LineNumberLaw(files);
  }

  /** Writers that always stop at a line end cut nothing. */
  lemma {:induction false} WholeLinesCutNothing(files: seq<string>)
    requires Grows(files) && forall f :: f in files ==> f == "" || EndsWithNewline(f)
    ensures Cuts(files) == 0
    ensures Consumed(files) == "" || EndsWithNewline(Consumed(files))
  {
    if files != [] {
      var front, f := files[..|files| - 1], files[|files| - 1];
      WholeLinesCutNothing(front);
      LineNumberLaw(front);
      LineNumberLaw(files);
      FinishedText(Consumed(front));
      assert f in files && f[..|f|] == f && f[..0] == "";
    }
  }

  lemma {:induction false} FinishedText(s: string)
    requires s == "" || EndsWithNewline(s)
    ensures Unfinished(s) == ""
    decreases |s|
  {
    var n := FindChar(s, '\n');
    assert s != "" ==> s[|s| - 1] in s;
    assert s[..|s|] == s;
    if n < |s| {
      var rest := s[n + 1..];
      assert rest != "" ==> rest[|rest| - 1] == s[|s| - 1];
      FinishedText(rest);
    }
  }

  /** A growth of more than one chunk is counted only up to the chunk, while the cursor goes to the end: the
      non-empty lines after the chunk are never counted, and a line cut at either end of the chunk counts once more. */
  lemma LongGrowthLosesLines(file: string, c: Cursor)
    requires c.offset + 1_048_576 < |file|
    ensures var k := c.offset + 1_048_576;
            var r := ScanTranscript(true, Some(file), c);
            && r.Delta? && r.cursor.offset == |file|
            && r.cursor.lineNo == c.lineNo + Count(file) - Count(file[..c.offset]) - Count(file[k..])
                                  + (if CutsLine(file[..c.offset], file[c.offset..k]) then 1 else 0)
                                  + (if CutsLine(file[..k], file[k..]) then 1 else 0)
  {
    var k := c.offset + READ_CHUNK_LIMIT;
    CountInParts(file[..c.offset], file[c.offset..k]);
    assert file[..c.offset] + file[c.offset..k] == file[..k];
    CountInParts(file[..k], file[k..]);
    assert file[..k] + file[k..] == file;
  }

  // ---- Observers ----

  datatype ObserverStatus = Running | MaybeIdle | TimedOut

  /** A stored time: absent, unreadable, or an instant in seconds. */
  datatype Stamp = Absent | Unreadable | At(secs: int)

  datatype Job = Job(active: bool, heartbeat: Stamp, started: Stamp)

  function StaleThreshold(pollSecs: nat): nat {
    if pollSecs * 3 > STALE_HEARTBEAT_MIN_SECS then pollSecs * 3 else STALE_HEARTBEAT_MIN_SECS
  }

  /** `is_job_stale` */
  predicate IsJobStale(job: Job, now: int, threshold: nat) {
    match job.heartbeat
    case At(hb) => now - hb > threshold
    case Unreadable => true
    case Absent => job.started.At? ==> now - job.started.secs > threshold
  }

  predicate Past(t: Stamp, now: int) {
    t.At? && now >= t.secs
  }

  /** What one look of the scanner finds: the time, the transcript, the observer's job, and whether the
      observer's row can be updated. */
  datatype Look = Look(now: int, file: Option<string>, job: Option<Job>, stored: bool)

  predicate IsOrphan(look: Look, threshold: nat) {
    look.job.Some? && look.job.value.active && IsJobStale(look.job.value, look.now, threshold)
  }

  /** A look that times the observer out, unless an earlier one did. */
  predicate TimesOut(look: Look, hardDeadline: Stamp) {
    look.stored && Past(hardDeadline, look.now)
  }

  ghost predicate AnyTimesOut(looks: seq<Look>, hardDeadline: Stamp) {
    exists i :: 0 <= i < |looks| && TimesOut(looks[i], hardDeadline)
  }

  /** The one look at which the observer's job can be closed. */
  ghost predicate IsLastLook(looks: seq<Look>, i: nat, hardDeadline: Stamp) {
    i < |looks| && TimesOut(looks[i], hardDeadline) && !AnyTimesOut(looks[..i], hardDeadline)
  }

  /** The versions of the transcript that were read into the cursor: those found before the observer was timed out,
      when its row could be updated. */
  ghost function Seen(looks: seq<Look>, hardDeadline: Stamp): seq<string> {
    if looks == [] then []
    else
      var look := looks[|looks| - 1];
      Seen(looks[..|looks| - 1], hardDeadline)
      + (if look.stored && look.file.Some? && !AnyTimesOut(looks, hardDeadline) then [look.file.value] else [])
  }

  class Observer {
    var status: ObserverStatus
    var cursor: Cursor
    var lastActivity: int
    const hasPath: bool
    const hardDeadline: Stamp
    const idleDeadline: Stamp

    constructor (hasPath: bool, hardDeadline: Stamp, idleDeadline: Stamp, now: int)
      ensures status == Running && cursor == Cursor(0, 0) && lastActivity == now
      ensures this.hasPath == hasPath && this.hardDeadline == hardDeadline && this.idleDeadline == idleDeadline
    {
      status, cursor, lastActivity := Running, Cursor(0, 0), now;
      this.hasPath, this.hardDeadline, this.idleDeadline := hasPath, hardDeadline, idleDeadline;
    }

    /** `process_observer`: the scanner looks at an active observer once. An update that fails ends the look. */
    method ProcessObserver(look: Look, threshold: nat) returns (closesJob: bool)
      requires status != TimedOut
      modifies this
      ensures closesJob <==> TimesOut(look, hardDeadline) && IsOrphan(look, threshold)
      ensures closesJob ==> look.job.Some? && look.job.value.active && IsJobStale(look.job.value, look.now, threshold)
      ensures status == TimedOut && !closesJob && look.job.Some? && look.job.value.active ==>
                !IsJobStale(look.job.value, look.now, threshold)
      ensures status == TimedOut <==> TimesOut(look, hardDeadline)
      ensures status == TimedOut <==> look.stored && hardDeadline.At? && hardDeadline.secs <= look.now
      ensures var r := ScanTranscript(hasPath, look.file, old(cursor));
              if Past(hardDeadline, look.now) || !look.stored then
                && cursor == old(cursor) && lastActivity == old(lastActivity)
                && (status != TimedOut ==> status == old(status))
              else
                && cursor == Moved(r, old(cursor))
                && lastActivity == (if r.Truncated? || r.Delta? then look.now else old(lastActivity))
                && status == (if r.Truncated? || r.Delta? then Running
                              else if Past(idleDeadline, look.now) then MaybeIdle else old(status))
    {
      closesJob := false;
      if Past(hardDeadline, look.now) {
        if !look.stored {
          return;
        }
        status := TimedOut;
        closesJob := TryCloseOrphanJob(look, threshold);
        return;
      }
      var overIdle := Past(idleDeadline, look.now);
      match ScanTranscript(hasPath, look.file, cursor)
      case NoTranscriptPath =>
        if overIdle && look.stored {
          status := MaybeIdle;
        }
      case NoDelta =>
        if overIdle && look.stored {
          status := MaybeIdle;
        }
      case Truncated =>
        if look.stored {
          cursor, lastActivity, status := Cursor(0, 0), look.now, Running;
        }
      case Delta(c) =>
        if look.stored {
          cursor, lastActivity, status := c, look.now, Running;
        }
    }

    method TryCloseOrphanJob(look: Look, threshold: nat) returns (closes: bool)
      ensures closes <==> IsOrphan(look, threshold)
    {
      if look.job.None? {
        return false;
      }
      if !look.job.value.active {
        return false;
      }
      if !IsJobStale(look.job.value, look.now, threshold) {
        return false;
      }
      return true;
    }

    /** The scanner's loop as one new observer sees it: it is looked at as long as it is active. Its job is closed at
        exactly one look if at all, the first one past the hard deadline; a job found fresh then is never closed
        later. Up to that look the cursor follows the versions of the transcript. */
    method Watch(looks: seq<Look>, threshold: nat) returns (closes: seq<bool>)
      requires status != TimedOut && cursor == Cursor(0, 0)
      modifies this
      ensures |closes| == |looks|
      ensures forall i :: 0 <= i < |looks| ==>
                (closes[i] <==> IsLastLook(looks, i, hardDeadline) && IsOrphan(looks[i], threshold))
      ensures forall i, j :: 0 <= i < j < |looks| && TimesOut(looks[i], hardDeadline) ==> !closes[j]
      ensures status == TimedOut <==> AnyTimesOut(looks, hardDeadline)
      ensures cursor == if hasPath then Follow(Seen(looks, hardDeadline)) else Cursor(0, 0)
    {
      hide ScanTranscript, Moved, Follow, Seen, AnyTimesOut, IsOrphan, Past;
      closes := [];
      NothingSeen(hardDeadline);
      for i := 0 to |looks|
        invariant |closes| == i
        invariant forall j :: 0 <= j < i ==>
                    (closes[j] <==> IsLastLook(looks, j, hardDeadline) && IsOrphan(looks[j], threshold))
        invariant status == TimedOut <==> AnyTimesOut(looks[..i], hardDeadline)
        invariant cursor == if hasPath then Follow(Seen(looks[..i], hardDeadline)) else Cursor(0, 0)
      {
        ghost var before := cursor;
        var closesJob := false;
        if status != TimedOut {
          closesJob := ProcessObserver(looks[i], threshold);
        }
        closes := closes + [closesJob];
        OneMoreLook(looks, i, hardDeadline);
        FollowOneMore(Seen(looks[..i], hardDeadline), looks[i].file, before, hasPath);
      }
      assert looks[..|looks|] == looks;
      forall i, j | 0 <= i < j < |looks| && TimesOut(looks[i], hardDeadline) ensures !closes[j] {
        NotLastAgain(looks, hardDeadline, i, j);
      }
    }
  }

  lemma NothingSeen(hardDeadline: Stamp)
    ensures !AnyTimesOut([], hardDeadline) && Follow(Seen([], hardDeadline)) == Cursor(0, 0)
  {
  }

  lemma OneMoreLook(looks: seq<Look>, i: nat, hardDeadline: Stamp)
    requires i < |looks|
    ensures AnyTimesOut(looks[..i + 1], hardDeadline) <==>
            AnyTimesOut(looks[..i], hardDeadline) || TimesOut(looks[i], hardDeadline)
    ensures var look := looks[i];
            Seen(looks[..i + 1], hardDeadline)
            == if look.stored && look.file.Some? && !AnyTimesOut(looks[..i + 1], hardDeadline)
               then Seen(looks[..i], hardDeadline) + [look.file.value] else Seen(looks[..i], hardDeadline)
  {
    var all, front := looks[..i + 1], looks[..i];
    assert all[..|all| - 1] == front && all[|all| - 1] == looks[i];
    if TimesOut(looks[i], hardDeadline) {
      assert TimesOut(all[i], hardDeadline);
    }
    if AnyTimesOut(front, hardDeadline) {
      var j :| 0 <= j < |front| && TimesOut(front[j], hardDeadline);
      assert TimesOut(all[j], hardDeadline);
    }
    AppendNothing(Seen(front, hardDeadline));
  }

  lemma FollowOneMore(files: seq<string>, file: Option<string>, c: Cursor, hasPath: bool)
    requires hasPath ==> c == Follow(files)
    ensures !hasPath || file.None? ==> Moved(ScanTranscript(hasPath, file, c), c) == c
    ensures hasPath && file.Some? ==> Follow(files + [file.value]) == Moved(ScanTranscript(hasPath, file, c), c)
  {
    if file.Some? {
      assert (files + [file.value])[..|files|] == files;
    }
  }

  lemma NotLastAgain(looks: seq<Look>, hardDeadline: Stamp, i: nat, j: nat)
    requires i < j < |looks| && TimesOut(looks[i], hardDeadline)
    ensures !IsLastLook(looks, j, hardDeadline)
  {
    assert TimesOut(looks[..j][i], hardDeadline);
  }

  /** The idle deadline does not move with activity: once it is past, the first look without new text makes the
      observer idle, however shortly before text was read. */
  method IdleRightAfterActivity(o: Observer, first: Look, second: Look, threshold: nat) returns (closesJob: bool)
    requires o.status != TimedOut && first.stored && second.stored && second.file == first.file
    requires ScanTranscript(o.hasPath, first.file, o.cursor).Delta?
    requires !Past(o.hardDeadline, first.now) && !Past(o.hardDeadline, second.now)
    requires Past(o.idleDeadline, second.now)
    modifies o
    ensures o.lastActivity == first.now && o.status == MaybeIdle
  {
    closesJob := o.ProcessObserver(first, threshold);
    closesJob := o.ProcessObserver(second, threshold);
  }

  /** When an orphaned job is closed. With a readable heartbeat: when that is older than thirty seconds and than three
      polls. With an unreadable one: always. Without one the start of the job decides in the same way, and a job with
      no readable start is closed. */
  lemma StaleExactly(job: Job, now: int, pollSecs: nat)
    ensures var stale := IsJobStale(job, now, StaleThreshold(pollSecs));
            match job.heartbeat
            case At(beat) => stale <==> now - beat > 30 && now - beat > 3 * pollSecs
            case Unreadable => stale
            case Absent =>
              && (job.started == Absent || job.started == Unreadable ==> stale)
              && (forall start :: job.started == At(start) ==>
                    (stale <==> now - start > 30 && now - start > 3 * pollSecs))
  {
  }
}
