/** The login lockout (crates/bridge/src/routes.rs). Clock readings are parameters, in seconds. */
module LoginLockout {
  import opened Common

  const MAX_LOGIN_FAILURES := 5
  const LOCKOUT_SECS := 60

  datatype Body = Malformed | Fields(username: Option<string>, password: Option<string>)

  /** What the user table says about the name, and whether the password verifies. */
  datatype Lookup = DbError | NotFound | Found(disabled: bool, verifies: bool)

  datatype Response = TooManyRequests | BadRequest | Unauthorized | InternalError | LoggedIn

  predicate BothGiven(body: Body) {
    body.Fields? && body.username.Some? && body.password.Some?
  }

  /** Failure times in order, each at least a lockout after the one five before it. */
  ghost predicate Spaced(fails: seq<nat>) {
    && (forall i, j :: 0 <= i < j < |fails| ==> fails[i] <= fails[j])
    && (forall i, j :: 0 <= i && j == i + MAX_LOGIN_FAILURES < |fails| ==> fails[i] + LOCKOUT_SECS <= fails[j])
  }

  /** The guard between attempts handled one at a time, up to time `clock`: its failures come in batches of
      five, each batch at least a lockout after the one before. */
  ghost predicate Batched(fails: seq<nat>, failCount: nat, lockedUntil: nat, clock: nat) {
    && failCount <= MAX_LOGIN_FAILURES && failCount <= |fails|
    && (lockedUntil > 0 <==> failCount == MAX_LOGIN_FAILURES)
    && Spaced(fails) && (fails != [] ==> fails[|fails| - 1] <= clock)
    && (lockedUntil > 0 ==> lockedUntil == fails[|fails| - 1] + LOCKOUT_SECS)
    && (failCount < |fails| ==> fails[|fails| - failCount - 1] + LOCKOUT_SECS <= clock)
  }

  lemma FailureKeepsBatches(fails: seq<nat>, failCount: nat, clock: nat, at: nat)
    requires Batched(fails, failCount, 0, clock) && clock <= at
    ensures Batched(fails + [at], failCount + 1,
                    if failCount + 1 >= MAX_LOGIN_FAILURES then at + LOCKOUT_SECS else 0, at)
  {
    var fails' := fails + [at];
    forall i, j | 0 <= i && j == i + MAX_LOGIN_FAILURES < |fails'| ensures fails'[i] + LOCKOUT_SECS <= fails'[j] {
      if j == |fails| {
        assert i <= |fails| - failCount - 1;
        assert fails[i] <= fails[|fails| - failCount - 1];
      }
    }
  }

  lemma AcquireKeepsBatches(fails: seq<nat>, failCount: nat, lockedUntil: nat, clock: nat, now: nat)
    requires Batched(fails, failCount, lockedUntil, clock) && clock <= now
    ensures if lockedUntil > 0 && now < lockedUntil then Batched(fails, failCount, lockedUntil, now)
            else Batched(fails, if lockedUntil > 0 then 0 else failCount, 0, now)
  {
  }

  lemma ClockMovesOn(fails: seq<nat>, failCount: nat, lockedUntil: nat, clock: nat, now: nat)
    requires Batched(fails, failCount, lockedUntil, clock) && clock <= now
    ensures Batched(fails, failCount, lockedUntil, now)
  {
  }

  lemma BatchesAreSpaced(fails: seq<nat>, failCount: nat, lockedUntil: nat, clock: nat)
    requires Batched(fails, failCount, lockedUntil, clock)
    ensures Spaced(fails)
    ensures forall i, j :: 0 <= i && j == i + 5 < |fails| ==> fails[i] + 60 <= fails[j]
  {
  }

  lemma NoFailures(clock: nat)
    ensures Batched([], 0, 0, clock)
  {
  }

  class LoginGuard {
    var failCount: nat
    var lockedUntil: nat
    /** The failures recorded since the last success. */
    ghost var fails: seq<nat>

    /** Holds between any two calls, however the calls of different attempts interleave. */
    ghost predicate Valid() reads this {
      lockedUntil > 0 <==> failCount >= MAX_LOGIN_FAILURES
    }

    ghost predicate OneAtATime(clock: nat) reads this {
      Batched(fails, failCount, lockedUntil, clock)
    }

    constructor ()
      ensures Valid() && OneAtATime(0) && fails == [] && failCount == 0
    {
      failCount, lockedUntil, fails := 0, 0, [];
    }

    /** `try_acquire`: an attempt is refused exactly while the lock lasts. */
    method TryAcquire(now: nat) returns (ok: bool)
      requires Valid()
      modifies this`failCount, this`lockedUntil
      ensures Valid()
      ensures ok == !(old(lockedUntil) > 0 && now < old(lockedUntil))
      ensures !ok ==> failCount == old(failCount) && lockedUntil == old(lockedUntil)
      ensures ok ==> lockedUntil == 0 && failCount == if old(lockedUntil) > 0 then 0 else old(failCount)
    {
      if lockedUntil > 0 && now < lockedUntil {
        return false;
      }
      if lockedUntil > 0 && now >= lockedUntil {
        failCount := 0;
        lockedUntil := 0;
      }
      return true;
    }

    method RecordSuccess()
      modifies this
      ensures Valid() && failCount == 0 && lockedUntil == 0 && fails == []
    {
      failCount, lockedUntil, fails := 0, 0, [];
    }

    method RecordFailure(now: nat)
      requires Valid()
      modifies this
      ensures Valid() && fails == old(fails) + [now] && failCount == old(failCount) + 1
      ensures lockedUntil == if old(failCount) + 1 >= MAX_LOGIN_FAILURES then now + LOCKOUT_SECS else old(lockedUntil)
    {
      failCount := failCount + 1;
      if failCount >= MAX_LOGIN_FAILURES {
        lockedUntil := now + LOCKOUT_SECS;
      }
      fails := fails + [now];
    }

    /** `handle_post_login`, from the first look at the guard to the record at the end */
    method HandlePostLogin(acquiredAt: nat, recordedAt: nat, body: Body, lookup: Lookup, ghost clock: nat)
      returns (response: Response)
      requires OneAtATime(clock) && clock <= acquiredAt <= recordedAt
      modifies this
      ensures Valid() && OneAtATime(recordedAt)
      ensures var locked := old(lockedUntil) > 0 && acquiredAt < old(lockedUntil);
              && (response == TooManyRequests <==> locked)
              && (response == LoggedIn <==> !locked && BothGiven(body) && lookup == Found(false, true))
              && (response == BadRequest <==> !locked && body.Malformed?)
              && (response == InternalError <==> !locked && BothGiven(body) && lookup.DbError?)
      ensures var locked := old(lockedUntil) > 0 && acquiredAt < old(lockedUntil);
              var counted := if old(lockedUntil) > 0 then 0 else old(failCount);
              if locked then failCount == old(failCount) && lockedUntil == old(lockedUntil) && fails == old(fails)
              else if response == LoggedIn then failCount == 0 && lockedUntil == 0 && fails == []
              else if body.Malformed? || (BothGiven(body) && lookup.DbError?) then
                failCount == counted && lockedUntil == 0 && fails == old(fails)
              else
                && failCount == counted + 1 && fails == old(fails) + [recordedAt]
                && lockedUntil == if counted + 1 >= 5 then recordedAt + 60 else 0
    {
      AcquireKeepsBatches(fails, failCount, lockedUntil, clock, acquiredAt);
      assert Valid();
      hide Batched;
      var ok := TryAcquire(acquiredAt);
      ClockMovesOn(fails, failCount, lockedUntil, acquiredAt, recordedAt);
      if !ok {
        return TooManyRequests;
      }
      response := HandlePassed(recordedAt, body, lookup);
    }

    /** The handler once the guard has let the attempt through. */
    method HandlePassed(recordedAt: nat, body: Body, lookup: Lookup) returns (response: Response)
      requires OneAtATime(recordedAt) && lockedUntil == 0 && failCount < 5
      modifies this
      ensures Valid() && OneAtATime(recordedAt)
      ensures response != TooManyRequests
      ensures response == LoggedIn <==> BothGiven(body) && lookup == Found(false, true)
      ensures response == BadRequest <==> body.Malformed?
      ensures response == InternalError <==> BothGiven(body) && lookup.DbError?
      ensures if response == LoggedIn then failCount == 0 && lockedUntil == 0 && fails == []
              else if response == BadRequest || response == InternalError then
                failCount == old(failCount) && lockedUntil == 0 && fails == old(fails)
              else
                && failCount == old(failCount) + 1 && fails == old(fails) + [recordedAt]
                && lockedUntil == if old(failCount) + 1 >= 5 then recordedAt + 60 else 0
    {
      hide Batched;
      FailureKeepsBatches(fails, failCount, recordedAt, recordedAt);
      NoFailures(recordedAt);
      if body.Malformed? {
        return BadRequest;
      }
      if body.username.None? {
        RecordFailure(recordedAt);
        return Unauthorized;
      }
      if body.password.None? {
        RecordFailure(recordedAt);
        return Unauthorized;
      }
      match lookup
      case DbError =>
        return InternalError;
      case NotFound =>
        RecordFailure(recordedAt);
        return Unauthorized;
      case Found(disabled, verifies) =>
        if disabled {
          RecordFailure(recordedAt);
          return Unauthorized;
        }
        if !verifies {
          RecordFailure(recordedAt);
          return Unauthorized;
        }
        RecordSuccess();
        return LoggedIn;
    }
  }

  // ---- One attempt after the other ----

  datatype Attempt = Attempt(acquiredAt: nat, recordedAt: nat, body: Body, lookup: Lookup)

  /** Each attempt is over before the next one begins. */
  predicate InTurn(attempts: seq<Attempt>) {
    && (forall i :: 0 <= i < |attempts| ==> attempts[i].acquiredAt <= attempts[i].recordedAt)
    && (forall i, j :: 0 <= i && j == i + 1 < |attempts| ==> attempts[i].recordedAt <= attempts[j].acquiredAt)
  }

  /** When the failed attempts since the last login were recorded. */
  function FailTimes(attempts: seq<Attempt>, responses: seq<Response>): seq<nat>
    requires |attempts| == |responses|
  {
    if attempts == [] then []
    else
      var n := |attempts| - 1;
      var before := FailTimes(attempts[..n], responses[..n]);
      if responses[n] == LoggedIn then []
      else if responses[n] == Unauthorized then before + [attempts[n].recordedAt]
      else before
  }

  lemma FailTimesSnoc(attempts: seq<Attempt>, n: nat, responses: seq<Response>, response: Response)
    requires n < |attempts| && |responses| == n
    ensures FailTimes(attempts[..n + 1], responses + [response])
            == if response == LoggedIn then []
               else if response == Unauthorized then FailTimes(attempts[..n], responses) + [attempts[n].recordedAt]
               else FailTimes(attempts[..n], responses)
  {
    assert attempts[..n + 1][..n] == attempts[..n] && (responses + [response])[..n] == responses;
  }

  /** What the answer to an attempt says about it and the failures before it. */
  predicate Fits(a: Attempt, fails: seq<nat>, response: Response) {
    && (response == LoggedIn ==> BothGiven(a.body) && a.lookup == Found(false, true))
    && (BothGiven(a.body) && a.lookup == Found(false, true) ==> response == LoggedIn || response == TooManyRequests)
    && (response == TooManyRequests ==> |fails| >= 5 && a.acquiredAt < fails[|fails| - 1] + 60)
  }

  ghost predicate AllFit(attempts: seq<Attempt>, responses: seq<Response>)
    requires |responses| <= |attempts|
  {
    forall i :: 0 <= i < |responses| ==>
      Fits(attempts[i], FailTimes(attempts[..i], responses[..i]), responses[i])
  }

  lemma LockedBy(fails: seq<nat>, failCount: nat, lockedUntil: nat, clock: nat)
    requires Batched(fails, failCount, lockedUntil, clock)
    ensures lockedUntil > 0 ==> |fails| >= 5 && lockedUntil == fails[|fails| - 1] + 60
  {
  }

  lemma NoneFit(attempts: seq<Attempt>)
    ensures AllFit(attempts, []) && FailTimes(attempts[..0], []) == []
  {
  }

  lemma AllFitMeans(attempts: seq<Attempt>, responses: seq<Response>)
    requires |responses| == |attempts| && AllFit(attempts, responses)
    ensures forall i :: 0 <= i < |attempts| && responses[i] == LoggedIn ==>
              BothGiven(attempts[i].body) && attempts[i].lookup == Found(false, true)
    ensures forall i :: 0 <= i < |attempts| && BothGiven(attempts[i].body) && attempts[i].lookup == Found(false, true)
              ==> responses[i] == LoggedIn || responses[i] == TooManyRequests
    ensures forall i :: 0 <= i < |attempts| && responses[i] == TooManyRequests ==>
              var fails := FailTimes(attempts[..i], responses[..i]);
              |fails| >= 5 && attempts[i].acquiredAt < fails[|fails| - 1] + 60
    ensures (forall i :: 0 <= i < |attempts| ==> attempts[i].lookup != Found(false, true)) ==> LoggedIn !in responses
  {
    hide FailTimes, BothGiven;
  }

  lemma OneMoreAnswer(attempts: seq<Attempt>, responses: seq<Response>, response: Response, fails: seq<nat>,
                      fails': seq<nat>)
    requires |responses| < |attempts| && AllFit(attempts, responses)
    requires fails == FailTimes(attempts[..|responses|], responses) && Fits(attempts[|responses|], fails, response)
    requires fails' == if response == LoggedIn then []
                       else if response == Unauthorized then fails + [attempts[|responses|].recordedAt] else fails
    ensures AllFit(attempts, responses + [response])
    ensures fails' == FailTimes(attempts[..|responses| + 1], responses + [response])
  {
    hide *;
    FailTimesSnoc(attempts, |responses|, responses, response);
    AllFitSnoc(attempts, responses, response);
  }

  lemma FailuresSpaced(fails: seq<nat>, failCount: nat, lockedUntil: nat, clock: nat)
    requires Batched(fails, failCount, lockedUntil, clock)
    ensures forall i, j :: 0 <= i && j == i + 5 < |fails| ==> fails[i] + 60 <= fails[j]
    ensures forall from :: CountInWindow(fails, from) <= 5
  {
    BatchesAreSpaced(fails, failCount, lockedUntil, clock);
    hide *;
    forall from ensures CountInWindow(fails, from) <= 5 {
      AtMostFiveInAnyWindow(fails, from);
    }
  }

  lemma AllFitSnoc(attempts: seq<Attempt>, responses: seq<Response>, response: Response)
    requires |responses| < |attempts| && AllFit(attempts, responses)
    requires Fits(attempts[|responses|], FailTimes(attempts[..|responses|], responses), response)
    ensures AllFit(attempts, responses + [response])
  {
    hide FailTimes, Fits;
    var all := responses + [response];
    forall i | 0 <= i < |all| ensures Fits(attempts[i], FailTimes(attempts[..i], all[..i]), all[i]) {
      assert all[..i] == responses[..i];
      assert responses[..|responses|] == responses;
    }
  }

  /** Attempts handled one at a time at a new guard. Whoever logs in gave both fields, and the name was found, not
      disabled and verified; so in a series in which no account passes nobody ever does. Such an attempt is refused
      only less than sixty seconds after the last of five or more failures since the last login, and of those no sixty
      seconds see more than five. */
  method HandleInTurn(attempts: seq<Attempt>) returns (responses: seq<Response>)
    requires InTurn(attempts)
    ensures |responses| == |attempts|
    ensures forall i :: 0 <= i < |attempts| && responses[i] == LoggedIn ==>
              BothGiven(attempts[i].body) && attempts[i].lookup == Found(false, true)
    ensures (forall i :: 0 <= i < |attempts| ==> attempts[i].lookup != Found(false, true)) ==> LoggedIn !in responses
    ensures forall i :: 0 <= i < |attempts| && BothGiven(attempts[i].body) && attempts[i].lookup == Found(false, true)
              ==> responses[i] == LoggedIn || responses[i] == TooManyRequests
    ensures forall i :: 0 <= i < |attempts| && responses[i] == TooManyRequests ==>
              var fails := FailTimes(attempts[..i], responses[..i]);
              |fails| >= 5 && attempts[i].acquiredAt < fails[|fails| - 1] + 60
    ensures var fails := FailTimes(attempts, responses);
            && (forall i, j :: 0 <= i && j == i + 5 < |fails| ==> fails[i] + 60 <= fails[j])
            && (forall from :: CountInWindow(fails, from) <= 5)
  {
    hide AllFit, BothGiven, Batched, Spaced, FailTimes, CountInWindow;
    NoneFit(attempts);
    var guard := new LoginGuard();
    responses := [];
    ghost var clock := 0;
    while |responses| < |attempts|
      invariant |responses| <= |attempts|
      invariant guard.OneAtATime(clock)
      invariant |responses| == 0 ==> clock == 0
      invariant |responses| > 0 ==> clock == attempts[|responses| - 1].recordedAt
      invariant guard.fails == FailTimes(attempts[..|responses|], responses)
      invariant AllFit(attempts, responses)
    {
      var n := |responses|;
      var a := attempts[n];
      LockedBy(guard.fails, guard.failCount, guard.lockedUntil, clock);
      ghost var fails := guard.fails;
      var response := guard.HandlePostLogin(a.acquiredAt, a.recordedAt, a.body, a.lookup, clock);
      OneMoreAnswer(attempts, responses, response, fails, guard.fails);
      responses := responses + [response];
      clock := a.recordedAt;
    }
    assert attempts[..|responses|] == attempts;
    AllFitMeans(attempts, responses);
    FailuresSpaced(guard.fails, guard.failCount, guard.lockedUntil, clock);
  }

  // ---- The bound ----

  function CountInWindow(fails: seq<nat>, from: int): nat {
    if fails == [] then 0
    else (if from <= fails[0] < from + LOCKOUT_SECS then 1 else 0) + CountInWindow(fails[1..], from)
  }

  lemma {:induction false} CountAtMostLength(fails: seq<nat>, from: int, n: nat)
    requires n <= |fails|
    requires forall i :: n <= i < |fails| ==> fails[i] >= from + LOCKOUT_SECS
    ensures CountInWindow(fails, from) <= n
  {
    if fails != [] {
      CountAtMostLength(fails[1..], from, if n > 0 then n - 1 else 0);
    }
  }

  /** With attempts handled one at a time, no half-open window of sixty seconds since the last success holds
      more than five recorded failures. */
  lemma {:induction false} AtMostFiveInAnyWindow(fails: seq<nat>, from: int)
    requires Spaced(fails)
    ensures CountInWindow(fails, from) <= MAX_LOGIN_FAILURES
  {
    if fails != [] {
      if fails[0] < from {
        AtMostFiveInAnyWindow(fails[1..], from);
      } else {
        var n := if |fails| < MAX_LOGIN_FAILURES then |fails| else MAX_LOGIN_FAILURES;
        forall i | n <= i < |fails| ensures fails[i] >= from + LOCKOUT_SECS {
          assert fails[MAX_LOGIN_FAILURES] >= fails[0] + LOCKOUT_SECS;
        }
        CountAtMostLength(fails, from, n);
      }
    }
  }

  /** Attempts that all pass the first look before any is recorded have no bound: `n` failures in one second. */
  method Burst(n: nat, now: nat) returns (guard: LoginGuard)
    ensures fresh(guard) && guard.Valid()
    ensures guard.failCount == n && |guard.fails| == n && forall f :: f in guard.fails ==> f == now
  {
    guard := new LoginGuard();
    var i := 0;
    while i < n
      invariant 0 <= i <= n && guard.Valid() && guard.fails == [] && guard.failCount == 0 && guard.lockedUntil == 0
    {
      var ok := guard.TryAcquire(now);
      assert ok;
      i := i + 1;
    }
    i := 0;
    while i < n
      invariant 0 <= i <= n && guard.Valid()
      invariant guard.failCount == i && |guard.fails| == i && forall f :: f in guard.fails ==> f == now
    {
      guard.RecordFailure(now);
      i := i + 1;
    }
  }
}
