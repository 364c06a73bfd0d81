/** The retry loop: one run against an arbitrary environment, and what every run guarantees. */
module SendLoop {
  import opened Options
  import opened Backoff
  import opened Delivery

  /** What one HTTP request comes to. */
  datatype Exchange =
    | Broken(cause: Cause)
    | Answered(status: int, body: Body, retryAfter: string, untilDate: Option<int>)

  /**
   * Everything the environment contributes to one iteration: what the context says at the top and
   * when a retry is considered, the exchange, the random draw, and what interrupts the sleep.
   */
  datatype Round = Round(
    atTop: Option<Cause>,
    exchange: Exchange,
    atRetry: Option<Cause>,
    draw: nat,
    inSleep: Option<Cause>)

  /** Rounds are numbered by attempt, from 1. */
  type Environment = nat -> Round

  datatype Config = Config(env: Environment, adapter: Adapter, maxRetries: nat)

  datatype Attempt = Attempt(parsed: Parsed, hint: int)

  /** The Retry-After header in force: that of a failed 429, if it can be read. */
  function HintIn(x: Exchange, refused: bool): Option<int> {
    if refused && x.Answered? && x.status == 429 then ParseRetryAfter(x.retryAfter, x.untilDate) else None
  }

  /** doAttempt: the outcome of one request and its Retry-After hint, 0 unless a failed 429 carries one. */
  function DoAttempt(adapter: Adapter, x: Exchange, attempt: nat): (a: Attempt)
    ensures SoundParse(a.parsed, attempt)
    ensures x.Broken? ==> a.parsed.Refused? && a.parsed.retryable && a.parsed.error.httpStatus == 0
    ensures match HintIn(x, a.parsed.Refused?) case Some(d) => a.hint == d case None => a.hint == 0
  {
    match x
    case Broken(cause) => Attempt(Refused(ClassifyTransport(cause, attempt), true), 0)
    case Answered(status, body, retryAfter, untilDate) =>
      var parsed := Parse(adapter, status, body, attempt);
      var hint :=
        if parsed.Refused? && status == 429 then
          match ParseRetryAfter(retryAfter, untilDate) case Some(d) => d case None => 0
        else 0;
      Attempt(parsed, hint)
  }

  /** For the loop an answer that cannot be decoded is a lost request. */
  lemma UndecodableIsLost(adapter: Adapter, x: Exchange, attempt: nat)
    requires x.Answered? && Undecodable(adapter, x.body)
    ensures DoAttempt(adapter, x, attempt).parsed == DoAttempt(adapter, Broken(OtherCause), attempt).parsed
  {
    UndecodableIsRetried(adapter, x.status, x.body, attempt);
  }

  predicate ShouldRetry(cancelled: bool, retryable: bool, attempt: nat, maxRetries: nat) {
    retryable && attempt <= maxRetries && !cancelled
  }

  /** How a run ends: a receipt, or the classified error handed to the SMTP layer. */
  datatype Outcome = Sent(receipt: Receipt) | Failed(error: DeliveryError)

  /** A finished run, with the requests it issued and the sleeps it asked for. */
  datatype Run = Run(outcome: Outcome, requests: nat, sleeps: seq<int>)

  function AttemptOf(c: Config, n: nat): (a: Attempt)
    ensures SoundParse(a.parsed, n)
  {
    DoAttempt(c.adapter, c.env(n).exchange, n)
  }

  function DelayOf(c: Config, n: nat): int
    requires n >= 1
  {
    BackoffDelay(n, AttemptOf(c, n).hint, c.env(n).draw)
  }

  /** Round n issues its request. */
  predicate Requests(c: Config, n: nat) {
    c.env(n).atTop.None?
  }

  /** Round n reaches the sleep: the attempt failed, is retryable, within budget, and the hint is short. */
  predicate Sleeps(c: Config, n: nat)
    requires n >= 1
  {
    && Requests(c, n)
    && AttemptOf(c, n).parsed.Refused?
    && AttemptOf(c, n).parsed.retryable
    && n <= c.maxRetries
    && c.env(n).atRetry.None?
    && DelayOf(c, n) <= RETRY_CAP
  }

  /** Round n is followed by another one. */
  predicate Continues(c: Config, n: nat)
    requires n >= 1
  {
    Sleeps(c, n) && c.env(n).inSleep.None?
  }

  predicate ContinuesBelow(c: Config, n: nat) {
    forall k :: 1 <= k < n ==> Continues(c, k)
  }

  /** Round n is the first that is not followed by another. */
  predicate StopsAt(c: Config, n: nat) {
    n >= 1 && !Continues(c, n) && ContinuesBelow(c, n)
  }

  /** The outcome when the run stops at round n. */
  function Ending(c: Config, n: nat): Outcome
    requires n >= 1 && ContinuesBelow(c, n)
  {
    if !Requests(c, n) then
      if n == 1 then Failed(ClassifyTransport(c.env(n).atTop.value, 0))
      else
        assert Continues(c, n - 1);
        Failed(AttemptOf(c, n - 1).parsed.error)
    else if Sleeps(c, n) && c.env(n).inSleep.Some? then
      Failed(ClassifyTransport(c.env(n).inSleep.value, n))
    else match AttemptOf(c, n).parsed
      case Delivered(receipt) => Sent(receipt)
      case Refused(error, _) => Failed(error)
  }

  function Delays(c: Config, n: nat): (ds: seq<int>)
    ensures |ds| == n
    ensures forall i :: 0 <= i < n ==> ds[i] == DelayOf(c, i + 1)
  {
    seq(n, i requires 0 <= i < n => DelayOf(c, i + 1))
  }

  /** The whole run in closed form, given the round it stops at. */
  function RunStoppingAt(c: Config, n: nat): Run
    requires n >= 1 && ContinuesBelow(c, n)
  {
    Run(Ending(c, n),
        if Requests(c, n) then n else n - 1,
        Delays(c, if Sleeps(c, n) then n else n - 1))
  }

  function StopFrom(c: Config, n: nat): (s: nat)
    requires 1 <= n <= c.maxRetries + 1 && ContinuesBelow(c, n)
    ensures StopsAt(c, s) && n <= s <= c.maxRetries + 1
    decreases c.maxRetries + 1 - n
  {
    if Continues(c, n) then StopFrom(c, n + 1) else n
  }

  function StopOf(c: Config): (s: nat)
    ensures StopsAt(c, s) && 1 <= s <= c.maxRetries + 1
  {
    StopFrom(c, 1)
  }

  /** The run of a configuration: it stops at the least round that does not continue. */
  function RunOf(c: Config): Run {
    RunStoppingAt(c, StopOf(c))
  }

  lemma NotBelow(c: Config, n: nat, stop: nat)
    requires ContinuesBelow(c, n) && stop >= 1 && !Continues(c, stop)
    ensures n <= stop
  {
  }

  /** The least stopping round is unique, so any way of finding it gives RunOf. */
  lemma StopIsUnique(c: Config, n: nat)
    requires StopsAt(c, n)
    ensures StopOf(c) == n
  {
    NotBelow(c, n, StopOf(c));
    NotBelow(c, StopOf(c), n);
  }

  /** sendLoop, statement by statement; requests and sleeps count what it does to the outside. */
  method Send(c: Config) returns (run: Run)
    ensures run == RunOf(c)
  {
    var lastErr: Option<DeliveryError> := None;
    var requests := 0;
    var sleeps: seq<int> := [];
    var attempt := 1;
    while true
      invariant 1 <= attempt <= c.maxRetries + 1
      invariant ContinuesBelow(c, attempt)
      invariant requests == attempt - 1 && sleeps == Delays(c, attempt - 1)
      invariant lastErr.Some? <==> attempt > 1
      invariant attempt > 1 ==> AttemptOf(c, attempt - 1).parsed.Refused?
                                && lastErr.value == AttemptOf(c, attempt - 1).parsed.error
      decreases c.maxRetries + 1 - attempt
    {
      var round := c.env(attempt);
      if round.atTop.Some? {
        StopIsUnique(c, attempt);
        if lastErr.Some? {
          return Run(Failed(lastErr.value), requests, sleeps);
        }
        return Run(Failed(ClassifyTransport(round.atTop.value, attempt - 1)), requests, sleeps);
      }

      var a := DoAttempt(c.adapter, round.exchange, attempt);
      requests := requests + 1;
      if a.parsed.Delivered? {
        StopIsUnique(c, attempt);
        return Run(Sent(a.parsed.receipt), requests, sleeps);
      }
      lastErr := Some(a.parsed.error);

      if !ShouldRetry(round.atRetry.Some?, a.parsed.retryable, attempt, c.maxRetries) {
        StopIsUnique(c, attempt);
        return Run(Failed(a.parsed.error), requests, sleeps);
      }

      var delay := BackoffDelay(attempt, a.hint, round.draw);
      if delay > RETRY_CAP {
        StopIsUnique(c, attempt);
        return Run(Failed(a.parsed.error), requests, sleeps);
      }
      sleeps := sleeps + [delay];
      assert sleeps == Delays(c, attempt);
      if round.inSleep.Some? {
        StopIsUnique(c, attempt);
        return Run(Failed(ClassifyTransport(round.inSleep.value, attempt)), requests, sleeps);
      }
      attempt := attempt + 1;
    }
  }

  // ---- What every run guarantees ----

  function ReportedAttempts(o: Outcome): nat {
    match o
    case Sent(receipt) => receipt.attempts
    case Failed(error) => error.attempts
  }

  /** The attempt was refused and may be repeated. */
  predicate RetryableFailure(c: Config, n: nat) {
    AttemptOf(c, n).parsed.Refused? && AttemptOf(c, n).parsed.retryable
  }

  /**
   * Attempt accounting: on every exit the reported attempts are the requests issued, at most one more
   * than the retries, and every request but the last was refused as retryable. So nothing is sent after
   * an acceptance or a permanent rejection that the relay has read; an acceptance whose answer got lost
   * is a failed request here.
   */
  lemma AttemptAccounting(c: Config)
    ensures var run := RunOf(c);
            && ReportedAttempts(run.outcome) == run.requests <= c.maxRetries + 1
            && (forall k :: 1 <= k < run.requests ==> RetryableFailure(c, k))
            && (run.outcome.Sent? <==> run.requests >= 1 && AttemptOf(c, run.requests).parsed.Delivered?)
  {
    var n := StopOf(c);
    forall k | 1 <= k < n ensures RetryableFailure(c, k) {
      assert Continues(c, k);
    }
    EndingAttempts(c, n);
  }

  lemma EndingAttempts(c: Config, n: nat)
    requires n >= 1 && ContinuesBelow(c, n)
    ensures var run := RunStoppingAt(c, n);
            && ReportedAttempts(run.outcome) == run.requests
            && (run.outcome.Sent? ==> Requests(c, n) && AttemptOf(c, n).parsed.Delivered?)
            && (Requests(c, n) && AttemptOf(c, n).parsed.Delivered? ==> run.outcome.Sent?)
            && (n > 1 ==> RetryableFailure(c, n - 1))
  {
    assert n > 1 ==> Continues(c, n - 1);
    assert SoundParse(AttemptOf(c, n).parsed, n);
  }

  function OutcomeOf(p: Parsed): Outcome {
    match p
    case Delivered(receipt) => Sent(receipt)
    case Refused(error, _) => Failed(error)
  }

  /**
   * The last request has the last word: the outcome is what it came to, also when the context is found
   * cancelled later; only a sleep cut short is reported as a transport failure of its own.
   */
  lemma LastWord(c: Config)
    ensures var run, stop := RunOf(c), StopOf(c);
            var slept := Sleeps(c, stop);
            && (slept ==> c.env(stop).inSleep.Some? && run.requests == stop
                          && run.outcome == Failed(ClassifyTransport(c.env(stop).inSleep.value, run.requests)))
            && (!slept && run.requests >= 1 ==> run.outcome == OutcomeOf(AttemptOf(c, run.requests).parsed))
            && (run.requests == 0 ==> c.env(1).atTop.Some?
                                      && run.outcome == Failed(ClassifyTransport(c.env(1).atTop.value, 0)))
  {
    EndingAttempts(c, StopOf(c));
  }

  /** Some check of the context, or the sleep, cut the run. */
  predicate Cancelled(c: Config) {
    var n := StopOf(c);
    || c.env(n).atTop.Some?
    || (RetryableFailure(c, n) && n <= c.maxRetries && c.env(n).atRetry.Some?)
    || (Sleeps(c, n) && c.env(n).inSleep.Some?)
  }

  /**
   * The client is told to give up if and only if the last request was answered with a permanent
   * rejection; in particular a cancelled run always ends with a temporary error.
   */
  lemma PermanentOnlyIfRejected(c: Config)
    ensures var run := RunOf(c);
            && (run.outcome.Failed? ==> WellClassified(run.outcome.error))
            && (run.outcome.Failed? && !run.outcome.error.temporary
                <==> run.requests >= 1
                     && AttemptOf(c, run.requests).parsed.Refused?
                     && VerdictOf(AttemptOf(c, run.requests).parsed) == Reject)
            && (Cancelled(c) ==> run.outcome.Failed? && run.outcome.error.temporary)
  {
    var n := StopOf(c);
    if n > 1 {
      assert Continues(c, n - 1);
    }
  }

  /** The answer decoded as one of the REST API, without success. */
  predicate RestRefusal(x: Exchange) {
    x.Answered? && x.body.rest.Some? && !x.body.rest.value.success
  }

  /**
   * Against the REST API the client is told to give up if and only if the last answer decoded, reported a
   * failure, and its first error code, or else its status, is documented as a rejection; and a run succeeds
   * if and only if the last answer decoded and reported success.
   */
  lemma RestOutcome(c: Config)
    requires c.adapter == Rest
    ensures var run := RunOf(c);
            var x := c.env(run.requests).exchange;
            && (run.outcome.Failed? && !run.outcome.error.temporary
                <==> run.requests >= 1 && RestRefusal(x)
                     && RestVerdict(x.status, FirstCode(x.body.rest.value)) == Reject)
            && (run.outcome.Sent?
                <==> run.requests >= 1 && x.Answered? && x.body.rest.Some? && x.body.rest.value.success)
  {
    var n := RunOf(c).requests;
    PermanentOnlyIfRejected(c);
    AttemptAccounting(c);
    RestRound(c, n);
  }

  lemma RestRound(c: Config, n: nat)
    requires c.adapter == Rest
    ensures var x, p := c.env(n).exchange, AttemptOf(c, n).parsed;
            && (p.Refused? && VerdictOf(p) == Reject
                <==> RestRefusal(x) && RestVerdict(x.status, FirstCode(x.body.rest.value)) == Reject)
            && (p.Delivered? <==> x.Answered? && x.body.rest.Some? && x.body.rest.value.success)
  {
    var x := c.env(n).exchange;
    if x.Answered? {
      if x.body.rest.None? {
        UndecodableIsRetried(Rest, x.status, x.body, n);
      } else if !x.body.rest.value.success {
        RestVerdictIsImplemented(x.status, x.body.rest.value, n);
      }
    }
  }

  /** Once the context is seen cancelled in round k, no later round issues a request. */
  lemma NoRequestAfterCancel(c: Config, k: nat)
    requires k >= 1
    ensures c.env(k).atTop.Some? ==> RunOf(c).requests <= k - 1
    ensures c.env(k).atRetry.Some? || c.env(k).inSleep.Some? ==> RunOf(c).requests <= k
  {
    if c.env(k).atTop.Some? || c.env(k).atRetry.Some? || c.env(k).inSleep.Some? {
      NotBelow(c, StopOf(c), k);
    }
  }

  /**
   * A run gives up on something that may be repeated only for one of three reasons: its budget is used,
   * it was cancelled, or the last request asked for a longer wait than the cap.
   */
  lemma BudgetIsUsed(c: Config)
    ensures var run := RunOf(c);
            run.outcome.Failed? && (run.requests == 0 || RetryableFailure(c, run.requests))
            ==> run.requests == c.maxRetries + 1 || Cancelled(c) || AttemptOf(c, run.requests).hint > RETRY_CAP
  {
    var n := StopOf(c);
    CeilingIsCappedDoubling(n);
  }

  lemma DelaysAreShort(c: Config)
    ensures var run := RunOf(c);
            && |run.sleeps| <= c.maxRetries
            && run.sleeps == Delays(c, |run.sleeps|)
            && |run.sleeps| <= run.requests
            && (forall i :: 0 <= i < |run.sleeps| ==> 0 <= run.sleeps[i] <= RETRY_CAP)
  {
    var n := StopOf(c);
    var sleeps := RunOf(c).sleeps;
    forall i | 0 <= i < |sleeps| ensures 0 <= sleeps[i] <= RETRY_CAP {
      assert sleeps[i] == DelayOf(c, i + 1);
      if i + 1 < n {
        assert Continues(c, i + 1);
      }
    }
  }

  /** None of the requests of the run was answered with a positive Retry-After hint. */
  predicate NoHints(c: Config) {
    forall n :: 1 <= n <= RunOf(c).requests ==> AttemptOf(c, n).hint <= 0
  }

  /**
   * Every delay asked for lies between zero and five seconds, and there is at most one per retry. With
   * no Retry-After hint in the run the total stays within the jitter budget.
   */
  lemma SleepBudget(c: Config)
    ensures var run := RunOf(c);
            && |run.sleeps| <= c.maxRetries
            && (forall i :: 0 <= i < |run.sleeps| ==> 0 <= run.sleeps[i] <= RETRY_CAP)
            && 0 <= Sum(run.sleeps) <= c.maxRetries * RETRY_CAP
            && (NoHints(c) ==> Sum(run.sleeps) <= JitterBudget(c.maxRetries))
  {
    DelaysAreShort(c);
    var sleeps := RunOf(c).sleeps;
    SumBound(sleeps, RETRY_CAP);
    MoreCapped(|sleeps|, c.maxRetries);
    if NoHints(c) {
      JitteredSleeps(c);
      JitterBudgetGrows(|sleeps|, c.maxRetries);
    }
  }

  lemma MoreCapped(a: nat, b: nat)
    requires a <= b
    ensures a * RETRY_CAP <= b * RETRY_CAP
  {
  }

  lemma JitteredDelay(c: Config, n: nat)
    requires n > 0 && AttemptOf(c, n).hint <= 0
    ensures DelayOf(c, n) <= Min(RETRY_BASE * Pow2(n - 1), RETRY_CAP)
  {
  }

  lemma JitteredSleeps(c: Config)
    requires NoHints(c)
    ensures Sum(RunOf(c).sleeps) <= JitterBudget(|RunOf(c).sleeps|)
  {
    DelaysAreShort(c);
    var sleeps := RunOf(c).sleeps;
    forall i | 0 <= i < |sleeps| ensures sleeps[i] <= Min(RETRY_BASE * Pow2(i), RETRY_CAP) {
      JitteredDelay(c, i + 1);
    }
    SumWithinBudget(sleeps);
  }

  /** The bound config.go puts on CLOUDFLARE_MAX_RETRIES, and the bound session.go puts on one Send. */
  const MAX_CONFIGURED_RETRIES := 5
  const SEND_TIMEOUT := 30 * SECOND

  /** With the configured limit, sleeping alone cannot use up the send timeout. */
  lemma SleepFitsTimeout(c: Config)
    requires c.maxRetries <= MAX_CONFIGURED_RETRIES
    ensures Sum(RunOf(c).sleeps) <= 25 * SECOND < SEND_TIMEOUT
    ensures NoHints(c) ==> Sum(RunOf(c).sleeps) <= 12500 * MILLISECOND
  {
    SleepBudget(c);
    MoreCapped(c.maxRetries, MAX_CONFIGURED_RETRIES);
    if NoHints(c) {
      JitterBudgetGrows(c.maxRetries, MAX_CONFIGURED_RETRIES);
    }
  }

  /** Round n is reached and fails on something that may be repeated, with a retry left and no cancellation. */
  predicate MayRepeat(c: Config, n: nat) {
    && n >= 1 && ContinuesBelow(c, n)
    && Requests(c, n) && RetryableFailure(c, n) && n <= c.maxRetries && c.env(n).atRetry.None?
  }

  /**
   * A hint of up to five seconds is slept exactly, a longer one ends the run with the error it came with,
   * and without a positive hint the delay is a jittered one.
   */
  lemma HintObeyed(c: Config, n: nat)
    requires MayRepeat(c, n)
    ensures var hint, run := AttemptOf(c, n).hint, RunOf(c);
            && (hint <= RETRY_CAP ==> |run.sleeps| >= n && run.sleeps[n - 1] == DelayOf(c, n))
            && (0 < hint <= RETRY_CAP ==> run.sleeps[n - 1] == hint)
            && (hint <= 0 ==> run.sleeps[n - 1] <= Min(RETRY_BASE * Pow2(n - 1), RETRY_CAP))
            && (hint > RETRY_CAP ==> StopOf(c) == n == run.requests
                                     && run.outcome == Failed(AttemptOf(c, n).parsed.error))
  {
    var stop := StopOf(c);
    NotBelow(c, n, stop);
    if AttemptOf(c, n).hint > RETRY_CAP {
      StopIsUnique(c, n);
    } else if stop > n {
      assert Continues(c, n);
    }
  }

  /** A retryable 429 whose Retry-After header is the decimal number s. */
  predicate RateLimitedFor(c: Config, n: nat, s: nat) {
    var x := c.env(n).exchange;
    && MayRepeat(c, n)
    && x.Answered? && x.status == 429 && x.retryAfter == Decimal(s)
    && (s >= TWO63 ==> x.untilDate.None?)
  }

  /**
   * Retry-After in seconds: 1 to 5 are slept exactly, more ends the run for as long as the number converts
   * to a duration at all, and 0 or a number beyond int64 leaves the jittered delay.
   */
  lemma RetryAfterHonoured(c: Config, n: nat, s: nat)
    requires RateLimitedFor(c, n, s)
    ensures var run := RunOf(c);
            && (1 <= s <= 5 ==> |run.sleeps| >= n && run.sleeps[n - 1] == s * SECOND)
            && (5 < s <= MAX_SECONDS ==> run.requests == n && run.outcome == Failed(AttemptOf(c, n).parsed.error))
            && (s == 0 || s >= TWO63 ==> |run.sleeps| >= n
                                         && run.sleeps[n - 1] <= Min(RETRY_BASE * Pow2(n - 1), RETRY_CAP))
  {
    RetryAfterRead(s);
    HintObeyed(c, n);
  }

  /** In general the run ends on the hint if and only if the wrapped number of nanoseconds is over the cap. */
  lemma RetryAfterEndsIff(c: Config, n: nat, s: nat)
    requires RateLimitedFor(c, n, s)
    ensures StopOf(c) == n && !Sleeps(c, n) <==> s < TWO63 && Wrap64(s * SECOND) > RETRY_CAP
  {
    RetryAfterRead(s);
    HintObeyed(c, n);
  }

  /** So a hint of 584 years, far over the cap, is waited for: the run goes on after 0.29 seconds. */
  lemma WrappedHintIsSlept(c: Config, n: nat, s: nat)
    requires RateLimitedFor(c, n, s) && s == 18_446_744_074
    ensures |RunOf(c).sleeps| >= n && RunOf(c).sleeps[n - 1] == 290_448_384
  {
    WrappedProduct(s);
    RetryAfterRead(s);
    HintObeyed(c, n);
  }

  /** A Retry-After value that is not a number, as every HTTP date. */
  predicate NoNumber(value: string) {
    value != "" && (HasStray(value) || Atoi(value).None?)
  }

  /** Retry-After as a date, d from now: a past date counts as now, one within five seconds is waited for. */
  lemma RetryDateHonoured(c: Config, n: nat, d: int)
    requires MayRepeat(c, n)
    requires var x := c.env(n).exchange;
             x.Answered? && x.status == 429 && NoNumber(x.retryAfter) && x.untilDate == Some(d)
    ensures var run := RunOf(c);
            && (0 < d <= RETRY_CAP ==> |run.sleeps| >= n && run.sleeps[n - 1] == d)
            && (d > RETRY_CAP ==> run.requests == n && run.outcome == Failed(AttemptOf(c, n).parsed.error))
            && (d <= 0 ==> |run.sleeps| >= n && run.sleeps[n - 1] <= Min(RETRY_BASE * Pow2(n - 1), RETRY_CAP))
  {
    if HasStray(c.env(n).exchange.retryAfter) {
      RetryAfterDate(c.env(n).exchange.retryAfter, d);
    }
    HintObeyed(c, n);
  }

  /** A value that asks for nothing: absent, a negative number, or neither a number nor a date. */
  predicate UnusableValue(value: string, untilDate: Option<int>) {
    || value == ""
    || (exists k: nat :: 0 < k <= TWO63 && value == "-" + Decimal(k))
    || (HasStray(value) && untilDate.None?)
    || match Atoi(value) case Some(secs) => secs < 0 case None => untilDate.None?
  }

  lemma UnusableIsNone(value: string, untilDate: Option<int>)
    requires UnusableValue(value, untilDate)
    ensures ParseRetryAfter(value, untilDate) == None
  {
    if k: nat :| 0 < k <= TWO63 && value == "-" + Decimal(k) {
      RetryAfterNegative(k, untilDate);
    } else if HasStray(value) && untilDate.None? {
      RetryAfterDate(value, 0);
    }
  }

  /** A lost request, another status, or an empty, negative or unreadable value leaves the jittered delay. */
  lemma UnusableHintMeansJitter(c: Config, n: nat)
    requires MayRepeat(c, n)
    requires var x := c.env(n).exchange;
             x.Broken? || x.status != 429 || UnusableValue(x.retryAfter, x.untilDate)
    ensures |RunOf(c).sleeps| >= n && RunOf(c).sleeps[n - 1] <= Min(RETRY_BASE * Pow2(n - 1), RETRY_CAP)
  {
    var x := c.env(n).exchange;
    if x.Answered? && UnusableValue(x.retryAfter, x.untilDate) {
      UnusableIsNone(x.retryAfter, x.untilDate);
    }
    HintObeyed(c, n);
  }

  /**
   * Raising the retry limit only helps: a run that did not end by exhausting its retries is the same
   * run under any larger limit.
   */
  lemma MoreRetriesSameRun(c: Config, more: nat)
    requires c.maxRetries <= more
    requires !(RunOf(c).requests == c.maxRetries + 1 && RunOf(c).outcome.Failed?
               && RetryableFailure(c, RunOf(c).requests))
    ensures RunOf(c.(maxRetries := more)) == RunOf(c)
  {
    var n, big := StopOf(c), c.(maxRetries := more);
    forall k | 1 <= k < n ensures Continues(big, k) {
      assert Continues(c, k);
      assert AttemptOf(big, k) == AttemptOf(c, k);
    }
    assert AttemptOf(big, n) == AttemptOf(c, n);
    if n > 1 {
      assert Continues(c, n - 1);
      assert AttemptOf(big, n - 1) == AttemptOf(c, n - 1);
    }
    StopIsUnique(big, n);
    assert Delays(big, n - 1) == Delays(c, n - 1);
    assert Delays(big, n) == Delays(c, n);
  }
}
